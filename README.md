# spring-data-crud, modelled in Dafny

spring-data-crud puts CRUD services and REST controllers on top of Spring Data. This project
models the decision-making part of it:

- the public read operations (`page`, `find(id)`, `find(ids)`, `count`, `exists`). Each runs
  the authorisation pre-step, dispatches on the search text and the RSQL query, and then
  calls a hook;
- the write operations (`create`, `update`, `delete`). These run `mapModel`, the
  before and after hooks and the repository call in a fixed order, inside a transaction for
  create and update;
- the two repository-backed implementations of the internal read operations. One is a
  Spring Data repository plus an OmniSearch engine. The other is JPA Specifications,
  each tagged with its operation before going through `combineSpecification`;
- the mapping of Spring paging requests to OmniSearch options, and the Mongo query that
  OmniSearch builds from those options;
- the operation classification, the string helpers, and the `Content-Disposition`
  header that file downloads use.

The repository is an in-memory table (`Repository.Store`): rows by identifier, with a
counter for the next generated identifier. Collaborators outside this code are parameters
of the model. These are the authorisation manager, the hooks, `mapModel`, the exceptions
the repositories throw on reads and on writes, the exception the read backend's
`internalFind(id)` throws when a write operation looks its entity up, the OmniSearch engine and the exceptions it
throws, the JPA metamodel's identifier attribute, the JPA combiner, the Mongo template and
filter builder, and Unicode decomposition. The read operations change no state: they are functions that
return the events they caused and their outcome. The write service is a class that holds
the table, the rollback-only flag and the event trace. Each of its methods is proved
against a run function, and `WriteServiceProperties` proves ordering, rollback and error
propagation about those run functions. The Mongo `Query` is a class mutated step by step,
as `buildQuery` does.

## Model

| member | source | states |
|---|---|---|
| Crud.PreProcess | spring-data-crud-core/src/main/java/com/peluware/springframework/crud/core/Crud.java:29-34 | the pre-step lets the operation through exactly when the service is not an AuthorizedCrud or its manager grants the operation; otherwise it throws AccessDenied("Access Denied") |
| CrudOperation.IsReadOnly | spring-data-crud-core/src/main/java/com/peluware/springframework/crud/core/CrudOperation.java:79-81 | read-only holds exactly for PAGE, FIND, COUNT and EXISTS |
| CrudOperation.IsWriteOnly | spring-data-crud-core/src/main/java/com/peluware/springframework/crud/core/CrudOperation.java:90-92 | write-only holds exactly for CREATE, UPDATE and DELETE |
| CrudOperation.WriteConstants | spring-data-crud-core/src/main/java/com/peluware/springframework/crud/core/CrudOperation.java:14-28 | CREATE, UPDATE and DELETE are flagged write and not read |
| CrudOperation.ReadConstants | spring-data-crud-core/src/main/java/com/peluware/springframework/crud/core/CrudOperation.java:35-56 | PAGE, FIND, COUNT and EXISTS are flagged read and not write |
| CrudOperation.ExactlyOneClassification | spring-data-crud-core/src/main/java/com/peluware/springframework/crud/core/CrudOperation.java:14-92 | every constant is exactly one of read-only and write-only |
| CrudOperation.Partition | spring-data-crud-core/src/main/java/com/peluware/springframework/crud/core/CrudOperation.java:14-92 | of the seven constants, the write-only ones are exactly {CREATE, UPDATE, DELETE} and the read-only ones the other four |
| StringUtils.IsEmpty | spring-data-crud-core/src/main/java/com/peluware/springframework/crud/core/utils/StringUtils.java:22-24 | isEmpty holds iff the string is null or empty |
| StringUtils.IsBlankMeans | spring-data-crud-core/src/main/java/com/peluware/springframework/crud/core/utils/StringUtils.java:26-28 | isBlank holds iff the string is null or every character is Java whitespace |
| StringUtils.EmptyIsBlank | spring-data-crud-core/src/main/java/com/peluware/springframework/crud/core/utils/StringUtils.java:22-28 | isEmpty implies isBlank |
| StringUtils.Trim | spring-data-crud-core/src/main/java/com/peluware/springframework/crud/core/utils/StringUtils.java:31 | `trim` returns a slice of the input with only characters at or below U+0020 cut from either end, and the slice neither starts nor ends with one |
| StringUtils.TrimIdempotent | spring-data-crud-core/src/main/java/com/peluware/springframework/crud/core/utils/StringUtils.java:31 | trimming twice is trimming once |
| StringUtils.Normalize | spring-data-crud-core/src/main/java/com/peluware/springframework/crud/core/utils/StringUtils.java:30-32 | normalize returns null iff the input is blank, and otherwise the trimmed input |
| StringUtils.NormalizeMayBeEmpty | spring-data-crud-core/src/main/java/com/peluware/springframework/crud/core/utils/StringUtils.java:30-32 | "\0" is not blank but trims to "", so normalize can return a non-null empty string |
| StringUtils.NormalizeKeepsVisible | spring-data-crud-core/src/main/java/com/peluware/springframework/crud/core/utils/StringUtils.java:30-32 | a string holding a character that is neither whitespace nor at or below U+0020 normalizes to a non-blank string |
| StringUtils.KeepAsciiIsAscii | spring-data-crud-core/src/main/java/com/peluware/springframework/crud/core/utils/StringUtils.java:16 | the ASCII filter leaves only characters below U+0080, and leaves an all-ASCII string unchanged |
| StringUtils.MarksAreNotAscii | spring-data-crud-core/src/main/java/com/peluware/springframework/crud/core/utils/StringUtils.java:15-16 | removing the combining diacritical marks first does not change what the ASCII filter keeps |
| StringUtils.ToAsciiIsAscii | spring-data-crud-core/src/main/java/com/peluware/springframework/crud/core/utils/StringUtils.java:11-20 | toASCII fails (IllegalArgumentException) exactly on null; its result is all below U+0080, and it is the decomposed input itself when that is ASCII |
| OmniSearchOptionsFactory.ToOrders | spring-data-crud-core/src/main/java/com/peluware/springframework/crud/core/OmniSearchOptionsFactory.java:38-40 | one OmniSearch order per Spring order, in sequence, with the same property, ascending exactly when the Spring order is |
| OmniSearchOptionsFactory.ToPagination | spring-data-crud-core/src/main/java/com/peluware/springframework/crud/core/OmniSearchOptionsFactory.java:33-35 | unpaged gives unpaginated; otherwise page number and size are copied |
| OmniSearchOptionsFactory.ToSort | spring-data-crud-core/src/main/java/com/peluware/springframework/crud/core/OmniSearchOptionsFactory.java:36-40 | the OmniSearch sort is sorted exactly when the Spring sort is |
| OmniSearchOptionsFactory.Create | spring-data-crud-core/src/main/java/com/peluware/springframework/crud/core/OmniSearchOptionsFactory.java:28-41 | full options with search and query unchanged, paginated iff the request is paged, sorted iff its sort is |
| OmniSearchOptionsFactory.CreateBase | spring-data-crud-core/src/main/java/com/peluware/springframework/crud/core/OmniSearchOptionsFactory.java:50-54 | base options carrying only the search and the query |
| OmniSearchOptionsFactory.FromOrders | spring-data-crud-mongo/src/main/java/com/peluware/springframework/crud/mongo/MongoTemplateOmniSearch.java:81-86 | the inverse mapping of orders, order by order, on the same property and direction, each built by `Sort.Order.asc` or `desc` and so case-sensitive with native null handling |
| OmniSearchOptionsFactory.OrdersRoundTrip | spring-data-crud-core/src/main/java/com/peluware/springframework/crud/core/OmniSearchOptionsFactory.java:38-40 | mapping the orders and back keeps every property and direction in sequence, but resets `ignoreCase` and `nullHandling` to the defaults |
| OmniSearchOptionsFactory.OrdersRoundTripExact | spring-data-crud-core/src/main/java/com/peluware/springframework/crud/core/OmniSearchOptionsFactory.java:38-40 | the round trip gives the orders back exactly when none ignores case or asks for a null placement |
| OmniSearchOptionsFactory.CreateRoundTrip | spring-data-crud-core/src/main/java/com/peluware/springframework/crud/core/OmniSearchOptionsFactory.java:28-41 | the options built from a paging request determine that request (page, size, sort properties, directions and order) up to the order flags, and the whole request exactly when its orders have default flags |
| OmniSearchOptionsFactory.SortIndependentOfPaging | spring-data-crud-core/src/main/java/com/peluware/springframework/crud/core/OmniSearchOptionsFactory.java:29-40 | an unpaged request still carries its sort, the same one a paged request with that sort carries |
| StandardReadService.InternalPage | spring-data-crud-core/src/main/java/com/peluware/springframework/crud/core/StandardReadService.java:42-44 | the repository's exception iff it throws; otherwise the requested window of the stored rows, with the row count as total |
| StandardReadService.InternalFind | spring-data-crud-core/src/main/java/com/peluware/springframework/crud/core/StandardReadService.java:50-54 | the repository's exception iff it throws; otherwise the stored entity iff the id is stored, and NotFoundEntityException(entity class, id) if not |
| StandardReadService.InternalFindAll | spring-data-crud-core/src/main/java/com/peluware/springframework/crud/core/StandardReadService.java:60-62 | the repository's exception iff it throws; otherwise exactly the requested entities that internalFind would find |
| StandardReadService.InternalCount | spring-data-crud-core/src/main/java/com/peluware/springframework/crud/core/StandardReadService.java:68-70 | the repository's exception iff it throws; otherwise the number of stored rows |
| StandardReadService.InternalExists | spring-data-crud-core/src/main/java/com/peluware/springframework/crud/core/StandardReadService.java:76-78 | the repository's exception iff it throws; otherwise true iff internalFind of the id succeeds |
| StandardReadService.InternalSearch | spring-data-crud-core/src/main/java/com/peluware/springframework/crud/core/StandardReadService.java:92-101 | one options value; the engine's exception for it iff there is one; otherwise content from the engine's search and, when getPage needs it, total from its count, both over that value |
| StandardReadService.InternalSearchText | spring-data-crud-core/src/main/java/com/peluware/springframework/crud/core/StandardReadService.java:84-86 | the three-argument search with a null query: the same failure, content, pageable and total over the options with no query |
| StandardReadService.InternalCountQuery | spring-data-crud-core/src/main/java/com/peluware/springframework/crud/core/StandardReadService.java:115-119 | the engine's exception for base options built from exactly (search, query) iff there is one; otherwise its count over them |
| StandardReadService.InternalCountText | spring-data-crud-core/src/main/java/com/peluware/springframework/crud/core/StandardReadService.java:107-109 | the two-argument count with a null query: the same failure or count over base options with no query |
| StandardReadService.SearchPageTotal | spring-data-crud-core/src/main/java/com/peluware/springframework/crud/core/StandardReadService.java:96-100 | with an engine whose count agrees with its matches, a search page that is returned reports the number of matches as total |
| JpaSpecificationReadService.Selected | spring-data-crud-jpa/src/main/java/com/peluware/springframework/crud/jpa/JpaSpecificationReadService.java:52 | the stored rows the combined specification matches, no others |
| JpaSpecificationReadService.BuildError | spring-data-crud-jpa/src/main/java/com/peluware/springframework/crud/jpa/JpaSpecificationReadService.java:78 | building a specification: `root.get` of a name that is not the entity's identifier attribute throws IllegalArgumentException naming it; the engine's predicate throws its own exception; match-all never throws |
| JpaSpecificationReadService.Query | spring-data-crud-jpa/src/main/java/com/peluware/springframework/crud/jpa/JpaSpecificationReadService.java:79 | running a combined specification: the build exception, then the repository's, and otherwise exactly the selected rows |
| JpaSpecificationReadService.FindAllPaged | spring-data-crud-jpa/src/main/java/com/peluware/springframework/crud/jpa/JpaSpecificationReadService.java:52 | findAll(spec, pageable): the query's exception iff it fails; otherwise the window of the matches, their number as total |
| JpaSpecificationReadService.InternalFind | spring-data-crud-jpa/src/main/java/com/peluware/springframework/crud/jpa/JpaSpecificationReadService.java:77-80 | a failing query's exception escapes; otherwise succeeds iff exactly one row matches (and returns it), NotFoundEntityException(entity class, id) iff none, and more than one throws |
| JpaSpecificationReadService.InternalPage | spring-data-crud-jpa/src/main/java/com/peluware/springframework/crud/jpa/JpaSpecificationReadService.java:50-53 | page fails iff the repository does, with its exception; otherwise the requested window of the rows the PAGE-tagged match-all selects, with their number as total |
| JpaSpecificationReadService.InternalSearch | spring-data-crud-jpa/src/main/java/com/peluware/springframework/crud/jpa/JpaSpecificationReadService.java:67-71 | the engine's exception for the options, then the repository's, iff either throws; otherwise the window of the rows its predicate (tagged PAGE) selects, with their number as total |
| JpaSpecificationReadService.InternalSearchText | spring-data-crud-jpa/src/main/java/com/peluware/springframework/crud/jpa/JpaSpecificationReadService.java:59-61 | as InternalSearch with a null query: the engine's or repository's exception, otherwise the window and total of the selection |
| JpaSpecificationReadService.InternalFindAll | spring-data-crud-jpa/src/main/java/com/peluware/springframework/crud/jpa/JpaSpecificationReadService.java:86-89 | IllegalArgumentException naming the id property when it is not the identifier attribute, else the repository's exception; otherwise exactly the selected rows, which under the default combiner are the stored rows whose id is requested |
| JpaSpecificationReadService.InternalCount | spring-data-crud-jpa/src/main/java/com/peluware/springframework/crud/jpa/JpaSpecificationReadService.java:95-98 | the repository's exception iff it throws; otherwise the number of rows the COUNT-tagged match-all selects |
| JpaSpecificationReadService.InternalCountQuery | spring-data-crud-jpa/src/main/java/com/peluware/springframework/crud/jpa/JpaSpecificationReadService.java:112-116 | the engine's exception for the base options, then the repository's; otherwise the number of rows its predicate (tagged COUNT) selects |
| JpaSpecificationReadService.InternalCountText | spring-data-crud-jpa/src/main/java/com/peluware/springframework/crud/jpa/JpaSpecificationReadService.java:104-106 | as InternalCountQuery with a null query |
| JpaSpecificationReadService.InternalExists | spring-data-crud-jpa/src/main/java/com/peluware/springframework/crud/jpa/JpaSpecificationReadService.java:122-125 | IllegalArgumentException for an unknown id property, else the repository's exception; otherwise true iff the EXISTS-tagged id equality selects a row, which under the default combiner is iff the id is stored |
| JpaSpecificationReadService.OperationTags | spring-data-crud-jpa/src/main/java/com/peluware/springframework/crud/jpa/JpaSpecificationReadService.java:49-125 | each specification goes to combineSpecification tagged with its operation (PAGE, FIND, COUNT, EXISTS); page and count match all; find and exists share the id equality; the shorter overloads pass a null query |
| JpaSpecificationReadService.ExistsAgreesWithFind | spring-data-crud-jpa/src/main/java/com/peluware/springframework/crud/jpa/JpaSpecificationReadService.java:122-125 | with a combiner that treats FIND and EXISTS alike, exists(id) fails iff find(id)'s query fails, with the same exception; otherwise it is true iff the id equality matches something, and false iff find throws NotFoundEntityException |
| JpaSpecificationReadService.UnknownIdField | spring-data-crud-jpa/src/main/java/com/peluware/springframework/crud/jpa/JpaSpecificationReadService.java:78-88 | an id property name that is not the entity's identifier attribute makes find(id), find(ids) and exists(id) throw IllegalArgumentException naming it |
| JpaSpecificationReadService.DefaultIdFieldResolves | spring-data-crud-jpa/src/main/java/com/peluware/springframework/crud/jpa/JpaSpecificationReadService.java:127-129 | with the default `getIdFieldName()` ("id") the id equality builds iff the identifier attribute is called "id" |
| JpaSpecificationReadService.PageAndCountAgree | spring-data-crud-jpa/src/main/java/com/peluware/springframework/crud/jpa/JpaSpecificationReadService.java:95-98 | under the plain configuration (default combiner, id property naming the identifier attribute, working store), the page is the repository's findAll(pageable) and the count its count() |
| JpaSpecificationReadService.FindAllAgrees | spring-data-crud-jpa/src/main/java/com/peluware/springframework/crud/jpa/JpaSpecificationReadService.java:86-89 | under the plain configuration (default combiner, id property naming the identifier attribute, working store), find(ids) is the repository's findAllById(ids) |
| JpaSpecificationReadService.FindSpecMatches | spring-data-crud-jpa/src/main/java/com/peluware/springframework/crud/jpa/JpaSpecificationReadService.java:78 | under the plain configuration (default combiner, id property naming the identifier attribute, working store), the id equality matches exactly the entities with that id |
| JpaSpecificationReadService.FindSelectsById | spring-data-crud-jpa/src/main/java/com/peluware/springframework/crud/jpa/JpaSpecificationReadService.java:77-80 | under the plain configuration (default combiner, id property naming the identifier attribute, working store), the id equality selects at most one stored row, the one with that id |
| JpaSpecificationReadService.FindMatchesOne | spring-data-crud-jpa/src/main/java/com/peluware/springframework/crud/jpa/JpaSpecificationReadService.java:77-80 | under the plain configuration (default combiner, id property naming the identifier attribute, working store), the matches are the stored row for the id or nothing |
| JpaSpecificationReadService.FindAndExistsAgree | spring-data-crud-jpa/src/main/java/com/peluware/springframework/crud/jpa/JpaSpecificationReadService.java:77-80 | under the plain configuration (default combiner, id property naming the identifier attribute, working store), find(id) and exists(id) answer as the repository's findById and existsById |
| ReadService.ResolvePage | spring-data-crud-core/src/main/java/com/peluware/springframework/crud/core/ReadService.java:209-218 | a query selects the combined search; otherwise a null or blank search selects the plain page and any other the text search with that search |
| ReadService.ResolveCount | spring-data-crud-core/src/main/java/com/peluware/springframework/crud/core/ReadService.java:227-236 | the same three-way precedence as resolvePage, over the count operations |
| ReadService.AfterHookOutcome | spring-data-crud-core/src/main/java/com/peluware/springframework/crud/core/ReadService.java:51-52 | the operation returns the value unless the hook throws, and then fails with the hook's exception |
| ReadService.Paginate | spring-data-crud-core/src/main/java/com/peluware/springframework/crud/core/ReadService.java:44-53 | PAGE pre-step first; when denied nothing else runs; otherwise the normalised search is dispatched; an exception from it escapes before onPage; otherwise onPage sees the page, and the page is returned |
| ReadService.Find | spring-data-crud-core/src/main/java/com/peluware/springframework/crud/core/ReadService.java:62-70 | FIND pre-step first; internalFind; its exception (NotFoundEntityException or any other) escapes before onFind; otherwise onFind sees the entity and it is returned |
| ReadService.FindAll | spring-data-crud-core/src/main/java/com/peluware/springframework/crud/core/ReadService.java:78-86 | FIND pre-step first; internalFind(ids); its exception escapes before the hook; otherwise onFind sees the list and the ids, and the list is returned |
| ReadService.Count | spring-data-crud-core/src/main/java/com/peluware/springframework/crud/core/ReadService.java:95-103 | COUNT pre-step first; the raw search is dispatched; its exception escapes before onCount; otherwise onCount sees the count and the count is returned |
| ReadService.Exists | spring-data-crud-core/src/main/java/com/peluware/springframework/crud/core/ReadService.java:111-119 | EXISTS pre-step first; internalExists; its exception escapes before onExists; otherwise onExists sees the answer and the id, and the answer is returned |
| ReadService.PageDispatch | spring-data-crud-core/src/main/java/com/peluware/springframework/crud/core/ReadService.java:209-218 | page calls internalPage iff no query and the normalised search is blank, the text search with the trimmed search otherwise, and the combined search with the normalised search (null when blank) when there is a query |
| ReadService.PageSearchesVisibleText | spring-data-crud-core/src/main/java/com/peluware/springframework/crud/core/ReadService.java:214 | a search with a visible character makes page run the text search on its trim |
| ReadService.CountDispatch | spring-data-crud-core/src/main/java/com/peluware/springframework/crud/core/ReadService.java:227-235 | count dispatches like page but on the search as given |
| ReadService.PageAndCountDiverge | spring-data-crud-core/src/main/java/com/peluware/springframework/crud/core/ReadService.java:47-98 | for "\0" page reads a plain page while count runs a text count, and for " a " page searches "a" while count counts " a " |
| ReadService.DeniedRunsNothing | spring-data-crud-core/src/main/java/com/peluware/springframework/crud/core/ReadService.java:44-119 | a denied operation fails with AccessDenied and records only its pre-step, with its own tag |
| ReadService.DefaultHooksNeverFail | spring-data-crud-core/src/main/java/com/peluware/springframework/crud/core/ReadService.java:32-34 | with the shared no-op hooks and no authorisation, each operation returns exactly its internal call's result, value or exception |
| ReadService.PageFailureSkipsHook | spring-data-crud-core/src/main/java/com/peluware/springframework/crud/core/ReadService.java:44-53 | a page operation that throws makes page throw the same exception, and no hook runs |
| ReadService.FindFailureSkipsHook | spring-data-crud-core/src/main/java/com/peluware/springframework/crud/core/ReadService.java:62-70 | a lookup that throws makes find(id) throw the same exception, and no hook runs |
| ReadService.FindAllFailureSkipsHook | spring-data-crud-core/src/main/java/com/peluware/springframework/crud/core/ReadService.java:78-86 | a lookup that throws makes find(ids) throw the same exception, and no hook runs |
| ReadService.CountFailureSkipsHook | spring-data-crud-core/src/main/java/com/peluware/springframework/crud/core/ReadService.java:95-103 | a count operation that throws makes count throw the same exception, and no hook runs |
| ReadService.ExistsFailureSkipsHook | spring-data-crud-core/src/main/java/com/peluware/springframework/crud/core/ReadService.java:111-119 | a check that throws makes exists throw the same exception, and no hook runs |
| ReadService.FindMissing | spring-data-crud-core/src/main/java/com/peluware/springframework/crud/core/ReadService.java:62-69 | on a standard service whose store works, find of a missing id fails with NotFoundEntityException and onFind never runs |
| ReadService.ExistsMatchesFind | spring-data-crud-core/src/main/java/com/peluware/springframework/crud/core/ReadService.java:111-119 | on either backend (JPA under the plain configuration), exists(id) fails only with the exception find(id) fails with, and otherwise is true iff find(id) gets past its lookup |
| WriteService.Persisted | spring-data-crud-core/src/main/java/com/peluware/springframework/crud/core/WriteService.java:151-165 | internalCreate stores a new row under the next id and gives the entity that id; internalUpdate overwrites the row; internalDelete removes it |
| WriteServiceProperties.CallbackShape | spring-data-crud-core/src/main/java/com/peluware/springframework/crud/core/WriteService.java:54-59 | from whichever step it starts at, the callback runs mapModel, the before hook, the repository call and the after hook in that order, stops at the first exception, and never marks the status rollback-only or opens a transaction |
| WriteServiceProperties.CallbackSaves | spring-data-crud-core/src/main/java/com/peluware/springframework/crud/core/WriteService.java:55-57 | a callback that returns has handed the repository the entity as mapModel left it, and ends with the table and entity that repository call produced |
| WriteServiceProperties.EncloseShape | spring-data-crud-core/src/main/java/com/peluware/springframework/crud/core/WriteService.java:53-64 | around a callback run, execute records no step of its own and exactly one rollback-only mark when the callback threw |
| WriteServiceProperties.TransactionShape | spring-data-crud-core/src/main/java/com/peluware/springframework/crud/core/WriteService.java:53-64 | execute adds only transaction events around the callback; an exception escapes unchanged, marks the status rollback-only exactly once and, with a transaction manager, restores the rows while the identifier generator keeps its advance; success commits and keeps what the callback wrote |
| WriteService.EntityObject.constructor | spring-data-crud-core/src/main/java/com/peluware/springframework/crud/core/WriteService.java:122-124 | a new entity object holds the given data (newEntity gives no id and no fields) |
| WriteService.WriteService.PreProcessStep | spring-data-crud-core/src/main/java/com/peluware/springframework/crud/core/WriteService.java:47 | the pre-step's outcome, recorded |
| WriteService.WriteService.NewEntityStep | spring-data-crud-core/src/main/java/com/peluware/springframework/crud/core/WriteService.java:122-124 | a fresh entity object with no id and no fields, recorded |
| WriteService.Found | spring-data-crud-core/src/main/java/com/peluware/springframework/crud/core/WriteService.java:135 | the write side's `internalFind(id)`: the read backend's exception escapes; otherwise the stored row iff the id is stored, else NotFoundEntityException(entity class, id) |
| WriteServiceProperties.FoundIsStandardFind | spring-data-crud-core/src/main/java/com/peluware/springframework/crud/core/StandardCrudService.java:36-38 | over the standard backend's table and with its repository exception, the write-side lookup finds the same row and throws the same exception as that backend's internalFind(id) |
| WriteServiceProperties.FoundIsPlainJpaFind | spring-data-crud-jpa/src/main/java/com/peluware/springframework/crud/jpa/JpaSpecificationCrudService.java:28-30 | over a JPA backend under the plain configuration, the write-side lookup finds the same row and throws the same exception as that backend's internalFind(id) |
| WriteService.WriteService.LookupStep | spring-data-crud-core/src/main/java/com/peluware/springframework/crud/core/WriteService.java:79 | a fresh object holding the stored row iff the read backend does not throw and the id is stored; otherwise the backend's exception, or NotFoundEntityException(entity class, id) |
| WriteService.WriteService.MapModelStep | spring-data-crud-core/src/main/java/com/peluware/springframework/crud/core/WriteService.java:55 | the entity's fields become what mapModel makes of the DTO, or stay as they were when mapModel throws |
| WriteService.WriteService.HookStep | spring-data-crud-core/src/main/java/com/peluware/springframework/crud/core/WriteService.java:56-58 | the hook sees the entity as it is at that point, and its exception is returned |
| WriteService.WriteService.PersistStep | spring-data-crud-core/src/main/java/com/peluware/springframework/crud/core/WriteService.java:57 | the repository call changes the table and entity as Persisted says, or nothing when it throws |
| WriteService.WriteService.AfterHookStage | spring-data-crud-core/src/main/java/com/peluware/springframework/crud/core/WriteService.java:58 | the after hook runs on the entity as saved, and its exception is returned |
| WriteService.WriteService.PersistStage | spring-data-crud-core/src/main/java/com/peluware/springframework/crud/core/WriteService.java:57-58 | the repository call and then the after hook, the events, table and entity ending as Callback from the repository step says |
| WriteService.WriteService.BeforeHookStage | spring-data-crud-core/src/main/java/com/peluware/springframework/crud/core/WriteService.java:56-58 | the before hook, the repository call and the after hook, ending as Callback from the before-hook step says |
| WriteService.WriteService.BodyStage | spring-data-crud-core/src/main/java/com/peluware/springframework/crud/core/WriteService.java:54-59 | the whole callback of create and update, ending as Callback from mapModel says |
| WriteService.WriteService.Execute | spring-data-crud-core/src/main/java/com/peluware/springframework/crud/core/WriteService.java:53-64 | the table, entity, rollback-only flag and events end as Transaction says |
| WriteService.WriteService.Create | spring-data-crud-core/src/main/java/com/peluware/springframework/crud/core/WriteService.java:46-65 | the table, flag and events end as CreateRun says; the returned object is the one newEntity made, with the data the run left |
| WriteService.WriteService.Update | spring-data-crud-core/src/main/java/com/peluware/springframework/crud/core/WriteService.java:76-95 | as UpdateRun says; the returned object is the one the lookup found |
| WriteService.WriteService.Delete | spring-data-crud-core/src/main/java/com/peluware/springframework/crud/core/WriteService.java:104-113 | as DeleteRun says; the rollback-only flag is untouched |
| WriteServiceProperties.CreateOrder | spring-data-crud-core/src/main/java/com/peluware/springframework/crud/core/WriteService.java:46-63 | create records pre-step, new entity, mapModel, before hook, save, after hook, in that order, stops at the first exception, and marks rollback-only exactly once iff it fails inside the callback |
| WriteServiceProperties.CreateSaves | spring-data-crud-core/src/main/java/com/peluware/springframework/crud/core/WriteService.java:49-59 | a create that returns has added exactly one row under the next id, holding what mapModel made; findById reads it back |
| WriteServiceProperties.CreateRollsBack | spring-data-crud-core/src/main/java/com/peluware/springframework/crud/core/WriteService.java:60-63 | with a transaction manager a failing create leaves the rows as they were and never takes an identifier back; a mapModel failure fails with that very exception |
| WriteServiceProperties.CreateRollbackKeepsIdentifier | spring-data-crud-core/src/main/java/com/peluware/springframework/crud/core/WriteService.java:53-63 | with a transaction manager, when only the after-create hook throws, the new row is rolled back but its identifier stays used |
| WriteServiceProperties.CreateWithoutTransactionKeepsRow | spring-data-crud-core/src/main/java/com/peluware/springframework/crud/core/WriteService.java:53-63 | without a transaction manager, an after-create hook failure leaves the saved row in place |
| WriteServiceProperties.UpdateOrder | spring-data-crud-core/src/main/java/com/peluware/springframework/crud/core/WriteService.java:76-93 | update records pre-step and lookup before the callback, then the same steps as create, stops at the first exception and marks rollback-only once iff the callback fails; the transaction runs iff the pre-step passes and the lookup finds the row |
| WriteServiceProperties.UpdateMissing | spring-data-crud-core/src/main/java/com/peluware/springframework/crud/core/WriteService.java:79-83 | a lookup that throws makes update throw that exception after pre-step and lookup only (no transaction, no mapModel, no hook, no change); with a backend that does not throw it is NotFoundEntityException for a missing id |
| WriteServiceProperties.UpdateSaves | spring-data-crud-core/src/main/java/com/peluware/springframework/crud/core/WriteService.java:85-89 | an update that returns found the row (the lookup did not throw) and has overwritten it with what mapModel made of it |
| WriteServiceProperties.UpdateRollsBack | spring-data-crud-core/src/main/java/com/peluware/springframework/crud/core/WriteService.java:90-93 | with a transaction manager a failing update leaves the table as it was |
| WriteServiceProperties.DeleteOrder | spring-data-crud-core/src/main/java/com/peluware/springframework/crud/core/WriteService.java:104-113 | delete records pre-step, lookup, before hook, delete, after hook, in order, stops at the first exception, never marks rollback-only and opens no transaction |
| WriteServiceProperties.DeleteMissing | spring-data-crud-core/src/main/java/com/peluware/springframework/crud/core/WriteService.java:107-111 | a lookup that throws makes delete throw that exception before either hook or the delete runs; with a backend that does not throw it is NotFoundEntityException for a missing id |
| WriteServiceProperties.DeleteRemoves | spring-data-crud-core/src/main/java/com/peluware/springframework/crud/core/WriteService.java:110-112 | a delete that returns found the row (the lookup did not throw) and has removed exactly that row |
| WriteServiceProperties.DeleteWithoutTransactionKeepsRemoval | spring-data-crud-core/src/main/java/com/peluware/springframework/crud/core/WriteService.java:104-113 | an after-delete hook failure does not bring the row back |
| WriteServiceProperties.CallbackNeverFails | spring-data-crud-core/src/main/java/com/peluware/springframework/crud/core/WriteService.java:53-63 | with the default hooks, a mapModel that never throws and a repository that never fails, the callback throws nothing from whichever step it starts |
| WriteServiceProperties.DefaultHooksNeverFail | spring-data-crud-core/src/main/java/com/peluware/springframework/crud/core/WriteService.java:35-37 | with `WriteHooks.getDefault()`, no authorisation, a mapModel that never throws and a working repository, create always succeeds and commits, and update and delete succeed iff their lookup finds the row |
| WriteServiceProperties.DeniedWritesNothing | spring-data-crud-core/src/main/java/com/peluware/springframework/crud/core/WriteService.java:46-113 | a denied create, update or delete fails with AccessDenied, records only its pre-step and leaves the table alone |
| MongoTemplateOmniSearch.Query.constructor | spring-data-crud-mongo/src/main/java/com/peluware/springframework/crud/mongo/MongoTemplateOmniSearch.java:69 | a new query holds the filter, unsorted, with no limit and no skip |
| MongoTemplateOmniSearch.Query.With | spring-data-crud-mongo/src/main/java/com/peluware/springframework/crud/mongo/MongoTemplateOmniSearch.java:54 | an unsorted argument changes nothing; a sorted one is appended to the sort; filter, limit and skip are unchanged |
| MongoTemplateOmniSearch.Query.Limit | spring-data-crud-mongo/src/main/java/com/peluware/springframework/crud/mongo/MongoTemplateOmniSearch.java:60 | only the limit changes |
| MongoTemplateOmniSearch.Query.Skip | spring-data-crud-mongo/src/main/java/com/peluware/springframework/crud/mongo/MongoTemplateOmniSearch.java:61 | only the skip changes |
| MongoTemplateOmniSearch.BuildSort | spring-data-crud-mongo/src/main/java/com/peluware/springframework/crud/mongo/MongoTemplateOmniSearch.java:81-86 | one Spring order per OmniSearch order, in sequence, same property, ascending iff the order is, case-sensitive with native null handling |
| MongoTemplateOmniSearch.CountQuery | spring-data-crud-mongo/src/main/java/com/peluware/springframework/crud/mongo/MongoTemplateOmniSearch.java:67-79 | the count query is the filter OmniSearch builds from the search and the query, with no sort, limit or skip |
| MongoTemplateOmniSearch.SearchQuery | spring-data-crud-mongo/src/main/java/com/peluware/springframework/crud/mongo/MongoTemplateOmniSearch.java:49-65 | the same filter as the count query; sorted iff the options are, with buildSort's sort; limit = size and skip = offset when paginated, neither otherwise |
| MongoTemplateOmniSearch.BuildBaseQuery | spring-data-crud-mongo/src/main/java/com/peluware/springframework/crud/mongo/MongoTemplateOmniSearch.java:67-79 | a fresh query equal to the count query |
| MongoTemplateOmniSearch.BuildQuery | spring-data-crud-mongo/src/main/java/com/peluware/springframework/crud/mongo/MongoTemplateOmniSearch.java:49-65 | a fresh query equal to the search query, built by applying sort, limit and skip in place |
| MongoTemplateOmniSearch.Search | spring-data-crud-mongo/src/main/java/com/peluware/springframework/crud/mongo/MongoTemplateOmniSearch.java:32-38 | null class, then null options, fail with their NullPointerException messages before any query; otherwise the template's find over the search query |
| MongoTemplateOmniSearch.Count | spring-data-crud-mongo/src/main/java/com/peluware/springframework/crud/mongo/MongoTemplateOmniSearch.java:41-47 | the same null checks; otherwise the template's count over the count query |
| MongoTemplateOmniSearch.CountIgnoresPaging | spring-data-crud-mongo/src/main/java/com/peluware/springframework/crud/mongo/MongoTemplateOmniSearch.java:67-79 | full options count exactly what their base options (same search and query) count |
| MongoTemplateOmniSearch.SearchRefinesCount | spring-data-crud-mongo/src/main/java/com/peluware/springframework/crud/mongo/MongoTemplateOmniSearch.java:49-79 | search and count share the filter, and without paging or sorting run the same query |
| MongoTemplateOmniSearch.SearchQueryOfPageable | spring-data-crud-mongo/src/main/java/com/peluware/springframework/crud/mongo/MongoTemplateOmniSearch.java:49-65 | the search query of options made from a Spring request carries that request's sort properties, directions and sequence with each order's flags reset to the defaults, and its page window; the sort is the request's own iff no order ignores case or places nulls |
| ResponseEntityUtils.Utf8Char | spring-data-crud-core/src/main/java/com/peluware/springframework/crud/core/utils/ResponseEntityUtils.java:33 | the UTF-8 encoding of one character: one byte iff ASCII, continuation bytes in 0x80..0xBF |
| ResponseEntityUtils.PercentEncode | spring-data-crud-core/src/main/java/com/peluware/springframework/crud/core/utils/ResponseEntityUtils.java:33 | three ASCII characters per byte, none of them `+` |
| ResponseEntityUtils.UrlEncode | spring-data-crud-core/src/main/java/com/peluware/springframework/crud/core/utils/ResponseEntityUtils.java:33 | the URL-encoded name is all ASCII |
| ResponseEntityUtils.ReplacePlus | spring-data-crud-core/src/main/java/com/peluware/springframework/crud/core/utils/ResponseEntityUtils.java:33 | the result holds no `+` |
| ResponseEntityUtils.EncodedFilename | spring-data-crud-core/src/main/java/com/peluware/springframework/crud/core/utils/ResponseEntityUtils.java:33 | the extended file name is ASCII and holds no `+` |
| ResponseEntityUtils.DecodeRoundTrip | spring-data-crud-core/src/main/java/com/peluware/springframework/crud/core/utils/ResponseEntityUtils.java:33 | percent-decoding the encoded name gives back the UTF-8 bytes of the name |
| ResponseEntityUtils.EncodedFilenameDecodes | spring-data-crud-core/src/main/java/com/peluware/springframework/crud/core/utils/ResponseEntityUtils.java:33 | the extended file name has no `+` and decodes to the UTF-8 bytes of the file name |
| ResponseEntityUtils.Disposition | spring-data-crud-core/src/main/java/com/peluware/springframework/crud/core/utils/ResponseEntityUtils.java:35 | the type is "inline" iff inline, "attachment" iff not |
| ResponseEntityUtils.HeaderValue | spring-data-crud-core/src/main/java/com/peluware/springframework/crud/core/utils/ResponseEntityUtils.java:32-35 | fails iff the name is null (from toASCII); otherwise disposition + `; filename="` + the ASCII name + `"; filename*=UTF-8''` + the encoded name |
| ResponseEntityUtils.HeadersForFile | spring-data-crud-core/src/main/java/com/peluware/springframework/crud/core/utils/ResponseEntityUtils.java:31-42 | exactly two headers: Content-Disposition with the header value, and Access-Control-Expose-Headers naming Content-Disposition |
| ResponseEntityUtils.Resource | spring-data-crud-core/src/main/java/com/peluware/springframework/crud/core/utils/ResponseEntityUtils.java:19-25 | status 200, body exactly the content, Content-Type the media type, plus the two file headers; fails iff the name is null |
| ResponseEntityUtils.Download | spring-data-crud-core/src/main/java/com/peluware/springframework/crud/core/utils/ResponseEntityUtils.java:27-29 | the four-argument resource with inline = false: an attachment |
| ResponseEntityUtils.HeaderValueParts | spring-data-crud-core/src/main/java/com/peluware/springframework/crud/core/utils/ResponseEntityUtils.java:32-35 | the value starts with "inline" iff inline; the quoted name is all ASCII; the extended name decodes to the name's UTF-8 bytes |
| ResponseEntityUtils.StarLeftInExtValue | spring-data-crud-core/src/main/java/com/peluware/springframework/crud/core/utils/ResponseEntityUtils.java:33 | as written, "a*b" is encoded as "a*b", which is not value-chars under RFC 8187 |
| ResponseEntityUtils.ExtValue | spring-data-crud-core/src/main/java/com/peluware/springframework/crud/core/utils/ResponseEntityUtils.java:33 | the corrected extended value: value-chars for every name, and it decodes to the name's UTF-8 bytes |
| ResponseEntityUtils.QuoteLeftInFilename | spring-data-crud-core/src/main/java/com/peluware/springframework/crud/core/utils/ResponseEntityUtils.java:32-35 | as written, the name `a"b` reaches the quotes as `a"b`, which is not the inside of a quoted-string |
| ResponseEntityUtils.QuoteFilename | spring-data-crud-core/src/main/java/com/peluware/springframework/crud/core/utils/ResponseEntityUtils.java:35 | the corrected quoted name: always the inside of a quoted-string, and unquoting it gives the name back when every character can be carried |

## Left out

- Controllers, auto-configuration, Bean Validation annotations, export and the wiring classes are not modelled. They only delegate or configure.
- RSQL parsing, OmniSearch predicate and filter building, the JPA Criteria API and BSON encoding are parameters. The OmniSearch engine is a pair of functions; the JPA predicate for options is an entity predicate; the Mongo filter builder is a function of the entity class, search text and query.
- MongoTemplateOmniSearch.CountQuery: the filter builder is assumed to read only the search text and the query of the options, as its `OmniSearchBaseOptions` parameter type suggests. The pagination offset is taken to be `number * size`.
- StringUtils.ToAscii: canonical decomposition (NFD) comes from `java.text.Normalizer`, which is not part of this model. It is the parameter `nfd`, and only properties that hold for every decomposition are proved.
- ResponseEntityUtils.UrlEncode: Dafny characters are Unicode scalar values, so Java strings with unpaired surrogates (which `URLEncoder` replaces) are not represented.
- ResponseEntityUtils.Resource: a null content or media type is not modelled. The media type is a string, and header names are compared exactly rather than case-insensitively.
- Repository.FindAll and JpaSpecificationReadService.FindAllPaged: the in-memory repository lists rows in identifier order and ignores the sort of a paging request.
- OmniSearchOptionsFactory.OrdersRoundTrip: the `ignoreCase` and `nullHandling` of Spring orders are dropped by the mapping to OmniSearch orders, so the round trip is exact only for orders with the default flags; a case-insensitive Spring sort reaches Mongo as a case-sensitive one.
- JpaSpecificationReadService.BuildError: `root.get` is modelled only for the entity's identifier attribute and for names the entity lacks. An id property naming some other existing attribute, compared with the id value, is not modelled. The provider's IllegalArgumentException message is reduced to the attribute's name.
- JpaSpecificationReadService.Query: a custom `combineSpecification` is taken to build the specification it is given, as `spec.and(...)` does, so that specification's build exception escapes under either combiner. A combiner that discards it is not modelled.
- StandardReadService.Service and JpaSpecificationReadService.Service: a failing data store is one exception that every repository call of the service throws; failures that depend on the call are not modelled. The OmniSearch engine's exception depends only on the options.
- WriteService.Found: the read backend's `internalFind(id)` is a parameter of the write service (`lookupError`), tied to the two backends only by `FoundIsStandardFind` and `FoundIsPlainJpaFind`. When it does not throw it yields the stored row under that identifier; a custom `combineSpecification` whose FIND filter matches a row with another identifier, which the update would then overwrite, is not modelled.
- WriteService.WriteService.MapModelStep: `mapModel` is atomic. It either replaces the fields or throws and leaves them unchanged; partial changes before an exception are not modelled.
- WriteService.WriteService.NewEntityStep: reflective construction always succeeds. A missing no-argument constructor, which `@SneakyThrows` rethrows, is not modelled.
- Hooks are modelled only as recorded events that may throw. Any other side effect of a hook is not modelled.
- The transaction manager is a flag: either there is one (begin, commit, or roll back the rows; the identifier generator is not rolled back) or `withoutTransaction` runs the callback as is. Commit failures, propagation settings and isolation are not modelled.
- A JPA `findOne` that matches more than one row throws Spring's `IncorrectResultSizeDataAccessException`. It is modelled as a generic thrown exception with a fixed message.
- Java `long` counts are unbounded naturals, and concurrency is not modelled.

## Findings

Both rows concern the `Content-Disposition` value built at ResponseEntityUtils.java line 35.
`Resource` keeps the behaviour as written. The corrected definitions are stated and proved
beside it.

| source | as written | input that shows it | evidently intended | confidence | as-written member | corrected member |
|---|---|---|---|---|---|---|
| spring-data-crud-core/src/main/java/com/peluware/springframework/crud/core/utils/ResponseEntityUtils.java:33 | `URLEncoder` leaves `*` unencoded, and `*` is not an attr-char of section 3.2.1 of RFC 8187 | file name `a*b` gives `filename*=UTF-8''a*b` | every character outside attr-char percent-encoded (`%2A`) | not executed; strict parsers reject it, lenient ones accept it | ResponseEntityUtils.StarLeftInExtValue | ResponseEntityUtils.ExtValue |
| spring-data-crud-core/src/main/java/com/peluware/springframework/crud/core/utils/ResponseEntityUtils.java:32, 35 | the ASCII name is put between the quotes unescaped; `toASCII` keeps `"` and `\` | file name `a"b` gives `filename="a"b"` | `"` and `\` escaped as quoted-pairs, control characters dropped (section 5.6.4 of RFC 9110) | not executed | ResponseEntityUtils.QuoteLeftInFilename | ResponseEntityUtils.QuoteFilename |
