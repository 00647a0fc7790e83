/** The read operations of a service backed by a Spring Data repository and an OmniSearch
    engine. */
module StandardReadService {
  import opened Wrappers
  import opened Domain
  import opened Repository
  import OmniSearchOptionsFactory

  /** The OmniSearch engine: the entities matching some options, how many there are, and the
      exception both throw for those options (a selector naming no property, say). It is an
      external library; only what this layer hands it is modelled. */
  datatype OmniSearch = OmniSearch(search: SearchOptions -> seq<Entity>, count: SearchOptions -> nat,
                                   failure: SearchOptions -> Option<Exception>)

  /** A standard read service: the entity class, its repository, the exception every
      repository call throws when the data store fails, and the search engine. */
  datatype Service = Service(entityClass: string, repository: Store, repositoryError: Option<Exception>,
                             omniSearch: OmniSearch) {
    ghost predicate Valid() { repository.Valid() }
  }

  /** `internalPage`: the repository's `findAll(pageable)`. */
  function InternalPage(svc: Service, pageable: Pageable): (r: Result<Page, Exception>)
    requires svc.Valid()
    ensures r.Failure? <==> svc.repositoryError.Some?
    ensures r.Failure? ==> r.error == svc.repositoryError.value
    ensures r.Success? ==> r.value.content == Window(Rows(svc.repository), pageable)
                           && r.value.total == Count(svc.repository)
  {
    FindAllTotal(svc.repository, pageable);
    Throwing(svc.repositoryError, FindAll(svc.repository, pageable))
  }

  /** `internalFind(id)`: the stored entity, or NotFoundEntityException(entity class, id)
      when `findById` finds nothing. */
  function InternalFind(svc: Service, id: Id): (r: Result<Entity, Exception>)
    ensures r.Success? <==> svc.repositoryError.None? && id in svc.repository.rows
    ensures r.Success? ==> r.value == Entity(id, svc.repository.rows[id])
    ensures svc.repositoryError.Some? ==> r == Failure(svc.repositoryError.value)
    ensures svc.repositoryError.None? && r.Failure? ==> r.error == NotFoundEntity(svc.entityClass, id)
  {
    if svc.repositoryError.Some? then Failure(svc.repositoryError.value)
    else
      match FindById(svc.repository, id)
      case Some(e) => Success(e)
      case None => Failure(NotFoundEntity(svc.entityClass, id))
  }

  /** `internalFind(ids)`: the repository's `findAllById`: exactly the requested entities that
      `internalFind(id)` finds. */
  function InternalFindAll(svc: Service, ids: seq<Id>): (r: Result<seq<Entity>, Exception>)
    requires svc.Valid()
    ensures r.Failure? <==> svc.repositoryError.Some?
    ensures r.Failure? ==> r.error == svc.repositoryError.value
    ensures r.Success? ==> forall e :: e in r.value <==> e.id in ids && InternalFind(svc, e.id) == Success(e)
  {
    Throwing(svc.repositoryError, FindAllById(svc.repository, ids))
  }

  /** `internalCount()`: the repository's `count()`. */
  function InternalCount(svc: Service): (r: Result<nat, Exception>)
    ensures r.Failure? <==> svc.repositoryError.Some?
    ensures r.Failure? ==> r.error == svc.repositoryError.value
    ensures r.Success? ==> r.value == |svc.repository.rows|
  {
    Throwing(svc.repositoryError, Count(svc.repository))
  }

  /** `internalExists(id)`: the repository's `existsById`: it fails as the repository does, and
      otherwise answers whether `internalFind(id)` finds the entity. */
  function InternalExists(svc: Service, id: Id): (r: Result<bool, Exception>)
    ensures r.Failure? <==> svc.repositoryError.Some?
    ensures r.Failure? ==> r.error == svc.repositoryError.value
    ensures r.Success? ==> (r.value <==> InternalFind(svc, id).Success?)
  {
    Throwing(svc.repositoryError, ExistsById(svc.repository, id))
  }

  /** The options `internalSearch(search, pageable, query)` builds. */
  function SearchOptionsFor(search: Option<string>, pageable: Pageable, query: Option<Node>): SearchOptions {
    OmniSearchOptionsFactory.Create(search, pageable, query)
  }

  /** `internalSearch(search, pageable, query)`: the content from `omniSearch.search(options)`
      and, when `getPage` needs it, the total from `omniSearch.count(options)`, with one and the
      same options value; the engine's exception for those options escapes. */
  function InternalSearch(svc: Service, search: Option<string>, pageable: Pageable, query: Option<Node>): (r: Result<Page, Exception>)
    ensures var options := SearchOptionsFor(search, pageable, query);
            (r.Failure? <==> svc.omniSearch.failure(options).Some?)
            && (r.Failure? ==> r.error == svc.omniSearch.failure(options).value)
            && (r.Success? ==>
                  r.value.content == svc.omniSearch.search(options) && r.value.pageable == pageable
                  && (NeedsCount(r.value.content, pageable) ==>
                        r.value == PageImpl(r.value.content, pageable, svc.omniSearch.count(options))))
  {
    var options := SearchOptionsFor(search, pageable, query);
    Throwing(svc.omniSearch.failure(options),
             GetPage(svc.omniSearch.search(options), pageable, svc.omniSearch.count(options)))
  }

  /** `internalSearch(search, pageable)`: the three-argument form with a null query. */
  function InternalSearchText(svc: Service, search: Option<string>, pageable: Pageable): (r: Result<Page, Exception>)
    ensures var options := SearchOptionsFor(search, pageable, None);
            (r.Failure? <==> svc.omniSearch.failure(options).Some?)
            && (r.Failure? ==> r.error == svc.omniSearch.failure(options).value)
            && (r.Success? ==>
                  r.value.content == svc.omniSearch.search(options) && r.value.pageable == pageable
                  && (NeedsCount(r.value.content, pageable) ==>
                        r.value == PageImpl(r.value.content, pageable, svc.omniSearch.count(options))))
  {
    InternalSearch(svc, search, pageable, None)
  }

  /** `internalCount(search, query)`: the engine's count over base options built from exactly
      the search and the query; the engine's exception for those options escapes. */
  function InternalCountQuery(svc: Service, search: Option<string>, query: Option<Node>): (r: Result<nat, Exception>)
    ensures r.Failure? <==> svc.omniSearch.failure(BaseOptions(search, query)).Some?
    ensures r.Failure? ==> r.error == svc.omniSearch.failure(BaseOptions(search, query)).value
    ensures r.Success? ==> r.value == svc.omniSearch.count(BaseOptions(search, query))
  {
    var options := OmniSearchOptionsFactory.CreateBase(search, query);
    Throwing(svc.omniSearch.failure(options), svc.omniSearch.count(options))
  }

  /** `internalCount(search)`: the two-argument form with a null query. */
  function InternalCountText(svc: Service, search: Option<string>): (r: Result<nat, Exception>)
    ensures r.Failure? <==> svc.omniSearch.failure(BaseOptions(search, None)).Some?
    ensures r.Failure? ==> r.error == svc.omniSearch.failure(BaseOptions(search, None)).value
    ensures r.Success? ==> r.value == svc.omniSearch.count(BaseOptions(search, None))
  {
    InternalCountQuery(svc, search, None)
  }

  /** The engine answers `options` consistently with the list `all` of matching entities: the
      search returns the requested window of it, and the count its size. */
  ghost predicate Consistent(engine: OmniSearch, options: SearchOptions, pageable: Pageable, all: seq<Entity>) {
    engine.search(options) == Window(all, pageable) && engine.count(options) == |all|
  }

  /** With a consistent engine, a search page reports the number of matches as its total,
      whether or not `getPage` asked the engine to count. */
  lemma SearchPageTotal(svc: Service, search: Option<string>, pageable: Pageable, query: Option<Node>, all: seq<Entity>)
    requires Consistent(svc.omniSearch, SearchOptionsFor(search, pageable, query), pageable, all)
    ensures InternalSearch(svc, search, pageable, query).Success? ==>
              InternalSearch(svc, search, pageable, query).value.total == |all|
  {
    WindowedPageTotal(all, pageable);
  }
}
