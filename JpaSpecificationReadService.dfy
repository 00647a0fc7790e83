/** The read operations of a JPA service that builds a Specification per operation, passes
    it through `combineSpecification` with the operation's tag, and runs it on the repository. */
module JpaSpecificationReadService {
  import opened Wrappers
  import opened Domain
  import opened CrudOperation
  import opened Repository
  import OmniSearchOptionsFactory

  /** The Specifications this service builds. */
  datatype Specification =
    | MatchAll                                      // (root, query, cb) -> null
    | AttributeEquals(attribute: string, id: Id)    // cb.equal(root.get(attribute), id)
    | AttributeIn(attribute: string, ids: seq<Id>)  // root.get(attribute).in(ids)
    | OmniPredicate(options: SearchOptions)         // omniSearch.buildPredicate(root, cb, options)

  /** What is handed to `combineSpecification`: a specification and an operation tag. */
  datatype Tagged = Tagged(spec: Specification, operation: CrudOperation)

  /** `combineSpecification`: the default one returns the specification unchanged; a custom
      one yields any specification, given here by which entities it matches. */
  datatype Combiner = DefaultCombiner | CustomCombiner(matches: (Tagged, Entity) -> bool)

  /** The service: entity class, the name of the entity's identifier attribute in the JPA
      metamodel, the repository and the exception every repository call throws when the data
      store fails, the id property name `getIdFieldName()` returns, the predicate the
      OmniSearch engine builds for some options and the exception it throws for them (an
      external library), and the combiner. */
  datatype Service = Service(entityClass: string, idAttribute: string,
                             repository: Store, repositoryError: Option<Exception>,
                             idFieldName: string,
                             omniPredicate: (SearchOptions, Entity) -> bool,
                             omniFailure: SearchOptions -> Option<Exception>,
                             combiner: Combiner) {
    ghost predicate Valid() { repository.Valid() }
  }

  /** `getIdFieldName()` as the interface defines it. */
  const DefaultIdFieldName := "id"

  /** Building a specification's predicate: `root.get(attribute)` of an attribute the entity
      does not have throws IllegalArgumentException (the provider's message is reduced to the
      attribute's name), and the engine may throw for its options. */
  function BuildError(svc: Service, spec: Specification): (r: Option<Exception>)
    ensures (spec.AttributeEquals? || spec.AttributeIn?) ==>
              (r.Some? <==> spec.attribute != svc.idAttribute)
              && (r.Some? ==> r.value == IllegalArgument(spec.attribute))
    ensures spec.MatchAll? ==> r.None?
    ensures spec.OmniPredicate? ==> r == svc.omniFailure(spec.options)
  {
    match spec
    case MatchAll => None
    case AttributeEquals(a, _) => if a == svc.idAttribute then None else Some(IllegalArgument(a))
    case AttributeIn(a, _) => if a == svc.idAttribute then None else Some(IllegalArgument(a))
    case OmniPredicate(options) => svc.omniFailure(options)
  }

  /** Whether a specification matches an entity; an attribute other than the identifier never
      gets this far, because building it fails. */
  function Matches(svc: Service, spec: Specification, e: Entity): bool {
    match spec
    case MatchAll => true
    case AttributeEquals(a, id) => a == svc.idAttribute && e.id == id
    case AttributeIn(a, ids) => a == svc.idAttribute && e.id in ids
    case OmniPredicate(options) => svc.omniPredicate(options, e)
  }

  /** Whether `combineSpecification(spec, operation)` matches an entity. */
  function CombinedMatches(svc: Service, t: Tagged, e: Entity): bool {
    match svc.combiner
    case DefaultCombiner => Matches(svc, t.spec, e)
    case CustomCombiner(m) => m(t, e)
  }

  /** The stored entities the combined specification matches, in identifier order. */
  function Selected(svc: Service, t: Tagged): (r: seq<Entity>)
    requires svc.Valid()
    ensures forall e :: e in r <==> e in Rows(svc.repository) && CombinedMatches(svc, t, e)
  {
    Select(Rows(svc.repository), (e: Entity) => CombinedMatches(svc, t, e))
  }

  /** Running the combined specification on the repository: the given specification's build
      error escapes first (the combined specification builds it), then the repository's, and
      otherwise the selected entities come back. */
  function Query(svc: Service, t: Tagged): (r: Result<seq<Entity>, Exception>)
    requires svc.Valid()
    ensures r.Success? <==> BuildError(svc, t.spec).None? && svc.repositoryError.None?
    ensures r.Success? ==> r.value == Selected(svc, t)
    ensures BuildError(svc, t.spec).Some? ==> r == Failure(BuildError(svc, t.spec).value)
    ensures BuildError(svc, t.spec).None? && svc.repositoryError.Some? ==> r == Failure(svc.repositoryError.value)
  {
    match BuildError(svc, t.spec)
    case Some(ex) => Failure(ex)
    case None => Throwing(svc.repositoryError, Selected(svc, t))
  }

  // ----- the specification each operation hands to combineSpecification -----

  function PageSpec(): Tagged { Tagged(MatchAll, PAGE) }

  function SearchSpec(search: Option<string>, pageable: Pageable, query: Option<Node>): Tagged {
    Tagged(OmniPredicate(OmniSearchOptionsFactory.Create(search, pageable, query)), PAGE)
  }

  function FindSpec(svc: Service, id: Id): Tagged { Tagged(AttributeEquals(svc.idFieldName, id), FIND) }

  function FindAllSpec(svc: Service, ids: seq<Id>): Tagged { Tagged(AttributeIn(svc.idFieldName, ids), FIND) }

  function CountSpec(): Tagged { Tagged(MatchAll, COUNT) }

  function CountQuerySpec(search: Option<string>, query: Option<Node>): Tagged {
    Tagged(OmniPredicate(OmniSearchOptionsFactory.CreateBase(search, query)), COUNT)
  }

  function ExistsSpec(svc: Service, id: Id): Tagged { Tagged(AttributeEquals(svc.idFieldName, id), EXISTS) }

  // ----- the operations -----

  /** The repository's `findAll(spec, pageable)`: the query's failure escapes; otherwise the
      requested window of the matches, with their number as total. */
  function FindAllPaged(svc: Service, t: Tagged, pageable: Pageable): (r: Result<Page, Exception>)
    requires svc.Valid()
    ensures r.Success? <==> Query(svc, t).Success?
    ensures r.Failure? ==> r.error == Query(svc, t).error
    ensures r.Success? ==> r.value.content == Window(Selected(svc, t), pageable)
                           && r.value.total == |Selected(svc, t)|
  {
    match Query(svc, t)
    case Failure(ex) => Failure(ex)
    case Success(all) =>
      WindowedPageTotal(all, pageable);
      Success(GetPage(Window(all, pageable), pageable, |all|))
  }

  /** `internalPage`: a match-all specification tagged PAGE. */
  function InternalPage(svc: Service, pageable: Pageable): (r: Result<Page, Exception>)
    requires svc.Valid()
    ensures r.Success? <==> svc.repositoryError.None?
    ensures r.Failure? ==> r.error == svc.repositoryError.value
    ensures r.Success? ==> r.value.content == Window(Selected(svc, PageSpec()), pageable)
                           && r.value.total == |Selected(svc, PageSpec())|
  {
    FindAllPaged(svc, PageSpec(), pageable)
  }

  /** `internalSearch(search, pageable, query)`: the engine's predicate for the options,
      tagged PAGE. */
  function InternalSearch(svc: Service, search: Option<string>, pageable: Pageable, query: Option<Node>): (r: Result<Page, Exception>)
    requires svc.Valid()
    ensures var failure := svc.omniFailure(OmniSearchOptionsFactory.Create(search, pageable, query));
            (r.Success? <==> failure.None? && svc.repositoryError.None?)
            && (failure.Some? ==> r == Failure(failure.value))
            && (failure.None? && svc.repositoryError.Some? ==> r == Failure(svc.repositoryError.value))
    ensures r.Success? ==> r.value.content == Window(Selected(svc, SearchSpec(search, pageable, query)), pageable)
                           && r.value.total == |Selected(svc, SearchSpec(search, pageable, query))|
  {
    FindAllPaged(svc, SearchSpec(search, pageable, query), pageable)
  }

  /** `internalSearch(search, pageable)`: the three-argument form with a null query. */
  function InternalSearchText(svc: Service, search: Option<string>, pageable: Pageable): (r: Result<Page, Exception>)
    requires svc.Valid()
    ensures var failure := svc.omniFailure(OmniSearchOptionsFactory.Create(search, pageable, None));
            (r.Success? <==> failure.None? && svc.repositoryError.None?)
            && (failure.Some? ==> r == Failure(failure.value))
            && (failure.None? && svc.repositoryError.Some? ==> r == Failure(svc.repositoryError.value))
    ensures r.Success? ==> r.value.content == Window(Selected(svc, SearchSpec(search, pageable, None)), pageable)
                           && r.value.total == |Selected(svc, SearchSpec(search, pageable, None))|
  {
    InternalSearch(svc, search, pageable, None)
  }

  /** `internalFind(id)`: the repository's `findOne` of id equality tagged FIND; a failed query
      escapes, no match throws NotFoundEntityException(entity class, id), and more than one
      makes `findOne` throw. */
  function InternalFind(svc: Service, id: Id): (r: Result<Entity, Exception>)
    requires svc.Valid()
    ensures r.Success? <==> Query(svc, FindSpec(svc, id)).Success? && |Selected(svc, FindSpec(svc, id))| == 1
    ensures r.Success? ==> r.value in Selected(svc, FindSpec(svc, id))
    ensures Query(svc, FindSpec(svc, id)).Failure? ==> r == Failure(Query(svc, FindSpec(svc, id)).error)
    ensures Query(svc, FindSpec(svc, id)).Success? ==>
              (Selected(svc, FindSpec(svc, id)) == [] <==> r == Failure(NotFoundEntity(svc.entityClass, id)))
  {
    match Query(svc, FindSpec(svc, id))
    case Failure(ex) => Failure(ex)
    case Success(found) =>
      if found == [] then Failure(NotFoundEntity(svc.entityClass, id))
      else if |found| == 1 then Success(found[0])
      else Failure(Thrown("query did not return a unique result"))
  }

  /** `internalFind(ids)`: the id property in `ids`, tagged FIND. */
  function InternalFindAll(svc: Service, ids: seq<Id>): (r: Result<seq<Entity>, Exception>)
    requires svc.Valid()
    ensures r.Success? <==> svc.idFieldName == svc.idAttribute && svc.repositoryError.None?
    ensures svc.idFieldName != svc.idAttribute ==> r == Failure(IllegalArgument(svc.idFieldName))
    ensures svc.idFieldName == svc.idAttribute && svc.repositoryError.Some? ==> r == Failure(svc.repositoryError.value)
    ensures r.Success? ==> r.value == Selected(svc, FindAllSpec(svc, ids))
    ensures r.Success? && svc.combiner.DefaultCombiner? ==>
              forall e :: e in r.value <==> e in Rows(svc.repository) && e.id in ids
  {
    Query(svc, FindAllSpec(svc, ids))
  }

  /** `internalCount()`: a match-all specification tagged COUNT. */
  function InternalCount(svc: Service): (r: Result<nat, Exception>)
    requires svc.Valid()
    ensures r.Success? <==> svc.repositoryError.None?
    ensures r.Failure? ==> r.error == svc.repositoryError.value
    ensures r.Success? ==> r.value == |Selected(svc, CountSpec())|
  {
    match Query(svc, CountSpec())
    case Failure(ex) => Failure(ex)
    case Success(all) => Success(|all|)
  }

  /** `internalCount(search, query)`: the engine's predicate for base options, tagged COUNT. */
  function InternalCountQuery(svc: Service, search: Option<string>, query: Option<Node>): (r: Result<nat, Exception>)
    requires svc.Valid()
    ensures var failure := svc.omniFailure(OmniSearchOptionsFactory.CreateBase(search, query));
            (r.Success? <==> failure.None? && svc.repositoryError.None?)
            && (failure.Some? ==> r == Failure(failure.value))
            && (failure.None? && svc.repositoryError.Some? ==> r == Failure(svc.repositoryError.value))
    ensures r.Success? ==> r.value == |Selected(svc, CountQuerySpec(search, query))|
  {
    match Query(svc, CountQuerySpec(search, query))
    case Failure(ex) => Failure(ex)
    case Success(all) => Success(|all|)
  }

  /** `internalCount(search)`: the two-argument form with a null query. */
  function InternalCountText(svc: Service, search: Option<string>): (r: Result<nat, Exception>)
    requires svc.Valid()
    ensures var failure := svc.omniFailure(OmniSearchOptionsFactory.CreateBase(search, None));
            (r.Success? <==> failure.None? && svc.repositoryError.None?)
            && (failure.Some? ==> r == Failure(failure.value))
            && (failure.None? && svc.repositoryError.Some? ==> r == Failure(svc.repositoryError.value))
    ensures r.Success? ==> r.value == |Selected(svc, CountQuerySpec(search, None))|
  {
    InternalCountQuery(svc, search, None)
  }

  /** `internalExists(id)`: the same id equality as `internalFind(id)`, tagged EXISTS. */
  function InternalExists(svc: Service, id: Id): (r: Result<bool, Exception>)
    requires svc.Valid()
    ensures r.Success? <==> svc.idFieldName == svc.idAttribute && svc.repositoryError.None?
    ensures svc.idFieldName != svc.idAttribute ==> r == Failure(IllegalArgument(svc.idFieldName))
    ensures svc.idFieldName == svc.idAttribute && svc.repositoryError.Some? ==> r == Failure(svc.repositoryError.value)
    ensures r.Success? ==> (r.value <==> Selected(svc, ExistsSpec(svc, id)) != [])
    ensures r.Success? && svc.combiner.DefaultCombiner? ==> (r.value <==> id in svc.repository.rows)
  {
    match Query(svc, ExistsSpec(svc, id))
    case Failure(ex) => Failure(ex)
    case Success(found) =>
      assert found != [] ==> found[0] in found;
      assert id in svc.repository.rows ==> Entity(id, svc.repository.rows[id]) in Rows(svc.repository);
      Success(found != [])
  }

  // ----- properties -----

  /** Each operation tags its specification with its own operation: the page and both searches
      PAGE, both finds FIND, both counts COUNT, exists EXISTS; the one-argument search and
      count pass a null query. */
  lemma OperationTags(svc: Service, search: Option<string>, pageable: Pageable, query: Option<Node>, id: Id, ids: seq<Id>)
    ensures PageSpec().operation == PAGE && SearchSpec(search, pageable, query).operation == PAGE
    ensures FindSpec(svc, id).operation == FIND && FindAllSpec(svc, ids).operation == FIND
    ensures CountSpec().operation == COUNT && CountQuerySpec(search, query).operation == COUNT
    ensures ExistsSpec(svc, id).operation == EXISTS
    ensures PageSpec().spec == MatchAll && CountSpec().spec == MatchAll
    ensures FindSpec(svc, id).spec == ExistsSpec(svc, id).spec
    ensures SearchSpec(search, pageable, None).spec.options.query == None
    ensures CountQuerySpec(search, None).spec.options.query == None
  {
  }

  /** A combiner that treats FIND and EXISTS alike makes `exists(id)` fail exactly when
      `find(id)`'s query fails, with the same exception, and otherwise answer true exactly when
      `find(id)` finds something (it may still find more than one). */
  lemma ExistsAgreesWithFind(svc: Service, id: Id)
    requires svc.Valid()
    requires svc.combiner.CustomCombiner? ==>
               forall e :: svc.combiner.matches(FindSpec(svc, id), e) == svc.combiner.matches(ExistsSpec(svc, id), e)
    ensures InternalExists(svc, id).Failure? <==> Query(svc, FindSpec(svc, id)).Failure?
    ensures InternalExists(svc, id).Failure? ==> InternalFind(svc, id) == Failure(InternalExists(svc, id).error)
    ensures InternalExists(svc, id) == Success(true) <==>
              Query(svc, FindSpec(svc, id)).Success? && Selected(svc, FindSpec(svc, id)) != []
    ensures InternalExists(svc, id) == Success(false) <==>
              Query(svc, FindSpec(svc, id)).Success? && InternalFind(svc, id) == Failure(NotFoundEntity(svc.entityClass, id))
  {
    SameSelection(svc, id);
  }

  /** The find and exists specifications select something together, under such a combiner. */
  lemma SameSelection(svc: Service, id: Id)
    requires svc.Valid()
    requires svc.combiner.CustomCombiner? ==>
               forall e :: svc.combiner.matches(FindSpec(svc, id), e) == svc.combiner.matches(ExistsSpec(svc, id), e)
    ensures Selected(svc, FindSpec(svc, id)) != [] <==> Selected(svc, ExistsSpec(svc, id)) != []
  {
    var f := Selected(svc, FindSpec(svc, id));
    var x := Selected(svc, ExistsSpec(svc, id));
    if f != [] {
      assert f[0] in f && f[0] in x;
    }
    if x != [] {
      assert x[0] in x && x[0] in f;
    }
  }

  /** An id property name that is not the entity's identifier attribute makes `find(id)`,
      `find(ids)` and `exists(id)` throw IllegalArgumentException naming it, before the
      repository is reached. */
  lemma UnknownIdField(svc: Service, id: Id, ids: seq<Id>)
    requires svc.Valid() && svc.idFieldName != svc.idAttribute
    ensures InternalFind(svc, id) == Failure(IllegalArgument(svc.idFieldName))
    ensures InternalFindAll(svc, ids) == Failure(IllegalArgument(svc.idFieldName))
    ensures InternalExists(svc, id) == Failure(IllegalArgument(svc.idFieldName))
  {
  }

  /** With the default `getIdFieldName()`, the id equality builds exactly when the entity's
      identifier attribute is called "id"; an entity whose identifier has another name needs
      the method overridden. */
  lemma DefaultIdFieldResolves(svc: Service, id: Id)
    requires svc.Valid() && svc.idFieldName == DefaultIdFieldName
    ensures BuildError(svc, FindSpec(svc, id).spec).None? <==> svc.idAttribute == "id"
  {
  }

  /** Selecting every element gives the list back. */
  lemma {:induction false} SelectAll(rows: seq<Entity>, p: Entity -> bool)
    requires forall e :: e in rows ==> p(e)
    ensures Select(rows, p) == rows
  {
    if rows != [] {
      assert forall e :: e in rows[1..] ==> e in rows;
      SelectAll(rows[1..], p);
    }
  }

  /** Two selections from one list by predicates that agree on its elements are equal. */
  lemma {:induction false} SelectSame(rows: seq<Entity>, p: Entity -> bool, q: Entity -> bool)
    requires forall e :: e in rows ==> p(e) == q(e)
    ensures Select(rows, p) == Select(rows, q)
  {
    if rows != [] {
      assert forall e :: e in rows[1..] ==> e in rows;
      SelectSame(rows[1..], p, q);
    }
  }

  /** The default combiner, an id property naming the identifier attribute, and a working
      data store. */
  ghost predicate Plain(svc: Service) {
    svc.Valid() && svc.combiner.DefaultCombiner? && svc.idFieldName == svc.idAttribute
    && svc.repositoryError.None?
  }

  /** Under the plain configuration a page is the repository's `findAll(pageable)`, and the
      count its `count()`. */
  lemma PageAndCountAgree(svc: Service, pageable: Pageable)
    requires Plain(svc)
    ensures InternalPage(svc, pageable) == Success(FindAll(svc.repository, pageable))
    ensures InternalCount(svc) == Success(Count(svc.repository))
  {
    var rows := Rows(svc.repository);
    SelectAll(rows, (e: Entity) => CombinedMatches(svc, PageSpec(), e));
    SelectAll(rows, (e: Entity) => CombinedMatches(svc, CountSpec(), e));
    RowsCount(svc.repository);
  }

  /** Under the plain configuration `find(ids)` is the repository's `findAllById(ids)`. */
  lemma FindAllAgrees(svc: Service, ids: seq<Id>)
    requires Plain(svc)
    ensures InternalFindAll(svc, ids) == Success(FindAllById(svc.repository, ids))
  {
    SelectSame(Rows(svc.repository), (e: Entity) => CombinedMatches(svc, FindAllSpec(svc, ids), e),
               (e: Entity) => e.id in ids);
  }

  /** Under the plain configuration the id equality matches exactly the entities with that
      identifier. */
  lemma FindSpecMatches(svc: Service, id: Id, e: Entity)
    requires Plain(svc)
    ensures CombinedMatches(svc, FindSpec(svc, id), e) <==> e.id == id
  {
  }

  /** A list with increasing identifiers that all equal `id` has at most one element. */
  lemma AtMostOne(s: seq<Entity>, id: Id)
    requires Increasing(s)
    requires forall k :: 0 <= k < |s| ==> s[k].id == id
    ensures |s| <= 1
  {
    SecondAfterFirst(s);
  }

  /** In a list with increasing identifiers the second identifier exceeds the first. */
  lemma SecondAfterFirst(s: seq<Entity>)
    requires Increasing(s)
    ensures |s| > 1 ==> s[0].id < s[1].id
  {
  }

  /** Under the plain configuration the id equality selects the stored entities with that
      identifier, of which there is at most one. */
  lemma FindSelectsById(svc: Service, id: Id)
    requires Plain(svc)
    ensures |Selected(svc, FindSpec(svc, id))| <= 1
    ensures forall e :: e in Selected(svc, FindSpec(svc, id)) <==> e in Rows(svc.repository) && e.id == id
  {
    var rows := Rows(svc.repository);
    var found := Selected(svc, FindSpec(svc, id));
    forall e ensures e in found <==> e in rows && e.id == id {
      FindSpecMatches(svc, id, e);
    }
    assert Increasing(found) by {
      SelectKeepsOrder(rows, (e: Entity) => CombinedMatches(svc, FindSpec(svc, id), e));
    }
    forall k | 0 <= k < |found| ensures found[k].id == id {
      assert found[k] in found;
    }
    AtMostOne(found, id);
  }

  /** Under the plain configuration the id equality matches at most the stored row. */
  lemma FindMatchesOne(svc: Service, id: Id)
    requires Plain(svc)
    ensures id in svc.repository.rows ==> Selected(svc, FindSpec(svc, id)) == [Entity(id, svc.repository.rows[id])]
    ensures id !in svc.repository.rows ==> Selected(svc, FindSpec(svc, id)) == []
  {
    var found := Selected(svc, FindSpec(svc, id));
    FindSelectsById(svc, id);
    if id in svc.repository.rows {
      var e := Entity(id, svc.repository.rows[id]);
      assert e in found;
      assert found[0] in found;
    }
  }

  /** Under the plain configuration `find(id)` and `exists(id)` answer as the repository's
      `findById` and `existsById` do. */
  lemma FindAndExistsAgree(svc: Service, id: Id)
    requires Plain(svc)
    ensures InternalFind(svc, id).Success? <==> id in svc.repository.rows
    ensures InternalFind(svc, id).Success? ==> InternalFind(svc, id).value == Entity(id, svc.repository.rows[id])
    ensures InternalExists(svc, id) == Success(ExistsById(svc.repository, id))
  {
    FindMatchesOne(svc, id);
    ExistsAgreesWithFind(svc, id);
  }
}
