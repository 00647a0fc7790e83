/** The public read operations every CRUD service shares: each runs the authorisation pre-step
    with its own operation tag, calls one internal operation of the backing service, hands the
    result to one hook and returns it. A run is recorded as the events it produced and its
    outcome (a value or the exception that escaped). */
module ReadService {
  import opened Wrappers
  import opened Domain
  import opened CrudOperation
  import opened Crud
  import opened StringUtils
  import Standard = StandardReadService
  import Jpa = JpaSpecificationReadService

  /** Which internal page operation `resolvePage` picks: `internalPage(pageable)`,
      `internalSearch(search, pageable)` or `internalSearch(search, pageable, query)`. */
  datatype PageCall =
    | PlainPage(pageable: Pageable)
    | TextSearch(text: string, pageable: Pageable)
    | QuerySearch(search: Option<string>, pageable: Pageable, query: Node)

  /** Which internal count operation `resolveCount` picks: `internalCount()`,
      `internalCount(search)` or `internalCount(search, query)`. */
  datatype CountCall =
    | PlainCount
    | TextCount(text: string)
    | QueryCount(search: Option<string>, query: Node)

  /** The hooks of a read service; each may throw. */
  datatype ReadHooks = ReadHooks(
    onPage: Page -> Option<Exception>,
    onFind: Entity -> Option<Exception>,
    onFindAll: (seq<Entity>, seq<Id>) -> Option<Exception>,
    onCount: nat -> Option<Exception>,
    onExists: (bool, Id) -> Option<Exception>)

  /** `ReadHooks.getDefault()`: the shared hooks that do nothing. */
  const DefaultHooks: ReadHooks := ReadHooks(
    (p: Page) => None,
    (e: Entity) => None,
    (es: seq<Entity>, ids: seq<Id>) => None,
    (n: nat) => None,
    (b: bool, id: Id) => None)

  /** The internal operations come from one of the two repository-backed services. */
  datatype Backend = Standard(standard: Standard.Service) | JpaSpecification(jpa: Jpa.Service) {
    ghost predicate Valid() {
      match this
      case Standard(s) => s.Valid()
      case JpaSpecification(s) => s.Valid()
    }
  }

  /** A read service: its authorisation, the hooks `getHooks()` returns, and its backend. */
  datatype Service = Service(auth: Authorization, hooks: ReadHooks, backend: Backend) {
    ghost predicate Valid() { backend.Valid() }
  }

  /** What a read operation did, in order. */
  datatype Event =
    | PreProcessed(operation: CrudOperation)
    | PageInvoked(call: PageCall)
    | FindInvoked(id: Id)
    | FindAllInvoked(ids: seq<Id>)
    | CountInvoked(countCall: CountCall)
    | ExistsInvoked(existsId: Id)
    | PageHooked(page: Page)
    | FindHooked(entity: Entity)
    | FindAllHooked(entities: seq<Entity>, requested: seq<Id>)
    | CountHooked(count: nat)
    | ExistsHooked(found: bool, checkedId: Id)

  /** The events of one call and its outcome. */
  datatype Run<T> = Run(trace: seq<Event>, outcome: Result<T, Exception>)

  // ----- dispatch -----

  /** `resolvePage`: a query always selects the combined search; without one, a null or blank
      search selects the plain page and any other search the text search. */
  function ResolvePage(search: Option<string>, pageable: Pageable, query: Option<Node>): (c: PageCall)
    ensures c.pageable == pageable
    ensures c.PlainPage? <==> query.None? && IsBlank(search)
    ensures c.TextSearch? <==> query.None? && !IsBlank(search)
    ensures c.TextSearch? ==> search == Some(c.text)
    ensures c.QuerySearch? <==> query.Some?
    ensures c.QuerySearch? ==> c.search == search && query == Some(c.query)
  {
    if query.None? then
      if IsBlank(search) then PlainPage(pageable) else TextSearch(search.value, pageable)
    else QuerySearch(search, pageable, query.value)
  }

  /** `resolveCount`: the same precedence as `resolvePage`. */
  function ResolveCount(search: Option<string>, query: Option<Node>): (c: CountCall)
    ensures c.PlainCount? <==> query.None? && IsBlank(search)
    ensures c.TextCount? <==> query.None? && !IsBlank(search)
    ensures c.TextCount? ==> search == Some(c.text)
    ensures c.QueryCount? <==> query.Some?
    ensures c.QueryCount? ==> c.search == search && query == Some(c.query)
  {
    if query.None? then
      if IsBlank(search) then PlainCount else TextCount(search.value)
    else QueryCount(search, query.value)
  }

  // ----- the internal operations of the backend -----

  function InternalPage(b: Backend, call: PageCall): Result<Page, Exception>
    requires b.Valid()
  {
    match b
    case Standard(s) =>
      (match call
       case PlainPage(p) => Standard.InternalPage(s, p)
       case TextSearch(text, p) => Standard.InternalSearchText(s, Some(text), p)
       case QuerySearch(text, p, q) => Standard.InternalSearch(s, text, p, Some(q)))
    case JpaSpecification(s) =>
      (match call
       case PlainPage(p) => Jpa.InternalPage(s, p)
       case TextSearch(text, p) => Jpa.InternalSearchText(s, Some(text), p)
       case QuerySearch(text, p, q) => Jpa.InternalSearch(s, text, p, Some(q)))
  }

  function InternalFind(b: Backend, id: Id): Result<Entity, Exception>
    requires b.Valid()
  {
    match b
    case Standard(s) => Standard.InternalFind(s, id)
    case JpaSpecification(s) => Jpa.InternalFind(s, id)
  }

  function InternalFindAll(b: Backend, ids: seq<Id>): Result<seq<Entity>, Exception>
    requires b.Valid()
  {
    match b
    case Standard(s) => Standard.InternalFindAll(s, ids)
    case JpaSpecification(s) => Jpa.InternalFindAll(s, ids)
  }

  function InternalCount(b: Backend, call: CountCall): Result<nat, Exception>
    requires b.Valid()
  {
    match b
    case Standard(s) =>
      (match call
       case PlainCount => Standard.InternalCount(s)
       case TextCount(text) => Standard.InternalCountText(s, Some(text))
       case QueryCount(text, q) => Standard.InternalCountQuery(s, text, Some(q)))
    case JpaSpecification(s) =>
      (match call
       case PlainCount => Jpa.InternalCount(s)
       case TextCount(text) => Jpa.InternalCountText(s, Some(text))
       case QueryCount(text, q) => Jpa.InternalCountQuery(s, text, Some(q)))
  }

  function InternalExists(b: Backend, id: Id): Result<bool, Exception>
    requires b.Valid()
  {
    match b
    case Standard(s) => Standard.InternalExists(s, id)
    case JpaSpecification(s) => Jpa.InternalExists(s, id)
  }

  /** The last step of every operation: the hook's exception escapes, or the value is
      returned. */
  function AfterHookOutcome<T>(trace: seq<Event>, value: T, hook: Option<Exception>): (r: Run<T>)
    ensures r.trace == trace
    ensures r.outcome.Success? <==> hook.None?
    ensures r.outcome.Success? ==> r.outcome.value == value
    ensures r.outcome.Failure? ==> r.outcome.error == hook.value
  {
    match hook
    case None => Run(trace, Success(value))
    case Some(ex) => Run(trace, Failure(ex))
  }

  // ----- the public operations -----

  /** `page(search, pageable, query)`: PAGE pre-step, dispatch on the normalised search, then
      `onPage` with the page returned; an exception from the page operation escapes before
      the hook. */
  function Paginate(svc: Service, search: Option<string>, pageable: Pageable, query: Option<Node>): (r: Run<Page>)
    requires svc.Valid()
    ensures |r.trace| >= 1 && r.trace[0] == PreProcessed(PAGE)
    ensures PreProcess(svc.auth, PAGE).Some? ==>
              r.trace == [PreProcessed(PAGE)] && r.outcome == Failure(PreProcess(svc.auth, PAGE).value)
    ensures PreProcess(svc.auth, PAGE).None? ==>
              var call := ResolvePage(Normalize(search), pageable, query);
              var p := InternalPage(svc.backend, call);
              (p.Failure? ==> r.trace == [PreProcessed(PAGE), PageInvoked(call)] && r.outcome == p)
              && (p.Success? ==>
                    r.trace == [PreProcessed(PAGE), PageInvoked(call), PageHooked(p.value)]
                    && (r.outcome.Success? <==> svc.hooks.onPage(p.value).None?)
                    && (r.outcome.Success? ==> r.outcome.value == p.value))
  {
    match PreProcess(svc.auth, PAGE)
    case Some(ex) => Run([PreProcessed(PAGE)], Failure(ex))
    case None =>
      var call := ResolvePage(Normalize(search), pageable, query);
      match InternalPage(svc.backend, call)
      case Failure(ex) => Run([PreProcessed(PAGE), PageInvoked(call)], Failure(ex))
      case Success(p) => AfterHookOutcome([PreProcessed(PAGE), PageInvoked(call), PageHooked(p)], p, svc.hooks.onPage(p))
  }

  /** `find(id)`: FIND pre-step, `internalFind(id)`, then `onFind` with the entity found; an
      exception from the lookup escapes before the hook. */
  function Find(svc: Service, id: Id): (r: Run<Entity>)
    requires svc.Valid()
    ensures |r.trace| >= 1 && r.trace[0] == PreProcessed(FIND)
    ensures PreProcess(svc.auth, FIND).Some? ==>
              r.trace == [PreProcessed(FIND)] && r.outcome == Failure(PreProcess(svc.auth, FIND).value)
    ensures PreProcess(svc.auth, FIND).None? && InternalFind(svc.backend, id).Failure? ==>
              r.trace == [PreProcessed(FIND), FindInvoked(id)] && r.outcome == InternalFind(svc.backend, id)
    ensures PreProcess(svc.auth, FIND).None? && InternalFind(svc.backend, id).Success? ==>
              var e := InternalFind(svc.backend, id).value;
              r.trace == [PreProcessed(FIND), FindInvoked(id), FindHooked(e)]
              && (r.outcome.Success? <==> svc.hooks.onFind(e).None?)
              && (r.outcome.Success? ==> r.outcome.value == e)
  {
    match PreProcess(svc.auth, FIND)
    case Some(ex) => Run([PreProcessed(FIND)], Failure(ex))
    case None =>
      match InternalFind(svc.backend, id)
      case Failure(ex) => Run([PreProcessed(FIND), FindInvoked(id)], Failure(ex))
      case Success(e) => AfterHookOutcome([PreProcessed(FIND), FindInvoked(id), FindHooked(e)], e, svc.hooks.onFind(e))
  }

  /** `find(ids)`: FIND pre-step, `internalFind(ids)`, then `onFind(list, ids)`; an exception
      from the lookup escapes before the hook. */
  function FindAll(svc: Service, ids: seq<Id>): (r: Run<seq<Entity>>)
    requires svc.Valid()
    ensures |r.trace| >= 1 && r.trace[0] == PreProcessed(FIND)
    ensures PreProcess(svc.auth, FIND).Some? ==>
              r.trace == [PreProcessed(FIND)] && r.outcome == Failure(PreProcess(svc.auth, FIND).value)
    ensures PreProcess(svc.auth, FIND).None? ==>
              var list := InternalFindAll(svc.backend, ids);
              (list.Failure? ==> r.trace == [PreProcessed(FIND), FindAllInvoked(ids)] && r.outcome == list)
              && (list.Success? ==>
                    r.trace == [PreProcessed(FIND), FindAllInvoked(ids), FindAllHooked(list.value, ids)]
                    && (r.outcome.Success? <==> svc.hooks.onFindAll(list.value, ids).None?)
                    && (r.outcome.Success? ==> r.outcome.value == list.value))
  {
    match PreProcess(svc.auth, FIND)
    case Some(ex) => Run([PreProcessed(FIND)], Failure(ex))
    case None =>
      match InternalFindAll(svc.backend, ids)
      case Failure(ex) => Run([PreProcessed(FIND), FindAllInvoked(ids)], Failure(ex))
      case Success(list) =>
        AfterHookOutcome([PreProcessed(FIND), FindAllInvoked(ids), FindAllHooked(list, ids)], list, svc.hooks.onFindAll(list, ids))
  }

  /** `count(search, query)`: COUNT pre-step, dispatch on the search as given (not normalised),
      then `onCount`; an exception from the count operation escapes before the hook. */
  function Count(svc: Service, search: Option<string>, query: Option<Node>): (r: Run<nat>)
    requires svc.Valid()
    ensures |r.trace| >= 1 && r.trace[0] == PreProcessed(COUNT)
    ensures PreProcess(svc.auth, COUNT).Some? ==>
              r.trace == [PreProcessed(COUNT)] && r.outcome == Failure(PreProcess(svc.auth, COUNT).value)
    ensures PreProcess(svc.auth, COUNT).None? ==>
              var call := ResolveCount(search, query);
              var n := InternalCount(svc.backend, call);
              (n.Failure? ==> r.trace == [PreProcessed(COUNT), CountInvoked(call)] && r.outcome == n)
              && (n.Success? ==>
                    r.trace == [PreProcessed(COUNT), CountInvoked(call), CountHooked(n.value)]
                    && (r.outcome.Success? <==> svc.hooks.onCount(n.value).None?)
                    && (r.outcome.Success? ==> r.outcome.value == n.value))
  {
    match PreProcess(svc.auth, COUNT)
    case Some(ex) => Run([PreProcessed(COUNT)], Failure(ex))
    case None =>
      var call := ResolveCount(search, query);
      match InternalCount(svc.backend, call)
      case Failure(ex) => Run([PreProcessed(COUNT), CountInvoked(call)], Failure(ex))
      case Success(n) => AfterHookOutcome([PreProcessed(COUNT), CountInvoked(call), CountHooked(n)], n, svc.hooks.onCount(n))
  }

  /** `exists(id)`: EXISTS pre-step, `internalExists(id)`, then `onExists(exists, id)`; an
      exception from the check escapes before the hook. */
  function Exists(svc: Service, id: Id): (r: Run<bool>)
    requires svc.Valid()
    ensures |r.trace| >= 1 && r.trace[0] == PreProcessed(EXISTS)
    ensures PreProcess(svc.auth, EXISTS).Some? ==>
              r.trace == [PreProcessed(EXISTS)] && r.outcome == Failure(PreProcess(svc.auth, EXISTS).value)
    ensures PreProcess(svc.auth, EXISTS).None? ==>
              var b := InternalExists(svc.backend, id);
              (b.Failure? ==> r.trace == [PreProcessed(EXISTS), ExistsInvoked(id)] && r.outcome == b)
              && (b.Success? ==>
                    r.trace == [PreProcessed(EXISTS), ExistsInvoked(id), ExistsHooked(b.value, id)]
                    && (r.outcome.Success? <==> svc.hooks.onExists(b.value, id).None?)
                    && (r.outcome.Success? ==> r.outcome.value == b.value))
  {
    match PreProcess(svc.auth, EXISTS)
    case Some(ex) => Run([PreProcessed(EXISTS)], Failure(ex))
    case None =>
      match InternalExists(svc.backend, id)
      case Failure(ex) => Run([PreProcessed(EXISTS), ExistsInvoked(id)], Failure(ex))
      case Success(b) => AfterHookOutcome([PreProcessed(EXISTS), ExistsInvoked(id), ExistsHooked(b, id)], b, svc.hooks.onExists(b, id))
  }

  // ----- properties -----

  /** What `page` asks the backend for, case by case: with no query, a blank search gives the
      plain page, and so does a search that is blank once trimmed; a search holding a visible
      character gives the text search for the trimmed text; with a query, the combined search
      gets the normalised search, which is null when the search is blank. */
  lemma PageDispatch(svc: Service, search: Option<string>, pageable: Pageable, query: Option<Node>)
    requires svc.Valid() && PreProcess(svc.auth, PAGE).None?
    ensures query.None? && IsBlank(Normalize(search)) ==>
              Paginate(svc, search, pageable, query).trace[1] == PageInvoked(PlainPage(pageable))
    ensures query.None? && IsBlank(search) ==>
              Paginate(svc, search, pageable, query).trace[1] == PageInvoked(PlainPage(pageable))
    ensures query.None? && !IsBlank(Normalize(search)) ==>
              Paginate(svc, search, pageable, query).trace[1] == PageInvoked(TextSearch(Trim(search.value), pageable))
    ensures query.Some? ==>
              Paginate(svc, search, pageable, query).trace[1] == PageInvoked(QuerySearch(Normalize(search), pageable, query.value))
    ensures query.Some? && IsBlank(search) ==>
              Paginate(svc, search, pageable, query).trace[1] == PageInvoked(QuerySearch(None, pageable, query.value))
  {
  }

  /** A search holding a character that is neither whitespace nor at or below U+0020 makes
      `page` without a query run the text search for the trimmed text. */
  lemma PageSearchesVisibleText(svc: Service, s: string, k: nat, pageable: Pageable)
    requires svc.Valid() && PreProcess(svc.auth, PAGE).None?
    requires k < |s| && !IsTrimmable(s[k]) && !IsWhitespace(s[k])
    ensures Paginate(svc, Some(s), pageable, None).trace[1] == PageInvoked(TextSearch(Trim(s), pageable))
  {
    NormalizeKeepsVisible(s, k);
  }

  /** What `count` asks the backend for: the same precedence as `page`, applied to the search
      exactly as given. */
  lemma CountDispatch(svc: Service, search: Option<string>, query: Option<Node>)
    requires svc.Valid() && PreProcess(svc.auth, COUNT).None?
    ensures query.None? && IsBlank(search) ==> Count(svc, search, query).trace[1] == CountInvoked(PlainCount)
    ensures query.None? && !IsBlank(search) ==> Count(svc, search, query).trace[1] == CountInvoked(TextCount(search.value))
    ensures query.Some? ==> Count(svc, search, query).trace[1] == CountInvoked(QueryCount(search, query.value))
  {
  }

  /** Because `page` normalises its search and `count` does not, the two can ask for different
      things with the same arguments: "\0" pages everything but counts a text search for "\0",
      and " a " pages a search for "a" but counts one for " a ". */
  lemma PageAndCountDiverge(svc: Service, pageable: Pageable)
    requires svc.Valid() && PreProcess(svc.auth, PAGE).None? && PreProcess(svc.auth, COUNT).None?
    ensures Paginate(svc, Some("\0"), pageable, None).trace[1] == PageInvoked(PlainPage(pageable))
    ensures Count(svc, Some("\0"), None).trace[1] == CountInvoked(TextCount("\0"))
    ensures Paginate(svc, Some(" a "), pageable, None).trace[1] == PageInvoked(TextSearch("a", pageable))
    ensures Count(svc, Some(" a "), None).trace[1] == CountInvoked(TextCount(" a "))
  {
    DivergeOnControl(svc, pageable);
    DivergeOnPadding(svc, pageable);
  }

  /** "\0" is not whitespace, so `count` searches for it, but trimming removes it. */
  lemma DivergeOnControl(svc: Service, pageable: Pageable)
    requires svc.Valid() && PreProcess(svc.auth, PAGE).None? && PreProcess(svc.auth, COUNT).None?
    ensures Paginate(svc, Some("\0"), pageable, None).trace[1] == PageInvoked(PlainPage(pageable))
    ensures Count(svc, Some("\0"), None).trace[1] == CountInvoked(TextCount("\0"))
  {
    NormalizeMayBeEmpty();
    assert !IsWhitespace('\0');
  }

  /** " a " has text, which `page` trims and `count` keeps. */
  lemma DivergeOnPadding(svc: Service, pageable: Pageable)
    requires svc.Valid() && PreProcess(svc.auth, PAGE).None? && PreProcess(svc.auth, COUNT).None?
    ensures Paginate(svc, Some(" a "), pageable, None).trace[1] == PageInvoked(TextSearch("a", pageable))
    ensures Count(svc, Some(" a "), None).trace[1] == CountInvoked(TextCount(" a "))
  {
    assert !IsWhitespace('a');
    assert !AllWhitespace(" a ") by {
      assert !AllWhitespace("a ");
    }
    assert Trim(" a ") == "a" by {
      assert TrimStart(" a ") == 1;
      assert TrimEnd(" a ") == 2;
    }
    assert !AllWhitespace("a");
  }

  /** A denied operation runs nothing but the pre-step: no internal call and no hook. */
  lemma DeniedRunsNothing(svc: Service, op: CrudOperation, search: Option<string>, pageable: Pageable,
                          query: Option<Node>, id: Id, ids: seq<Id>)
    requires svc.Valid() && svc.auth.Authorized? && !svc.auth.granted(op)
    ensures op == PAGE ==> Paginate(svc, search, pageable, query) == Run([PreProcessed(PAGE)], Failure(AccessDenied("Access Denied")))
    ensures op == FIND ==> Find(svc, id) == Run([PreProcessed(FIND)], Failure(AccessDenied("Access Denied")))
    ensures op == FIND ==> FindAll(svc, ids) == Run([PreProcessed(FIND)], Failure(AccessDenied("Access Denied")))
    ensures op == COUNT ==> Count(svc, search, query) == Run([PreProcessed(COUNT)], Failure(AccessDenied("Access Denied")))
    ensures op == EXISTS ==> Exists(svc, id) == Run([PreProcessed(EXISTS)], Failure(AccessDenied("Access Denied")))
  {
  }

  /** Whether an event is one of the hook calls. */
  predicate IsHook(ev: Event) {
    ev.PageHooked? || ev.FindHooked? || ev.FindAllHooked? || ev.CountHooked? || ev.ExistsHooked?
  }

  /** No event of `trace` is a hook call. */
  predicate NoHook(trace: seq<Event>) {
    forall k :: 0 <= k < |trace| ==> !IsHook(trace[k])
  }

  /** A page operation that throws makes `page` throw the same exception, and no hook runs. */
  lemma PageFailureSkipsHook(svc: Service, search: Option<string>, pageable: Pageable, query: Option<Node>)
    requires svc.Valid() && PreProcess(svc.auth, PAGE).None?
    requires InternalPage(svc.backend, ResolvePage(Normalize(search), pageable, query)).Failure?
    ensures Paginate(svc, search, pageable, query).outcome == InternalPage(svc.backend, ResolvePage(Normalize(search), pageable, query))
    ensures NoHook(Paginate(svc, search, pageable, query).trace)
  {
  }

  /** A lookup that throws makes `find(id)` throw the same exception, and no hook runs. */
  lemma FindFailureSkipsHook(svc: Service, id: Id)
    requires svc.Valid() && PreProcess(svc.auth, FIND).None? && InternalFind(svc.backend, id).Failure?
    ensures Find(svc, id).outcome == InternalFind(svc.backend, id)
    ensures NoHook(Find(svc, id).trace)
  {
  }

  /** A lookup that throws makes `find(ids)` throw the same exception, and no hook runs. */
  lemma FindAllFailureSkipsHook(svc: Service, ids: seq<Id>)
    requires svc.Valid() && PreProcess(svc.auth, FIND).None? && InternalFindAll(svc.backend, ids).Failure?
    ensures FindAll(svc, ids).outcome == InternalFindAll(svc.backend, ids)
    ensures NoHook(FindAll(svc, ids).trace)
  {
  }

  /** A count operation that throws makes `count` throw the same exception, and no hook runs. */
  lemma CountFailureSkipsHook(svc: Service, search: Option<string>, query: Option<Node>)
    requires svc.Valid() && PreProcess(svc.auth, COUNT).None?
    requires InternalCount(svc.backend, ResolveCount(search, query)).Failure?
    ensures Count(svc, search, query).outcome == InternalCount(svc.backend, ResolveCount(search, query))
    ensures NoHook(Count(svc, search, query).trace)
  {
  }

  /** A check that throws makes `exists` throw the same exception, and no hook runs. */
  lemma ExistsFailureSkipsHook(svc: Service, id: Id)
    requires svc.Valid() && PreProcess(svc.auth, EXISTS).None? && InternalExists(svc.backend, id).Failure?
    ensures Exists(svc, id).outcome == InternalExists(svc.backend, id)
    ensures NoHook(Exists(svc, id).trace)
  {
  }

  /** With the default hooks and no authorisation, every read operation returns its internal
      operation's result, value or exception. */
  lemma DefaultHooksNeverFail(svc: Service, search: Option<string>, pageable: Pageable,
                              query: Option<Node>, id: Id, ids: seq<Id>)
    requires svc.Valid() && svc.auth.Unsecured? && svc.hooks == DefaultHooks
    ensures Paginate(svc, search, pageable, query).outcome
            == InternalPage(svc.backend, ResolvePage(Normalize(search), pageable, query))
    ensures Find(svc, id).outcome == InternalFind(svc.backend, id)
    ensures FindAll(svc, ids).outcome == InternalFindAll(svc.backend, ids)
    ensures Count(svc, search, query).outcome == InternalCount(svc.backend, ResolveCount(search, query))
    ensures Exists(svc, id).outcome == InternalExists(svc.backend, id)
  {
  }

  /** On a repository-backed standard service whose data store works, `find(id)` of a missing
      id fails with NotFoundEntityException for the entity class and that id, and never
      reaches `onFind`. */
  lemma FindMissing(svc: Service, id: Id)
    requires svc.Valid() && svc.backend.Standard? && PreProcess(svc.auth, FIND).None?
    requires svc.backend.standard.repositoryError.None?
    requires id !in svc.backend.standard.repository.rows
    ensures Find(svc, id).outcome == Failure(NotFoundEntity(svc.backend.standard.entityClass, id))
    ensures forall k :: 0 <= k < |Find(svc, id).trace| ==> !Find(svc, id).trace[k].FindHooked?
  {
  }

  /** Whichever backend serves it, `exists(id)` fails only as `find(id)` does, with the same
      exception, and otherwise answers whether `find(id)` gets past its lookup; for a JPA
      backend this needs the default combiner, the identifier attribute as id property and a
      working data store. */
  lemma ExistsMatchesFind(svc: Service, id: Id)
    requires svc.Valid()
    requires svc.backend.JpaSpecification? ==> Jpa.Plain(svc.backend.jpa)
    ensures InternalExists(svc.backend, id).Failure? ==>
              InternalFind(svc.backend, id) == Failure(InternalExists(svc.backend, id).error)
    ensures InternalExists(svc.backend, id).Success? ==>
              (InternalExists(svc.backend, id).value <==> InternalFind(svc.backend, id).Success?)
  {
    if svc.backend.JpaSpecification? {
      Jpa.FindAndExistsAgree(svc.backend.jpa, id);
    }
  }
}
