/** What `create`, `update` and `delete` guarantee, proved about their run functions: the steps
    come in a fixed order and stop at the first exception, that exception escapes unchanged,
    the status is marked rollback-only exactly once when the transaction callback fails, a
    transaction undoes what the callback wrote, and a missing identifier aborts before anything
    is changed. */
module WriteServiceProperties {
  import opened Wrappers
  import opened Domain
  import opened CrudOperation
  import opened Crud
  import opened Repository
  import opened WriteService
  import StandardReadService
  import JpaSpecificationReadService

  /** The steps of a write operation, without the transaction's own events. */
  datatype Phase = Authorize | Instantiate | Find | Map | Before | Save | After

  function PhaseOf(ev: WriteEvent): seq<Phase> {
    match ev
    case PreProcessed(_) => [Authorize]
    case NewEntity => [Instantiate]
    case Lookup(_) => [Find]
    case Mapped(_) => [Map]
    case Hooked(p, _) => if p == BeforeCreate || p == BeforeUpdate || p == BeforeDelete then [Before] else [After]
    case Persist(_, _) => [Save]
    case _ => []
  }

  /** The steps a trace records, in order. */
  function Phases(trace: seq<WriteEvent>): seq<Phase> {
    if trace == [] then [] else PhaseOf(trace[0]) + Phases(trace[1..])
  }

  /** The order of `create`, `update` and `delete` when nothing throws. */
  const CreatePhases: seq<Phase> := [Authorize, Instantiate, Map, Before, Save, After]
  const UpdatePhases: seq<Phase> := [Authorize, Find, Map, Before, Save, After]
  const DeletePhases: seq<Phase> := [Authorize, Find, Before, Save, After]

  /** How many times a trace marks the status rollback-only. */
  function Marks(trace: seq<WriteEvent>): nat {
    if trace == [] then 0 else (if trace[0] == RollbackOnly then 1 else 0) + Marks(trace[1..])
  }

  lemma {:induction false} PhasesAppend(a: seq<WriteEvent>, b: seq<WriteEvent>)
    ensures Phases(a + b) == Phases(a) + Phases(b)
  {
    if a == [] {
      assert a + b == b;
    } else {
      assert (a + b)[0] == a[0] && (a + b)[1..] == a[1..] + b;
      PhasesAppend(a[1..], b);
    }
  }

  lemma {:induction false} MarksAppend(a: seq<WriteEvent>, b: seq<WriteEvent>)
    ensures Marks(a + b) == Marks(a) + Marks(b)
  {
    if a == [] {
      assert a + b == b;
    } else {
      assert (a + b)[0] == a[0] && (a + b)[1..] == a[1..] + b;
      MarksAppend(a[1..], b);
    }
  }

  /** The transaction's own events record no step; the closing ones carry the single mark
      of a callback that threw. */
  lemma TransactionEvents(env: Env, failed: bool)
    ensures Phases(Opened(env)) == [] && Marks(Opened(env)) == 0
    ensures Phases(Closed(env, failed)) == [] && Marks(Closed(env, failed)) == (if failed then 1 else 0)
  {
    assert [RollbackOnly] + [] == [RollbackOnly];
    assert [RollbackOnly] + [TxRollback] == [RollbackOnly, TxRollback];
    assert [RollbackOnly, TxRollback][1..] == [TxRollback];
  }

  /** A trace without a rollback-only mark has none to count. */
  lemma {:induction false} NoMarks(trace: seq<WriteEvent>)
    requires RollbackOnly !in trace
    ensures Marks(trace) == 0
  {
    if trace != [] {
      assert trace[0] in trace;
      assert forall k :: 0 <= k < |trace[1..]| ==> trace[1..][k] in trace;
      NoMarks(trace[1..]);
    }
  }

  /** Whether the steps `p` are the first steps of `canonical`, all of them when the run
      succeeded. */
  predicate Follows(p: seq<Phase>, canonical: seq<Phase>, succeeded: bool) {
    p <= canonical && (succeeded ==> p == canonical)
  }

  /** Steps recorded before a run that follows `canonical` follow the longer sequence. */
  lemma FollowsAfter(q: seq<Phase>, p: seq<Phase>, canonical: seq<Phase>, succeeded: bool)
    requires Follows(p, canonical, succeeded)
    ensures Follows(q + p, q + canonical, succeeded)
  {
    assert (q + canonical)[..|q + p|] == q + canonical[..|p|];
  }

  /** The two steps before a callback. */
  lemma Opening(e1: WriteEvent, e2: WriteEvent)
    ensures Phases([e1, e2]) == PhaseOf(e1) + PhaseOf(e2)
  {
    assert [e1, e2][1..] == [e2];
    assert [e2][1..] == [];
    assert Phases([e2]) == PhaseOf(e2) + Phases([]);
  }

  // ----- the stages of the callback -----

  /** Each operation's order is its own first steps followed by the callback's. */
  lemma CanonicalPhases()
    ensures CreatePhases == [Authorize, Instantiate] + StagePhases(AtMapModel)
    ensures UpdatePhases == [Authorize, Find] + StagePhases(AtMapModel)
    ensures DeletePhases == [Authorize, Find] + StagePhases(AtBeforeHook)
  {
  }

  /** The steps a callback run from `from` takes when nothing throws. */
  function StagePhases(from: Stage): seq<Phase>
    decreases Remaining(from)
  {
    match from
    case AtMapModel => [Map] + StagePhases(AtBeforeHook)
    case AtBeforeHook => [Before] + StagePhases(AtPersist)
    case AtPersist => [Save] + StagePhases(AtAfterHook)
    case AtAfterHook => [After]
  }

  /** The callback runs `mapModel`, the before hook, the repository call and the after hook,
      from whichever of them it starts at, stopping at the first that throws, and never marks
      the status itself. */
  lemma {:induction false} CallbackShape(env: Env, op: CrudOperation, dto: Option<Dto>, from: Stage, store: Store, state: EntityState)
    requires from == AtMapModel ==> dto.Some?
    requires from == AtAfterHook ==> store.Valid()
    requires from != AtAfterHook ==> CanPersist(op, store, state)
    ensures var r := Callback(env, op, dto, from, store, state);
            Follows(Phases(r.trace), StagePhases(from), r.error.None?) && RollbackOnly !in r.trace && TxBegin !in r.trace
    decreases Remaining(from)
  {
    var r := Callback(env, op, dto, from, store, state);
    match from
    case AtMapModel =>
      var ev := Mapped(dto.value);
      if env.mapModel(dto.value, state.fields).Success? {
        var s1 := state.(fields := env.mapModel(dto.value, state.fields).value);
        var b := Callback(env, op, dto, AtBeforeHook, store, s1);
        CallbackShape(env, op, dto, AtBeforeHook, store, s1);
        assert r == Prepend([ev], b);
        Step(ev, Map, b, StagePhases(AtBeforeHook));
      } else {
        assert r.trace == [ev];
        Stop(ev, Map, StagePhases(AtBeforeHook));
      }
    case AtBeforeHook =>
      var ev := Hooked(BeforeHook(op), state);
      if env.hooks(BeforeHook(op), dto, state).None? {
        var b := Callback(env, op, dto, AtPersist, store, state);
        CallbackShape(env, op, dto, AtPersist, store, state);
        assert r == Prepend([ev], b);
        Step(ev, Before, b, StagePhases(AtPersist));
      } else {
        assert r.trace == [ev];
        Stop(ev, Before, StagePhases(AtPersist));
      }
    case AtPersist =>
      var ev := Persist(op, state);
      if env.persistError(op, state).None? {
        var after := Persisted(op, store, state);
        var b := Callback(env, op, dto, AtAfterHook, after.0, after.1);
        CallbackShape(env, op, dto, AtAfterHook, after.0, after.1);
        assert r == Prepend([ev], b);
        Step(ev, Save, b, StagePhases(AtAfterHook));
      } else {
        assert r.trace == [ev];
        Stop(ev, Save, StagePhases(AtAfterHook));
      }
    case AtAfterHook =>
      assert PhaseOf(Hooked(AfterHook(op), state)) == [After];
      assert Phases(r.trace) == [After] + Phases([]);
  }

  /** One step recorded in front of a run that follows `canonical`. */
  lemma Step(ev: WriteEvent, x: Phase, b: WriteRun, canonical: seq<Phase>)
    requires PhaseOf(ev) == [x] && ev != RollbackOnly && ev != TxBegin
    requires Follows(Phases(b.trace), canonical, b.error.None?) && RollbackOnly !in b.trace && TxBegin !in b.trace
    ensures var r := Prepend([ev], b);
            Follows(Phases(r.trace), [x] + canonical, r.error.None?) && RollbackOnly !in r.trace && TxBegin !in r.trace
  {
    PhasesAppend([ev], b.trace);
    assert Phases([ev]) == [x] + Phases([]);
    FollowsAfter([x], Phases(b.trace), canonical, b.error.None?);
  }

  /** One step that threw. */
  lemma Stop(ev: WriteEvent, x: Phase, canonical: seq<Phase>)
    requires PhaseOf(ev) == [x] && ev != RollbackOnly && ev != TxBegin
    ensures Follows(Phases([ev]), [x] + canonical, false) && RollbackOnly !in [ev] && TxBegin !in [ev]
  {
    assert Phases([ev]) == [x] + Phases([]);
  }

  /** A callback run that returns has handed the repository the entity as `mapModel` left it,
      and ends with the table and the entity the repository call produced. */
  lemma {:induction false} CallbackSaves(env: Env, op: CrudOperation, dto: Option<Dto>, from: Stage, store: Store, state: EntityState)
    requires from != AtAfterHook && CanPersist(op, store, state)
    requires from == AtMapModel ==> dto.Some?
    ensures var r := Callback(env, op, dto, from, store, state);
            r.error.None? && from == AtMapModel ==>
              env.mapModel(dto.value, state.fields).Success?
              && (r.store, r.entity) == Persisted(op, store, state.(fields := env.mapModel(dto.value, state.fields).value))
    ensures var r := Callback(env, op, dto, from, store, state);
            r.error.None? && from != AtMapModel ==> (r.store, r.entity) == Persisted(op, store, state)
    decreases Remaining(from)
  {
    match from
    case AtMapModel =>
      if env.mapModel(dto.value, state.fields).Success? {
        CallbackSaves(env, op, dto, AtBeforeHook, store, state.(fields := env.mapModel(dto.value, state.fields).value));
      }
    case AtBeforeHook =>
      if env.hooks(BeforeHook(op), dto, state).None? {
        CallbackSaves(env, op, dto, AtPersist, store, state);
      }
    case AtPersist =>
  }

  /** Around the callback, `execute` adds only transaction events and, on an exception, one
      rollback-only mark; with a transaction manager an exception also restores the rows, while
      the identifier generator keeps what the callback drew from it. */
  lemma TransactionShape(env: Env, op: CrudOperation, dto: Dto, store: Store, state: EntityState)
    requires op == CREATE || op == UPDATE
    requires CanPersist(op, store, state)
    ensures var t := Transaction(env, op, dto, store, state);
            var b := Callback(env, op, Some(dto), AtMapModel, store, state);
            Phases(t.trace) == Phases(b.trace) && t.error == b.error && t.entity == b.entity
            && Marks(t.trace) == (if t.error.Some? then 1 else 0)
            && t.status == Some(t.error.Some?)
            && (t.error.None? || !env.transactional ==> t.store == b.store)
            && (t.error.Some? && env.transactional ==> t.store.rows == store.rows && t.store.nextId == b.store.nextId)
  {
    var b := Callback(env, op, Some(dto), AtMapModel, store, state);
    CallbackShape(env, op, Some(dto), AtMapModel, store, state);
    EncloseShape(env, store, b);
  }

  /** `execute` around a callback run that marks nothing records the same steps and one mark
      exactly when the callback threw. */
  lemma EncloseShape(env: Env, store: Store, b: WriteRun)
    requires store.Valid() && b.store.Valid() && b.store.nextId >= store.nextId && RollbackOnly !in b.trace
    ensures var t := Enclose(env, store, b);
            Phases(t.trace) == Phases(b.trace) && Marks(t.trace) == (if b.error.Some? then 1 else 0)
  {
    var open := Opened(env);
    var close := Closed(env, b.error.Some?);
    NoMarks(b.trace);
    TransactionEvents(env, b.error.Some?);
    PhasesAppend(open, b.trace);
    PhasesAppend(open + b.trace, close);
    MarksAppend(open, b.trace);
    MarksAppend(open + b.trace, close);
  }

  /** Two steps recorded before a transaction run keep its order and its single mark. */
  lemma Guarded(e1: WriteEvent, e2: WriteEvent, x1: Phase, x2: Phase, t: WriteRun)
    requires PhaseOf(e1) == [x1] && PhaseOf(e2) == [x2] && e1 != RollbackOnly && e2 != RollbackOnly
    requires Follows(Phases(t.trace), StagePhases(AtMapModel), t.error.None?)
    requires Marks(t.trace) == (if t.error.Some? then 1 else 0) && t.status == Some(t.error.Some?)
    ensures var r := Prepend([e1, e2], t);
            Follows(Phases(r.trace), [x1, x2] + StagePhases(AtMapModel), r.error.None?)
            && Marks(r.trace) == (if r.status == Some(true) then 1 else 0)
            && r.status == Some(r.error.Some?)
  {
    PhasesAppend([e1, e2], t.trace);
    MarksAppend([e1, e2], t.trace);
    Opening(e1, e2);
    NoMarks([e1, e2]);
    FollowsAfter([x1, x2], Phases(t.trace), StagePhases(AtMapModel), t.error.None?);
  }

  // ----- create -----

  /** `create` runs its steps in the fixed order, stops at the first exception, and marks the
      status rollback-only exactly once when, and only when, its callback throws. */
  lemma CreateOrder(env: Env, store: Store, dto: Dto)
    requires store.Valid()
    ensures var r := CreateRun(env, store, dto);
            Follows(Phases(r.trace), CreatePhases, r.error.None?)
            && Marks(r.trace) == (if r.status == Some(true) then 1 else 0)
            && (r.status == Some(true) <==> PreProcess(env.auth, CREATE).None? && r.error.Some?)
  {
    var r := CreateRun(env, store, dto);
    if PreProcess(env.auth, CREATE).None? {
      CreateAllowedOrder(env, store, dto);
    } else {
      assert Phases(r.trace) == [Authorize] + Phases([]);
    }
  }

  /** The case of `create` that reaches the transaction. */
  lemma CreateAllowedOrder(env: Env, store: Store, dto: Dto)
    requires store.Valid() && PreProcess(env.auth, CREATE).None?
    ensures var r := CreateRun(env, store, dto);
            Follows(Phases(r.trace), CreatePhases, r.error.None?)
            && Marks(r.trace) == (if r.status == Some(true) then 1 else 0)
            && r.status == Some(r.error.Some?)
  {
    var t := Transaction(env, CREATE, dto, store, NewState);
    assert CreateRun(env, store, dto) == Prepend([PreProcessed(CREATE), NewEntity], t);
    TransactionShape(env, CREATE, dto, store, NewState);
    CallbackShape(env, CREATE, Some(dto), AtMapModel, store, NewState);
    Guarded(PreProcessed(CREATE), NewEntity, Authorize, Instantiate, t);
    CanonicalPhases();
  }

  /** A `create` that returns has saved one new row, under the next identifier, holding what
      `mapModel` made of the DTO, and returns that row's entity. */
  lemma CreateSaves(env: Env, store: Store, dto: Dto)
    requires store.Valid()
    ensures var r := CreateRun(env, store, dto);
            r.error.None? ==>
              env.mapModel(dto, map[]).Success?
              && r.entity == EntityState(Some(store.nextId), env.mapModel(dto, map[]).value)
              && r.store.rows == store.rows[store.nextId := r.entity.fields]
              && store.nextId !in store.rows
              && FindById(r.store, store.nextId) == Some(Entity(store.nextId, r.entity.fields))
  {
    if PreProcess(env.auth, CREATE).None? {
      CallbackSaves(env, CREATE, Some(dto), AtMapModel, store, NewState);
    }
  }

  /** With a transaction manager, a `create` that throws leaves the rows as they were,
      whichever step threw, and never takes back an identifier; the exception is the one the
      step threw. */
  lemma CreateRollsBack(env: Env, store: Store, dto: Dto)
    requires store.Valid() && env.transactional
    ensures var r := CreateRun(env, store, dto);
            r.error.Some? ==> r.store.rows == store.rows && r.store.nextId >= store.nextId
    ensures env.mapModel(dto, map[]).Failure? && PreProcess(env.auth, CREATE).None? ==>
              CreateRun(env, store, dto).error == Some(env.mapModel(dto, map[]).error)
  {
    if PreProcess(env.auth, CREATE).None? {
      TransactionShape(env, CREATE, dto, store, NewState);
    }
  }

  /** Without a transaction manager nothing is undone: when only the after-create hook throws,
      the new row stays although the exception escapes. */
  lemma CreateWithoutTransactionKeepsRow(env: Env, store: Store, dto: Dto)
    requires store.Valid() && !env.transactional && PreProcess(env.auth, CREATE).None?
    requires env.mapModel(dto, map[]).Success?
    requires var s1 := EntityState(None, env.mapModel(dto, map[]).value);
             env.hooks(BeforeCreate, Some(dto), s1).None? && env.persistError(CREATE, s1).None?
             && env.hooks(AfterCreate, Some(dto), s1.(id := Some(store.nextId))).Some?
    ensures var r := CreateRun(env, store, dto);
            r.error == env.hooks(AfterCreate, Some(dto), r.entity)
            && r.store.rows == store.rows[store.nextId := env.mapModel(dto, map[]).value]
            && r.status == Some(true)
  {
    var s1 := EntityState(None, env.mapModel(dto, map[]).value);
    var after := Persisted(CREATE, store, s1);
    var last := Callback(env, CREATE, Some(dto), AtAfterHook, after.0, after.1);
    assert Callback(env, CREATE, Some(dto), AtPersist, store, s1) == Prepend([Persist(CREATE, s1)], last);
    assert Callback(env, CREATE, Some(dto), AtBeforeHook, store, s1)
        == Prepend([Hooked(BeforeCreate, s1)], Callback(env, CREATE, Some(dto), AtPersist, store, s1));
  }

  /** With a transaction manager, when only the after-create hook throws, the rollback
      removes the new row but the identifier it got stays used: the next `create` gets a new
      one. */
  lemma CreateRollbackKeepsIdentifier(env: Env, store: Store, dto: Dto)
    requires store.Valid() && env.transactional && PreProcess(env.auth, CREATE).None?
    requires env.mapModel(dto, map[]).Success?
    requires var s1 := EntityState(None, env.mapModel(dto, map[]).value);
             env.hooks(BeforeCreate, Some(dto), s1).None? && env.persistError(CREATE, s1).None?
             && env.hooks(AfterCreate, Some(dto), s1.(id := Some(store.nextId))).Some?
    ensures var r := CreateRun(env, store, dto);
            r.error.Some? && r.store.rows == store.rows && r.store.nextId == store.nextId + 1
            && r.entity.id == Some(store.nextId)
  {
    var s1 := EntityState(None, env.mapModel(dto, map[]).value);
    var after := Persisted(CREATE, store, s1);
    var last := Callback(env, CREATE, Some(dto), AtAfterHook, after.0, after.1);
    assert Callback(env, CREATE, Some(dto), AtPersist, store, s1) == Prepend([Persist(CREATE, s1)], last);
    assert Callback(env, CREATE, Some(dto), AtBeforeHook, store, s1)
        == Prepend([Hooked(BeforeCreate, s1)], Callback(env, CREATE, Some(dto), AtPersist, store, s1));
  }

  // ----- update -----

  /** `update` looks the entity up before and outside the transaction, then runs the callback
      steps in order; the status is marked rollback-only exactly once when the callback throws. */
  lemma UpdateOrder(env: Env, store: Store, id: Id, dto: Dto)
    requires store.Valid()
    ensures var r := UpdateRun(env, store, id, dto);
            Follows(Phases(r.trace), UpdatePhases, r.error.None?)
            && Marks(r.trace) == (if r.status == Some(true) then 1 else 0)
            && (r.status.Some? <==> PreProcess(env.auth, UPDATE).None? && Found(env, store, id).Success?)
            && (r.status == Some(true) <==> r.status.Some? && r.error.Some?)
  {
    var r := UpdateRun(env, store, id, dto);
    if PreProcess(env.auth, UPDATE).None? {
      if Found(env, store, id).Success? {
        UpdateFoundOrder(env, store, id, dto);
      } else {
        Opening(PreProcessed(UPDATE), Lookup(id));
        NoMarks([PreProcessed(UPDATE), Lookup(id)]);
      }
    } else {
      assert Phases(r.trace) == [Authorize] + Phases([]);
    }
  }

  /** The case of `update` that reaches the transaction. */
  lemma UpdateFoundOrder(env: Env, store: Store, id: Id, dto: Dto)
    requires store.Valid() && PreProcess(env.auth, UPDATE).None? && Found(env, store, id).Success?
    ensures var r := UpdateRun(env, store, id, dto);
            Follows(Phases(r.trace), UpdatePhases, r.error.None?)
            && Marks(r.trace) == (if r.status == Some(true) then 1 else 0)
            && r.status == Some(r.error.Some?)
  {
    var s := EntityState(Some(id), store.rows[id]);
    var t := Transaction(env, UPDATE, dto, store, s);
    assert UpdateRun(env, store, id, dto) == Prepend([PreProcessed(UPDATE), Lookup(id)], t);
    TransactionShape(env, UPDATE, dto, store, s);
    CallbackShape(env, UPDATE, Some(dto), AtMapModel, store, s);
    Guarded(PreProcessed(UPDATE), Lookup(id), Authorize, Find, t);
    CanonicalPhases();
  }

  /** An `update` whose lookup throws lets that exception escape right after the lookup: no
      transaction, no `mapModel`, no hook, no write. For an identifier the table does not
      hold, and a read backend that does not throw, it is NotFoundEntityException for the
      entity class and that identifier. */
  lemma UpdateMissing(env: Env, store: Store, id: Id, dto: Dto)
    requires store.Valid() && PreProcess(env.auth, UPDATE).None? && Found(env, store, id).Failure?
    ensures UpdateRun(env, store, id, dto)
            == WriteRun([PreProcessed(UPDATE), Lookup(id)], Some(Found(env, store, id).error), NewState, store, None)
    ensures env.lookupError(store, id).None? ==>
              id !in store.rows && UpdateRun(env, store, id, dto).error == Some(NotFoundEntity(env.entityClass, id))
    ensures env.lookupError(store, id).Some? ==> UpdateRun(env, store, id, dto).error == env.lookupError(store, id)
  {
  }

  /** An `update` that returns has overwritten the stored row with what `mapModel` made of the
      DTO and the old row, keeping the identifier. */
  lemma UpdateSaves(env: Env, store: Store, id: Id, dto: Dto)
    requires store.Valid()
    ensures var r := UpdateRun(env, store, id, dto);
            r.error.None? ==>
              env.lookupError(store, id).None? && id in store.rows && env.mapModel(dto, store.rows[id]).Success?
              && r.entity == EntityState(Some(id), env.mapModel(dto, store.rows[id]).value)
              && r.store.rows == store.rows[id := r.entity.fields]
  {
    if PreProcess(env.auth, UPDATE).None? && Found(env, store, id).Success? {
      CallbackSaves(env, UPDATE, Some(dto), AtMapModel, store, EntityState(Some(id), store.rows[id]));
    }
  }

  /** With a transaction manager, an `update` that throws leaves the table as it was. */
  lemma UpdateRollsBack(env: Env, store: Store, id: Id, dto: Dto)
    requires store.Valid() && env.transactional
    ensures var r := UpdateRun(env, store, id, dto);
            r.error.Some? ==> r.store == store
  {
    if PreProcess(env.auth, UPDATE).None? && Found(env, store, id).Success? {
      TransactionShape(env, UPDATE, dto, store, EntityState(Some(id), store.rows[id]));
    }
  }

  // ----- delete -----

  /** `delete` runs the pre-step, the lookup, the before hook, the repository call and the
      after hook, stopping at the first exception, with no transaction and no rollback mark. */
  lemma DeleteOrder(env: Env, store: Store, id: Id)
    requires store.Valid()
    ensures var r := DeleteRun(env, store, id);
            Follows(Phases(r.trace), DeletePhases, r.error.None?)
            && Marks(r.trace) == 0 && r.status.None?
            && TxBegin !in r.trace
  {
    var r := DeleteRun(env, store, id);
    if PreProcess(env.auth, DELETE).None? && Found(env, store, id).Success? {
      DeleteFoundOrder(env, store, id);
    } else if PreProcess(env.auth, DELETE).None? {
      Opening(PreProcessed(DELETE), Lookup(id));
      NoMarks(r.trace);
    } else {
      assert Phases(r.trace) == [Authorize] + Phases([]);
    }
  }

  /** The case of `delete` that reaches the hooks. */
  lemma DeleteFoundOrder(env: Env, store: Store, id: Id)
    requires store.Valid() && PreProcess(env.auth, DELETE).None? && Found(env, store, id).Success?
    ensures var r := DeleteRun(env, store, id);
            Follows(Phases(r.trace), DeletePhases, r.error.None?)
            && Marks(r.trace) == 0 && r.status.None?
            && TxBegin !in r.trace
  {
    var s := EntityState(Some(id), store.rows[id]);
    var b := Callback(env, DELETE, None, AtBeforeHook, store, s);
    var pre := [PreProcessed(DELETE), Lookup(id)];
    assert DeleteRun(env, store, id) == Prepend(pre, b);
    CallbackShape(env, DELETE, None, AtBeforeHook, store, s);
    PhasesAppend(pre, b.trace);
    Opening(PreProcessed(DELETE), Lookup(id));
    CanonicalPhases();
    FollowsAfter([Authorize, Find], Phases(b.trace), StagePhases(AtBeforeHook), b.error.None?);
    NoMarks(pre + b.trace);
  }

  /** A `delete` whose lookup throws lets that exception escape before either hook or the
      repository call runs, and changes nothing. For an identifier the table does not hold,
      and a read backend that does not throw, it is NotFoundEntityException. */
  lemma DeleteMissing(env: Env, store: Store, id: Id)
    requires store.Valid() && PreProcess(env.auth, DELETE).None? && Found(env, store, id).Failure?
    ensures DeleteRun(env, store, id)
            == WriteRun([PreProcessed(DELETE), Lookup(id)], Some(Found(env, store, id).error), NewState, store, None)
    ensures env.lookupError(store, id).None? ==>
              id !in store.rows && DeleteRun(env, store, id).error == Some(NotFoundEntity(env.entityClass, id))
    ensures env.lookupError(store, id).Some? ==> DeleteRun(env, store, id).error == env.lookupError(store, id)
  {
  }

  /** A `delete` that returns has removed exactly that row. */
  lemma DeleteRemoves(env: Env, store: Store, id: Id)
    requires store.Valid()
    ensures var r := DeleteRun(env, store, id);
            r.error.None? ==> env.lookupError(store, id).None? && id in store.rows && r.store.rows == store.rows - {id}
  {
    if PreProcess(env.auth, DELETE).None? && Found(env, store, id).Success? {
      CallbackSaves(env, DELETE, None, AtBeforeHook, store, EntityState(Some(id), store.rows[id]));
    }
  }

  /** `delete` has no transaction: when only the after-delete hook throws, the row is gone
      although the exception escapes. */
  lemma DeleteWithoutTransactionKeepsRemoval(env: Env, store: Store, id: Id)
    requires store.Valid() && PreProcess(env.auth, DELETE).None? && Found(env, store, id).Success?
    requires var s := EntityState(Some(id), store.rows[id]);
             env.hooks(BeforeDelete, None, s).None? && env.persistError(DELETE, s).None?
             && env.hooks(AfterDelete, None, s).Some?
    ensures var r := DeleteRun(env, store, id);
            r.error == env.hooks(AfterDelete, None, EntityState(Some(id), store.rows[id]))
            && r.store.rows == store.rows - {id}
  {
    var s := EntityState(Some(id), store.rows[id]);
    var after := Persisted(DELETE, store, s);
    var last := Callback(env, DELETE, None, AtAfterHook, after.0, after.1);
    assert Callback(env, DELETE, None, AtPersist, store, s) == Prepend([Persist(DELETE, s)], last);
  }

  // ----- the lookup is the read backend's internalFind -----

  /** Over the standard read backend's table, with its repository exception as the lookup's,
      the write-side lookup is that backend's `internalFind(id)`: the same rows are found and
      the same exceptions thrown. */
  lemma FoundIsStandardFind(env: Env, svc: StandardReadService.Service, id: Id)
    requires svc.repository.Valid() && env.entityClass == svc.entityClass
    requires env.lookupError(svc.repository, id) == svc.repositoryError
    ensures var f := StandardReadService.InternalFind(svc, id);
            (Found(env, svc.repository, id).Success? <==> f.Success?)
            && (f.Success? ==> Found(env, svc.repository, id).value == EntityState(Some(f.value.id), f.value.fields))
            && (f.Failure? ==> Found(env, svc.repository, id).error == f.error)
  {
  }

  /** Over a JPA read backend with the default `combineSpecification`, an id property naming
      the identifier attribute and a working data store, a lookup that does not throw of its
      own is that backend's `internalFind(id)`. */
  lemma FoundIsPlainJpaFind(env: Env, svc: JpaSpecificationReadService.Service, id: Id)
    requires JpaSpecificationReadService.Plain(svc) && env.entityClass == svc.entityClass
    requires env.lookupError(svc.repository, id).None?
    ensures var f := JpaSpecificationReadService.InternalFind(svc, id);
            (Found(env, svc.repository, id).Success? <==> f.Success?)
            && (f.Success? ==> Found(env, svc.repository, id).value == EntityState(Some(f.value.id), f.value.fields))
            && (f.Failure? ==> Found(env, svc.repository, id).error == f.error)
  {
    JpaSpecificationReadService.FindAndExistsAgree(svc, id);
    JpaSpecificationReadService.FindMatchesOne(svc, id);
  }

  /** A denied write throws before anything else and changes nothing. */
  lemma DeniedWritesNothing(env: Env, store: Store, id: Id, dto: Dto)
    requires store.Valid() && env.auth.Authorized?
    ensures !env.auth.granted(CREATE) ==>
              CreateRun(env, store, dto) == WriteRun([PreProcessed(CREATE)], Some(AccessDenied("Access Denied")), NewState, store, None)
    ensures !env.auth.granted(UPDATE) ==>
              UpdateRun(env, store, id, dto) == WriteRun([PreProcessed(UPDATE)], Some(AccessDenied("Access Denied")), NewState, store, None)
    ensures !env.auth.granted(DELETE) ==>
              DeleteRun(env, store, id) == WriteRun([PreProcessed(DELETE)], Some(AccessDenied("Access Denied")), NewState, store, None)
  {
  }

  /** With the default hooks, a mapModel that never throws and a repository that never fails,
      the callback steps from `from` on throw nothing. */
  lemma {:induction false} CallbackNeverFails(env: Env, op: CrudOperation, dto: Option<Dto>, from: Stage, store: Store, state: EntityState)
    requires from == AtMapModel ==> dto.Some?
    requires from == AtAfterHook ==> store.Valid()
    requires from != AtAfterHook ==> CanPersist(op, store, state)
    requires env.hooks == DefaultHooks
    requires forall d, f :: env.mapModel(d, f).Success?
    requires forall o, s :: env.persistError(o, s).None?
    ensures Callback(env, op, dto, from, store, state).error.None?
    decreases Remaining(from)
  {
    match from
    case AtMapModel =>
      CallbackNeverFails(env, op, dto, AtBeforeHook, store, state.(fields := env.mapModel(dto.value, state.fields).value));
    case AtBeforeHook =>
      CallbackNeverFails(env, op, dto, AtPersist, store, state);
    case AtPersist =>
      var after := Persisted(op, store, state);
      CallbackNeverFails(env, op, dto, AtAfterHook, after.0, after.1);
    case AtAfterHook =>
  }

  /** `WriteHooks.getDefault()` throws nothing: with it, no authorisation, a mapModel that
      never throws and a repository that never fails, `create` always succeeds and commits,
      and `update` and `delete` succeed exactly when the identifier is stored. */
  lemma DefaultHooksNeverFail(env: Env, store: Store, id: Id, dto: Dto)
    requires store.Valid() && env.auth.Unsecured? && env.hooks == DefaultHooks
    requires forall d, f :: env.mapModel(d, f).Success?
    requires forall o, s :: env.persistError(o, s).None?
    ensures CreateRun(env, store, dto).error.None? && CreateRun(env, store, dto).status == Some(false)
    ensures UpdateRun(env, store, id, dto).error.None? <==> Found(env, store, id).Success?
    ensures DeleteRun(env, store, id).error.None? <==> Found(env, store, id).Success?
  {
    CallbackNeverFails(env, CREATE, Some(dto), AtMapModel, store, NewState);
    if Found(env, store, id).Success? {
      var s := EntityState(Some(id), store.rows[id]);
      CallbackNeverFails(env, UPDATE, Some(dto), AtMapModel, store, s);
      CallbackNeverFails(env, DELETE, None, AtBeforeHook, store, s);
    }
  }
}
