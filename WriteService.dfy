/** The write operations every CRUD service shares: `create`, `update` and `delete`. A write
    service holds the repository's table, the rollback-only flag of the transaction status it
    last ran under, and the events it has produced. Entities are objects that `mapModel`
    changes in place. Each method is specified by a pure run function over the old state;
    ordering, rollback and error propagation are proved about those run functions. */
module WriteService {
  import opened Wrappers
  import opened Domain
  import opened CrudOperation
  import opened Crud
  import opened Repository

  /** The data of an entity object: its identifier (none until persisted) and its fields. */
  datatype EntityState = EntityState(id: Option<Id>, fields: Fields)

  /** What the no-argument constructor of the entity class produces. */
  const NewState: EntityState := EntityState(None, map[])

  /** A mutable entity object. */
  class EntityObject {
    var id: Option<Id>
    var fields: Fields

    function State(): EntityState
      reads this
    {
      EntityState(id, fields)
    }

    constructor(state: EntityState)
      ensures State() == state
    {
      id := state.id;
      fields := state.fields;
    }
  }

  /** The six callbacks of WriteHooks. */
  datatype HookPoint = BeforeCreate | AfterCreate | BeforeUpdate | AfterUpdate | BeforeDelete | AfterDelete

  /** What a write operation did, in order. */
  datatype WriteEvent =
    | PreProcessed(operation: CrudOperation)
    | NewEntity
    | Lookup(id: Id)
    | TxBegin
    | Mapped(dto: Dto)
    | Hooked(point: HookPoint, entity: EntityState)
    | Persist(persistOp: CrudOperation, persisted: EntityState)
    | RollbackOnly
    | TxCommit
    | TxRollback

  /** The collaborators of a write service: the entity class, the authorisation, the
      exception the read backend's `internalFind(id)` throws against a table (the data store
      failing, a `combineSpecification` that hides the row, an id property the entity does
      not have, a non-unique match), `mapModel` (the DTO's data applied to an entity's fields,
      or the exception it throws), the hooks, the repository's failures for an operation on
      an entity, and whether a transaction manager is configured. */
  datatype Env = Env(
    entityClass: string,
    auth: Authorization,
    lookupError: (Store, Id) -> Option<Exception>,
    mapModel: (Dto, Fields) -> Result<Fields, Exception>,
    hooks: (HookPoint, Option<Dto>, EntityState) -> Option<Exception>,
    persistError: (CrudOperation, EntityState) -> Option<Exception>,
    transactional: bool)

  /** `WriteHooks.getDefault()`: hooks that do nothing. */
  const DefaultHooks: (HookPoint, Option<Dto>, EntityState) -> Option<Exception> :=
    (p: HookPoint, d: Option<Dto>, s: EntityState) => None

  // ----- the specification -----

  /** The result of a write operation: its events, the exception that escaped, the entity
      object's final data, the table afterwards, and the transaction status's rollback-only
      flag when a transaction callback ran. */
  datatype WriteRun = WriteRun(trace: seq<WriteEvent>, error: Option<Exception>, entity: EntityState,
                               store: Store, status: Option<bool>)

  /** Whether the repository can persist `state` for `op`: a new row, or a stored one. */
  ghost predicate CanPersist(op: CrudOperation, store: Store, state: EntityState) {
    store.Valid()
    && (op == CREATE || op == UPDATE || op == DELETE)
    && (op != CREATE ==> state.id.Some? && state.id.value in store.rows)
  }

  /** `internalCreate`, `internalUpdate`, `internalDelete` on the table: saving a new entity
      hands it the next identifier. */
  function Persisted(op: CrudOperation, store: Store, state: EntityState): (r: (Store, EntityState))
    requires CanPersist(op, store, state)
    ensures r.0.Valid()
    ensures op == CREATE ==> r.1 == state.(id := Some(store.nextId)) && r.0.rows == store.rows[store.nextId := state.fields]
    ensures op == UPDATE ==> r.1 == state && r.0.rows == store.rows[state.id.value := state.fields]
    ensures op == DELETE ==> r.1 == state && r.0.rows == store.rows - {state.id.value}
    ensures r.0.nextId == (if op == CREATE then store.nextId + 1 else store.nextId)
  {
    if op == CREATE then
      var (s, id) := Insert(store, state.fields);
      (s, state.(id := Some(id)))
    else if op == UPDATE then (Put(store, state.id.value, state.fields), state)
    else (Remove(store, state.id.value), state)
  }

  function BeforeHook(op: CrudOperation): HookPoint {
    if op == CREATE then BeforeCreate else if op == UPDATE then BeforeUpdate else BeforeDelete
  }

  function AfterHook(op: CrudOperation): HookPoint {
    if op == CREATE then AfterCreate else if op == UPDATE then AfterUpdate else AfterDelete
  }

  /** `r` with `events` in front of its events. */
  function Prepend(events: seq<WriteEvent>, r: WriteRun): WriteRun {
    r.(trace := events + r.trace)
  }

  /** The steps of the callback of `create` and `update`, in order; `delete` runs the last
      three without a transaction. */
  datatype Stage = AtMapModel | AtBeforeHook | AtPersist | AtAfterHook

  /** How many steps remain after `from`. */
  function Remaining(from: Stage): nat {
    match from
    case AtMapModel => 3
    case AtBeforeHook => 2
    case AtPersist => 1
    case AtAfterHook => 0
  }

  /** What the steps from `from` on do: `mapModel` (with the DTO), the before hook, the
      repository call and the after hook, each on the entity as the previous step left it,
      stopping at the first that throws. */
  function Callback(env: Env, op: CrudOperation, dto: Option<Dto>, from: Stage, store: Store, state: EntityState): (r: WriteRun)
    requires from == AtMapModel ==> dto.Some?
    requires from == AtAfterHook ==> store.Valid()
    requires from != AtAfterHook ==> CanPersist(op, store, state)
    ensures r.store.Valid() && r.store.nextId >= store.nextId
    decreases Remaining(from)
  {
    match from
    case AtMapModel =>
      (match env.mapModel(dto.value, state.fields)
       case Failure(e) => WriteRun([Mapped(dto.value)], Some(e), state, store, None)
       case Success(f) => Prepend([Mapped(dto.value)], Callback(env, op, dto, AtBeforeHook, store, state.(fields := f))))
    case AtBeforeHook =>
      var hooked := [Hooked(BeforeHook(op), state)];
      (match env.hooks(BeforeHook(op), dto, state)
       case Some(e) => WriteRun(hooked, Some(e), state, store, None)
       case None => Prepend(hooked, Callback(env, op, dto, AtPersist, store, state)))
    case AtPersist =>
      var persist := [Persist(op, state)];
      (match env.persistError(op, state)
       case Some(e) => WriteRun(persist, Some(e), state, store, None)
       case None =>
         var after := Persisted(op, store, state);
         Prepend(persist, Callback(env, op, dto, AtAfterHook, after.0, after.1)))
    case AtAfterHook =>
      WriteRun([Hooked(AfterHook(op), state)], env.hooks(AfterHook(op), dto, state), state, store, None)
  }

  /** `transactionOperations.execute(callback)`: with a transaction manager the callback runs
      between begin and commit, and an exception marks the status rollback-only, rolls back the
      table and escapes; without one the callback runs as is, and what it wrote stays. */
  function Transaction(env: Env, op: CrudOperation, dto: Dto, store: Store, state: EntityState): (r: WriteRun)
    requires op == CREATE || op == UPDATE
    requires CanPersist(op, store, state)
    ensures r.store.Valid() && r.status.Some?
  {
    Enclose(env, store, Callback(env, op, Some(dto), AtMapModel, store, state))
  }

  /** What `execute` records before the callback. */
  function Opened(env: Env): seq<WriteEvent> {
    if env.transactional then [TxBegin] else []
  }

  /** What `execute` records after the callback: the rollback-only mark when it threw, then
      the rollback or the commit when there is a transaction. */
  function Closed(env: Env, failed: bool): seq<WriteEvent> {
    if failed then [RollbackOnly] + (if env.transactional then [TxRollback] else [])
    else if env.transactional then [TxCommit] else []
  }

  /** `execute` around a callback run `b` that started from `store`; a rollback restores the
      rows but not the identifier generator, which no transaction rolls back. */
  function Enclose(env: Env, store: Store, b: WriteRun): (r: WriteRun)
    requires store.Valid() && b.store.Valid() && b.store.nextId >= store.nextId
    ensures r.store.Valid() && r.status.Some?
  {
    var failed := b.error.Some?;
    WriteRun(Opened(env) + b.trace + Closed(env, failed), b.error, b.entity,
             if failed && env.transactional then b.store.(rows := store.rows) else b.store, Some(failed))
  }

  /** `create(dto)`. */
  function CreateRun(env: Env, store: Store, dto: Dto): (r: WriteRun)
    requires store.Valid()
    ensures r.store.Valid()
  {
    match PreProcess(env.auth, CREATE)
    case Some(e) => WriteRun([PreProcessed(CREATE)], Some(e), NewState, store, None)
    case None =>
      Prepend([PreProcessed(CREATE), NewEntity], Transaction(env, CREATE, dto, store, NewState))
  }

  /** `internalFind(id)` as the write operations use it: the read backend's exception
      escapes; otherwise the stored row, and NotFoundEntityException for an identifier the
      table does not hold. */
  function Found(env: Env, store: Store, id: Id): (r: Result<EntityState, Exception>)
    ensures r.Success? <==> env.lookupError(store, id).None? && id in store.rows
    ensures r.Success? ==> r.value == EntityState(Some(id), store.rows[id])
    ensures env.lookupError(store, id).Some? ==> r == Failure(env.lookupError(store, id).value)
    ensures env.lookupError(store, id).None? && id !in store.rows ==> r == Failure(NotFoundEntity(env.entityClass, id))
  {
    match env.lookupError(store, id)
    case Some(e) => Failure(e)
    case None =>
      if id in store.rows then Success(EntityState(Some(id), store.rows[id]))
      else Failure(NotFoundEntity(env.entityClass, id))
  }

  /** `update(id, dto)`: the lookup runs before, and outside, the transaction. */
  function UpdateRun(env: Env, store: Store, id: Id, dto: Dto): (r: WriteRun)
    requires store.Valid()
    ensures r.store.Valid()
  {
    match PreProcess(env.auth, UPDATE)
    case Some(e) => WriteRun([PreProcessed(UPDATE)], Some(e), NewState, store, None)
    case None =>
      match Found(env, store, id)
      case Failure(e) => WriteRun([PreProcessed(UPDATE), Lookup(id)], Some(e), NewState, store, None)
      case Success(s) => Prepend([PreProcessed(UPDATE), Lookup(id)], Transaction(env, UPDATE, dto, store, s))
  }

  /** `delete(id)`: no transaction and no DTO. */
  function DeleteRun(env: Env, store: Store, id: Id): (r: WriteRun)
    requires store.Valid()
    ensures r.store.Valid()
  {
    match PreProcess(env.auth, DELETE)
    case Some(e) => WriteRun([PreProcessed(DELETE)], Some(e), NewState, store, None)
    case None =>
      match Found(env, store, id)
      case Failure(e) => WriteRun([PreProcessed(DELETE), Lookup(id)], Some(e), NewState, store, None)
      case Success(s) => Prepend([PreProcessed(DELETE), Lookup(id)], Callback(env, DELETE, None, AtBeforeHook, store, s))
  }

  /** Regrouping a trace that was extended three times. */
  lemma Regroup(prefix: seq<WriteEvent>, a: seq<WriteEvent>, b: seq<WriteEvent>, c: seq<WriteEvent>)
    ensures prefix + a + b + c == prefix + (a + b + c)
  {
  }

  // ----- the service -----

  class WriteService {
    const env: Env
    var store: Store
    var rollbackOnly: bool
    var trace: seq<WriteEvent>

    ghost predicate Valid()
      reads this
    {
      store.Valid()
    }

    constructor(env: Env, store: Store)
      requires store.Valid()
      ensures Valid() && this.env == env && this.store == store && trace == [] && !rollbackOnly
    {
      this.env := env;
      this.store := store;
      rollbackOnly := false;
      trace := [];
    }

    /** `Crud.preProccess(this, op)`. */
    method PreProcessStep(op: CrudOperation) returns (error: Option<Exception>)
      modifies this`trace
      ensures error == PreProcess(env.auth, op)
      ensures trace == old(trace) + [PreProcessed(op)]
    {
      trace := trace + [PreProcessed(op)];
      error := PreProcess(env.auth, op);
    }

    /** `newEntity()`: a fresh object from the no-argument constructor. */
    method NewEntityStep() returns (entity: EntityObject)
      modifies this`trace
      ensures fresh(entity) && entity.State() == NewState
      ensures trace == old(trace) + [NewEntity]
    {
      trace := trace + [NewEntity];
      entity := new EntityObject(NewState);
    }

    /** `internalFind(id)`: a fresh object holding the stored row, or the exception the read
        backend throws. */
    method LookupStep(id: Id) returns (r: Result<EntityObject, Exception>)
      modifies this`trace
      ensures trace == old(trace) + [Lookup(id)]
      ensures r.Success? <==> env.lookupError(store, id).None? && id in store.rows
      ensures r.Success? ==> fresh(r.value) && r.value.State() == EntityState(Some(id), store.rows[id])
      ensures env.lookupError(store, id).Some? ==> r == Failure(env.lookupError(store, id).value)
      ensures env.lookupError(store, id).None? && id !in store.rows ==> r == Failure(NotFoundEntity(env.entityClass, id))
    {
      trace := trace + [Lookup(id)];
      var failure := env.lookupError(store, id);
      if failure.Some? {
        r := Failure(failure.value);
      } else if id in store.rows {
        var e := new EntityObject(EntityState(Some(id), store.rows[id]));
        r := Success(e);
      } else {
        r := Failure(NotFoundEntity(env.entityClass, id));
      }
    }

    /** `mapModel(dto, entity)`: the DTO's data written into the entity's fields. */
    method MapModelStep(dto: Dto, entity: EntityObject) returns (error: Option<Exception>)
      modifies this`trace, entity`fields
      ensures trace == old(trace) + [Mapped(dto)]
      ensures error.Some? <==> env.mapModel(dto, old(entity.fields)).Failure?
      ensures error.Some? ==> error.value == env.mapModel(dto, old(entity.fields)).error && entity.fields == old(entity.fields)
      ensures error.None? ==> entity.fields == env.mapModel(dto, old(entity.fields)).value
    {
      trace := trace + [Mapped(dto)];
      match env.mapModel(dto, entity.fields)
      case Failure(e) =>
        error := Some(e);
      case Success(f) =>
        entity.fields := f;
        error := None;
    }

    /** One hook callback. */
    method HookStep(point: HookPoint, dto: Option<Dto>, entity: EntityObject) returns (error: Option<Exception>)
      modifies this`trace
      ensures trace == old(trace) + [Hooked(point, entity.State())]
      ensures error == env.hooks(point, dto, entity.State())
    {
      trace := trace + [Hooked(point, entity.State())];
      error := env.hooks(point, dto, entity.State());
    }

    /** `internalCreate`, `internalUpdate` or `internalDelete`. */
    method PersistStep(op: CrudOperation, entity: EntityObject) returns (error: Option<Exception>)
      requires CanPersist(op, store, entity.State())
      modifies this`trace, this`store, entity`id
      ensures Valid()
      ensures trace == old(trace) + [Persist(op, old(entity.State()))]
      ensures error == env.persistError(op, old(entity.State()))
      ensures error.Some? ==> store == old(store) && entity.State() == old(entity.State())
      ensures error.None? ==> (store, entity.State()) == Persisted(op, old(store), old(entity.State()))
    {
      trace := trace + [Persist(op, entity.State())];
      error := env.persistError(op, entity.State());
      if error.None? {
        var (s, state) := Persisted(op, store, entity.State());
        store := s;
        entity.id := state.id;
      }
    }

    /** The after hook, on the object the repository call left. */
    method AfterHookStage(op: CrudOperation, dto: Option<Dto>, entity: EntityObject) returns (error: Option<Exception>)
      requires Valid()
      modifies this`trace
      ensures var r := Callback(env, op, dto, AtAfterHook, store, entity.State());
              trace == old(trace) + r.trace && error == r.error && entity.State() == r.entity && store == r.store
    {
      error := HookStep(AfterHook(op), dto, entity);
    }

    /** The repository call and what follows it. */
    method PersistStage(op: CrudOperation, dto: Option<Dto>, entity: EntityObject) returns (error: Option<Exception>)
      requires CanPersist(op, store, entity.State())
      modifies this`trace, this`store, entity`id
      ensures Valid()
      ensures var r := Callback(env, op, dto, AtPersist, old(store), old(entity.State()));
              trace == old(trace) + r.trace && error == r.error && entity.State() == r.entity && store == r.store
    {
      error := PersistStep(op, entity);
      if error.None? {
        error := AfterHookStage(op, dto, entity);
      }
    }

    /** The before hook and what follows it. */
    method BeforeHookStage(op: CrudOperation, dto: Option<Dto>, entity: EntityObject) returns (error: Option<Exception>)
      requires CanPersist(op, store, entity.State())
      modifies this`trace, this`store, entity`id
      ensures Valid()
      ensures var r := Callback(env, op, dto, AtBeforeHook, old(store), old(entity.State()));
              trace == old(trace) + r.trace && error == r.error && entity.State() == r.entity && store == r.store
    {
      error := HookStep(BeforeHook(op), dto, entity);
      if error.None? {
        error := PersistStage(op, dto, entity);
      }
    }

    /** `mapModel` and what follows it. */
    method BodyStage(op: CrudOperation, dto: Dto, entity: EntityObject) returns (error: Option<Exception>)
      requires op == CREATE || op == UPDATE
      requires CanPersist(op, store, entity.State())
      modifies this`trace, this`store, entity
      ensures Valid()
      ensures var r := Callback(env, op, Some(dto), AtMapModel, old(store), old(entity.State()));
              trace == old(trace) + r.trace && error == r.error && entity.State() == r.entity && store == r.store
    {
      error := MapModelStep(dto, entity);
      if error.None? {
        error := BeforeHookStage(op, Some(dto), entity);
      }
    }

    /** The transaction callback of `create` and `update`, run by `execute`. */
    method Execute(op: CrudOperation, dto: Dto, entity: EntityObject) returns (error: Option<Exception>)
      requires op == CREATE || op == UPDATE
      requires CanPersist(op, store, entity.State())
      modifies this, entity
      ensures Valid()
      ensures var t := Transaction(env, op, dto, old(store), old(entity.State()));
              trace == old(trace) + t.trace && error == t.error && entity.State() == t.entity
              && store == t.store && Some(rollbackOnly) == t.status
    {
      var snapshot := store;
      ghost var body := Callback(env, op, Some(dto), AtMapModel, store, entity.State());
      trace := trace + Opened(env);
      rollbackOnly := false;
      error := BodyStage(op, dto, entity);
      assert trace == old(trace) + Opened(env) + body.trace;
      if error.Some? {
        rollbackOnly := true;
        if env.transactional {
          store := store.(rows := snapshot.rows);
        }
      }
      trace := trace + Closed(env, error.Some?);
      Regroup(old(trace), Opened(env), body.trace, Closed(env, error.Some?));
    }

    /** `create(dto)`: returns the object `newEntity` made, as `mapModel` and the repository
        left it. */
    method Create(dto: Dto) returns (r: Result<EntityObject, Exception>)
      requires Valid()
      modifies this
      ensures Valid()
      ensures var run := CreateRun(env, old(store), dto);
              trace == old(trace) + run.trace && store == run.store
              && rollbackOnly == (if run.status.Some? then run.status.value else old(rollbackOnly))
              && (r.Success? <==> run.error.None?)
              && (r.Success? ==> fresh(r.value) && r.value.State() == run.entity)
              && (r.Failure? ==> r.error == run.error.value)
    {
      var denied := PreProcessStep(CREATE);
      if denied.Some? {
        return Failure(denied.value);
      }
      ghost var t := Transaction(env, CREATE, dto, store, NewState);
      assert CreateRun(env, store, dto) == Prepend([PreProcessed(CREATE), NewEntity], t);
      r := NewEntityTransaction(dto);
      Regroup(old(trace), [PreProcessed(CREATE)], [NewEntity], t.trace);
      assert [PreProcessed(CREATE)] + [NewEntity] == [PreProcessed(CREATE), NewEntity];
    }

    /** The part of `create` after the pre-step: `newEntity`, then the transaction. */
    method NewEntityTransaction(dto: Dto) returns (r: Result<EntityObject, Exception>)
      requires Valid()
      modifies this
      ensures Valid()
      ensures var t := Transaction(env, CREATE, dto, old(store), NewState);
              trace == old(trace) + [NewEntity] + t.trace && store == t.store && Some(rollbackOnly) == t.status
              && (r.Success? <==> t.error.None?)
              && (r.Success? ==> fresh(r.value) && r.value.State() == t.entity)
              && (r.Failure? ==> r.error == t.error.value)
    {
      var entity := NewEntityStep();
      var error := Execute(CREATE, dto, entity);
      if error.Some? {
        return Failure(error.value);
      }
      return Success(entity);
    }

    /** `update(id, dto)`: returns the object the lookup found, as `mapModel` left it. */
    method Update(id: Id, dto: Dto) returns (r: Result<EntityObject, Exception>)
      requires Valid()
      modifies this
      ensures Valid()
      ensures var run := UpdateRun(env, old(store), id, dto);
              trace == old(trace) + run.trace && store == run.store
              && rollbackOnly == (if run.status.Some? then run.status.value else old(rollbackOnly))
              && (r.Success? <==> run.error.None?)
              && (r.Success? ==> fresh(r.value) && r.value.State() == run.entity)
              && (r.Failure? ==> r.error == run.error.value)
    {
      var denied := PreProcessStep(UPDATE);
      if denied.Some? {
        return Failure(denied.value);
      }
      var found := LookupStep(id);
      if found.Failure? {
        return Failure(found.error);
      }
      var entity := found.value;
      ghost var t := Transaction(env, UPDATE, dto, store, entity.State());
      assert UpdateRun(env, store, id, dto) == Prepend([PreProcessed(UPDATE), Lookup(id)], t);
      var error := Execute(UPDATE, dto, entity);
      Regroup(old(trace), [PreProcessed(UPDATE)], [Lookup(id)], t.trace);
      assert [PreProcessed(UPDATE)] + [Lookup(id)] == [PreProcessed(UPDATE), Lookup(id)];
      if error.Some? {
        return Failure(error.value);
      }
      return Success(entity);
    }

    /** `delete(id)`. */
    method Delete(id: Id) returns (error: Option<Exception>)
      requires Valid()
      modifies this
      ensures Valid()
      ensures var run := DeleteRun(env, old(store), id);
              trace == old(trace) + run.trace && store == run.store && error == run.error
              && rollbackOnly == old(rollbackOnly)
    {
      error := PreProcessStep(DELETE);
      if error.Some? {
        return;
      }
      var found := LookupStep(id);
      if found.Failure? {
        return Some(found.error);
      }
      error := BeforeHookStage(DELETE, None, found.value);
    }
  }
}
