/** The Spring Data repository behind the services, as an in-memory table: rows by identifier
    and the next identifier the IDENTITY column hands out. */
module Repository {
  import opened Wrappers
  import opened Domain

  datatype Store = Store(rows: map<Id, Fields>, nextId: Id) {
    /** Every stored identifier was handed out already. */
    ghost predicate Valid() {
      forall id :: id in rows ==> id < nextId
    }
  }

  /** The empty table. */
  const Empty: Store := Store(map[], 0)

  /** The rows with an identifier below `n`, in increasing identifier order. */
  function RowsBelow(rows: map<Id, Fields>, n: nat): (r: seq<Entity>)
    ensures forall e :: e in r <==> e.id < n && e.id in rows && e.fields == rows[e.id]
    ensures forall i, j :: 0 <= i < j < |r| ==> r[i].id < r[j].id
  {
    if n == 0 then []
    else
      var prefix := RowsBelow(rows, n - 1);
      var last := if n - 1 in rows then [Entity(n - 1, rows[n - 1])] else [];
      assert forall i :: 0 <= i < |prefix| ==> prefix[i] in prefix;
      prefix + last
  }

  /** Every row of the table, in increasing identifier order. */
  function Rows(store: Store): (r: seq<Entity>)
    requires store.Valid()
    ensures forall e :: e in r <==> e.id in store.rows && e.fields == store.rows[e.id]
    ensures forall i, j :: 0 <= i < j < |r| ==> r[i].id < r[j].id
  {
    RowsBelow(store.rows, store.nextId)
  }

  /** There are as many rows below `n` as stored identifiers below `n`. */
  lemma {:induction false} RowsBelowCount(rows: map<Id, Fields>, n: nat)
    ensures |RowsBelow(rows, n)| == |set k | k in rows && k < n|
  {
    if n > 0 {
      RowsBelowCount(rows, n - 1);
      var before := set k | k in rows && k < n - 1;
      var now := set k | k in rows && k < n;
      if n - 1 in rows {
        assert now == before + {n - 1};
        assert n - 1 !in before;
      } else {
        assert now == before;
      }
    }
  }

  /** Listing a valid table yields exactly one entity per stored identifier. */
  lemma RowsCount(store: Store)
    requires store.Valid()
    ensures |Rows(store)| == |store.rows|
  {
    RowsBelowCount(store.rows, store.nextId);
    assert (set k | k in store.rows && k < store.nextId) == store.rows.Keys;
  }

  /** The entities of `rows` that satisfy `p`, in their order. */
  function Select(rows: seq<Entity>, p: Entity -> bool): (r: seq<Entity>)
    ensures |r| <= |rows|
    ensures forall e :: e in r <==> e in rows && p(e)
  {
    if rows == [] then []
    else if p(rows[0]) then [rows[0]] + Select(rows[1..], p)
    else Select(rows[1..], p)
  }

  /** `findById`. */
  function FindById(store: Store, id: Id): (r: Option<Entity>)
    ensures r.Some? <==> id in store.rows
    ensures r.Some? ==> r.value == Entity(id, store.rows[id])
  {
    if id in store.rows then Some(Entity(id, store.rows[id])) else None
  }

  /** `existsById`. */
  function ExistsById(store: Store, id: Id): (r: bool)
  {
    id in store.rows
  }

  /** `count()`. */
  function Count(store: Store): nat {
    |store.rows|
  }

  /** `findAllById`: the stored entities whose identifier is requested, each once, in
      identifier order; identifiers that are not stored are skipped. */
  function FindAllById(store: Store, ids: seq<Id>): (r: seq<Entity>)
    requires store.Valid()
    ensures forall e :: e in r <==> e.id in ids && e.id in store.rows && e.fields == store.rows[e.id]
    ensures forall i, j :: 0 <= i < j < |r| ==> r[i].id != r[j].id
  {
    var all := Rows(store);
    var requested := (e: Entity) => e.id in ids;
    SelectKeepsOrder(all, requested);
    Select(all, requested)
  }

  /** The identifiers of `rows` increase strictly. */
  predicate Increasing(rows: seq<Entity>) {
    forall i, j :: 0 <= i < j < |rows| ==> rows[i].id < rows[j].id
  }

  /** Selecting from a list with increasing identifiers keeps them increasing. */
  lemma {:induction false} SelectKeepsOrder(rows: seq<Entity>, p: Entity -> bool)
    requires Increasing(rows)
    ensures Increasing(Select(rows, p))
  {
    if rows != [] {
      IncreasingTail(rows);
      SelectKeepsOrder(rows[1..], p);
      var tail := Select(rows[1..], p);
      if p(rows[0]) {
        HeadBelowTail(rows, tail);
        assert Select(rows, p) == [rows[0]] + tail;
        IncreasingCons(rows[0], tail);
      }
    }
  }

  lemma IncreasingTail(rows: seq<Entity>)
    requires Increasing(rows) && rows != []
    ensures Increasing(rows[1..])
  {
    forall i, j | 0 <= i < j < |rows[1..]| ensures rows[1..][i].id < rows[1..][j].id {
      assert rows[1..][i] == rows[i + 1] && rows[1..][j] == rows[j + 1];
    }
  }

  lemma HeadBelowTail(rows: seq<Entity>, tail: seq<Entity>)
    requires Increasing(rows) && rows != []
    requires forall e :: e in tail ==> e in rows[1..]
    ensures forall e :: e in tail ==> rows[0].id < e.id
  {
    forall e | e in tail ensures rows[0].id < e.id {
      var k :| 0 <= k < |rows[1..]| && rows[1..][k] == e;
      assert rows[1..][k] == rows[k + 1];
    }
  }

  lemma IncreasingCons(x: Entity, tail: seq<Entity>)
    requires Increasing(tail)
    requires forall e :: e in tail ==> x.id < e.id
    ensures Increasing([x] + tail)
  {
    var r := [x] + tail;
    forall i, j | 0 <= i < j < |r| ensures r[i].id < r[j].id {
      assert r[j] == tail[j - 1] && r[j] in tail;
      if i > 0 {
        assert r[i] == tail[i - 1];
      }
    }
  }

  /** `findAll(pageable)`: the requested window of the listing, as a page whose total is
      the row count when it is needed. */
  function FindAll(store: Store, pageable: Pageable): (p: Page)
    requires store.Valid()
    ensures p.content == Window(Rows(store), pageable) && p.pageable == pageable
  {
    GetPage(Window(Rows(store), pageable), pageable, Count(store))
  }

  /** The page `getPage` assembles from a window of `all` and the size of `all` reports the
      size of `all` as its total, whether the count is needed or not. */
  lemma WindowedPageTotal(all: seq<Entity>, pageable: Pageable)
    ensures GetPage(Window(all, pageable), pageable, |all|).total == |all|
  {
    if pageable.PageRequest? {
      var off := pageable.Offset();
      var w := Window(all, pageable);
      if off < |all| && off + pageable.pageSize > |all| {
        assert |w| == |all| - off;
      } else if off < |all| {
        assert |w| == pageable.pageSize;
      } else {
        assert w == [];
      }
    }
  }

  /** A page of the listing reports the row count as its total. */
  lemma FindAllTotal(store: Store, pageable: Pageable)
    requires store.Valid()
    ensures FindAll(store, pageable).total == Count(store)
  {
    RowsCount(store);
    WindowedPageTotal(Rows(store), pageable);
  }

  // ----- writes (`save` of a new entity, `save` of a stored one, `delete`) -----

  /** Inserting a new row under the next identifier. */
  function Insert(store: Store, fields: Fields): (r: (Store, Id))
    requires store.Valid()
    ensures r.0.Valid() && r.1 !in store.rows
    ensures r.0.rows == store.rows[r.1 := fields]
  {
    (Store(store.rows[store.nextId := fields], store.nextId + 1), store.nextId)
  }

  /** Overwriting the row of a stored identifier. */
  function Put(store: Store, id: Id, fields: Fields): (r: Store)
    requires store.Valid() && id in store.rows
    ensures r.Valid() && r.rows == store.rows[id := fields] && r.rows.Keys == store.rows.Keys
  {
    store.(rows := store.rows[id := fields])
  }

  /** Removing a row. */
  function Remove(store: Store, id: Id): (r: Store)
    requires store.Valid()
    ensures r.Valid() && r.rows == store.rows - {id} && id !in r.rows
  {
    store.(rows := store.rows - {id})
  }
}
