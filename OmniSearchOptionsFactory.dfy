/** Builds OmniSearch options from a search text, a Spring Data paging request and an RSQL
    query. */
module OmniSearchOptionsFactory {
  import opened Wrappers
  import opened Domain

  /** Each Spring order becomes an OmniSearch order on the same property, ascending exactly
      when the Spring order is. */
  function ToOrders(orders: seq<SpringOrder>): (r: seq<Order>)
    ensures |r| == |orders|
    ensures forall i :: 0 <= i < |orders| ==>
              r[i].property == orders[i].property && (r[i].ascending <==> orders[i].direction == ASC)
  {
    if orders == [] then []
    else [Order(orders[0].property, orders[0].IsAscending())] + ToOrders(orders[1..])
  }

  /** The pagination part of `create(search, pageable, query)`. */
  function ToPagination(pageable: Pageable): (p: Pagination)
    ensures p.IsPaginated() <==> !pageable.IsUnpaged()
    ensures p.Paginated? ==> p.number == pageable.pageNumber && p.size == pageable.pageSize
  {
    if pageable.IsUnpaged() then Unpaginated
    else Paginated(pageable.pageNumber, pageable.pageSize)
  }

  /** The sort part of `create(search, pageable, query)`. */
  function ToSort(sort: SpringSort): (s: Sort)
    ensures s.IsSorted() <==> !sort.IsUnsorted()
  {
    if sort.IsUnsorted() then Sort([]) else Sort(ToOrders(sort.orders))
  }

  /** `create(search, pageable, query)`: full options carrying the search and the query
      unchanged, the page of the request, and its sort. */
  function Create(search: Option<string>, pageable: Pageable, query: Option<Node>): (o: SearchOptions)
    ensures o.Options? && o.search == search && o.query == query
    ensures o.pagination.IsPaginated() <==> !pageable.IsUnpaged()
    ensures o.sort.IsSorted() <==> !pageable.sort.IsUnsorted()
  {
    Options(search, query, ToPagination(pageable), ToSort(pageable.sort))
  }

  /** `create(search, query)`: base options with only the search and the query set. */
  function CreateBase(search: Option<string>, query: Option<Node>): (o: SearchOptions)
    ensures o.BaseOptions? && o.search == search && o.query == query
  {
    BaseOptions(search, query)
  }

  /** The Spring order an OmniSearch order stands for: `Sort.Order.asc` or `Sort.Order.desc`
      of its property. */
  function FromOrder(o: Order): SpringOrder {
    SpringOrder(o.property, if o.ascending then ASC else DESC, false, NATIVE)
  }

  /** Each OmniSearch order becomes a Spring order on the same property, ascending exactly
      when the OmniSearch order is, case-sensitive and with native null handling, in the same
      sequence. */
  function FromOrders(orders: seq<Order>): (r: seq<SpringOrder>)
    ensures |r| == |orders|
    ensures forall i :: 0 <= i < |orders| ==>
              r[i].property == orders[i].property && (r[i].direction == ASC <==> orders[i].ascending)
              && r[i].HasDefaultFlags()
  {
    if orders == [] then [] else [FromOrder(orders[0])] + FromOrders(orders[1..])
  }

  /** The paging request an OmniSearch pagination and sort stand for. */
  function FromOptions(pagination: Pagination, sort: Sort): Option<Pageable> {
    var s := SpringSort(FromOrders(sort.orders));
    match pagination
    case Unpaginated => Some(Unpaged(s))
    case Paginated(number, size) => if size >= 1 then Some(PageRequest(number, size, s)) else None
  }

  /** Mapping orders and back gives the same properties and directions in the same sequence,
      but `ignoreCase` and `nullHandling` are dropped: each order comes back with the default
      flags. */
  lemma {:induction false} OrdersRoundTrip(orders: seq<SpringOrder>)
    ensures FromOrders(ToOrders(orders)) == SpringSort(orders).WithDefaultFlags().orders
  {
    if orders != [] {
      OrdersRoundTrip(orders[1..]);
      assert FromOrder(ToOrders(orders)[0]) == orders[0].WithDefaultFlags();
      assert ToOrders(orders)[1..] == ToOrders(orders[1..]);
    }
  }

  /** The round trip gives the orders back exactly when none of them ignores case or asks for
      a null placement. */
  lemma OrdersRoundTripExact(orders: seq<SpringOrder>)
    ensures FromOrders(ToOrders(orders)) == orders <==>
            forall i :: 0 <= i < |orders| ==> orders[i].HasDefaultFlags()
  {
    var back := FromOrders(ToOrders(orders));
    OrdersRoundTrip(orders);
    if back == orders {
      forall i | 0 <= i < |orders| ensures orders[i].HasDefaultFlags() {
        assert orders[i] == back[i];
      }
    }
  }

  /** The options built from a paging request determine it up to the order flags: page
      number, page size, sort properties, directions and their order all survive the
      mapping, and the request comes back whole exactly when its orders have default flags. */
  lemma CreateRoundTrip(search: Option<string>, pageable: Pageable, query: Option<Node>)
    ensures var o := Create(search, pageable, query);
            FromOptions(o.pagination, o.sort) == Some(pageable.(sort := pageable.sort.WithDefaultFlags()))
    ensures var o := Create(search, pageable, query);
            FromOptions(o.pagination, o.sort) == Some(pageable) <==>
            forall i :: 0 <= i < |pageable.sort.orders| ==> pageable.sort.orders[i].HasDefaultFlags()
  {
    OrdersRoundTrip(pageable.sort.orders);
    OrdersRoundTripExact(pageable.sort.orders);
  }

  /** The sort is mapped independently of the paging: an unpaged request keeps its sort. */
  lemma SortIndependentOfPaging(search: Option<string>, query: Option<Node>,
                                number: nat, size: PageSize, sort: SpringSort)
    ensures Create(search, Unpaged(sort), query).sort == Create(search, PageRequest(number, size, sort), query).sort
    ensures Create(search, Unpaged(sort), query).pagination == Unpaginated
    ensures Create(search, Unpaged(sort), query).sort.IsSorted() <==> sort.orders != []
  {
  }
}
