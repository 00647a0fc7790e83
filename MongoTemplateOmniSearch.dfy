/** OmniSearch on top of Spring Data's `MongoTemplate`: a search becomes a Mongo query with the
    OmniSearch filter, an optional sort and an optional limit/skip window; a count uses the
    filter alone. */
module MongoTemplateOmniSearch {
  import opened Wrappers
  import opened Domain
  import Factory = OmniSearchOptionsFactory

  /** The filter document OmniSearch builds for an entity class, a free-text search and an
      RSQL query, in its Mongo (BSON) rendering. */
  type Filter = string

  /** What a Spring Data `Query` carries once built: the filter, the sort (unsorted when it has
      no orders), and the limit and skip, where 0 means "not set" as in `Query`. */
  datatype QueryShape = QueryShape(filter: Filter, sort: SpringSort, limit: nat, skip: nat)

  /** A Spring Data Mongo `Query` under construction. */
  class Query {
    const filter: Filter
    var sort: SpringSort
    var limit: nat
    var skip: nat

    function Shape(): QueryShape
      reads this
    {
      QueryShape(filter, sort, limit, skip)
    }

    /** `new Query()` over a filter: unsorted, no limit, no skip. */
    constructor(filter: Filter)
      ensures Shape() == QueryShape(filter, SpringSort([]), 0, 0)
    {
      this.filter := filter;
      sort := SpringSort([]);
      limit := 0;
      skip := 0;
    }

    /** `Query.with(Sort)`: an unsorted argument is ignored, a sorted one is appended to the
        orders already present. */
    method With(s: SpringSort)
      modifies this
      ensures Shape() == old(Shape()).(sort := if s.orders == [] then old(sort) else SpringSort(old(sort).orders + s.orders))
    {
      if s.orders != [] {
        sort := SpringSort(sort.orders + s.orders);
      }
    }

    /** `Query.limit(int)`. */
    method Limit(n: nat)
      modifies this
      ensures Shape() == old(Shape()).(limit := n)
    {
      limit := n;
    }

    /** `Query.skip(long)`. */
    method Skip(n: nat)
      modifies this
      ensures Shape() == old(Shape()).(skip := n)
    {
      skip := n;
    }
  }

  /** The Mongo template (its `find` and `count` run a query against the collection of an
      entity class) and OmniSearch's filter builder, which read only the search text and the
      RSQL query of the options. Both are outside this model. */
  datatype Engine = Engine(
    find: (QueryShape, string) -> seq<Entity>,
    count: (QueryShape, string) -> nat,
    buildFilter: (string, Option<string>, Option<Node>) -> Filter)

  /** `buildSort`: the Spring sort with one order per OmniSearch order, in the same sequence,
      on the same property, ascending exactly when the OmniSearch order is, built by
      `Sort.Order.asc` or `desc` and so case-sensitive with native null handling. */
  function BuildSort(sort: Sort): (r: SpringSort)
    ensures |r.orders| == |sort.orders|
    ensures forall i :: 0 <= i < |sort.orders| ==>
              r.orders[i].property == sort.orders[i].property
              && (r.orders[i].direction == ASC <==> sort.orders[i].ascending)
              && r.orders[i].HasDefaultFlags()
  {
    SpringSort(Factory.FromOrders(sort.orders))
  }

  /** The query `count` runs: the filter of the options, and nothing else. */
  function CountQuery(engine: Engine, entityClass: string, options: SearchOptions): (q: QueryShape)
    ensures q.filter == engine.buildFilter(entityClass, options.search, options.query)
    ensures q.sort.IsUnsorted() && q.limit == 0 && q.skip == 0
  {
    QueryShape(engine.buildFilter(entityClass, options.search, options.query), SpringSort([]), 0, 0)
  }

  /** The query `search` runs: the count query, sorted when the options are sorted, and
      limited to a page of `size` rows from row `number * size` when they are paginated. */
  function SearchQuery(engine: Engine, entityClass: string, options: SearchOptions): (q: QueryShape)
    requires options.Options?
    ensures q.filter == CountQuery(engine, entityClass, options).filter
    ensures !q.sort.IsUnsorted() <==> options.sort.IsSorted()
    ensures q.sort == (if options.sort.IsSorted() then BuildSort(options.sort) else SpringSort([]))
    ensures options.pagination.IsPaginated() ==>
              q.limit == options.pagination.size && q.skip == options.pagination.Offset()
    ensures !options.pagination.IsPaginated() ==> q.limit == 0 && q.skip == 0
  {
    var base := CountQuery(engine, entityClass, options);
    var sorted := if options.sort.IsSorted() then base.(sort := BuildSort(options.sort)) else base;
    match options.pagination
    case Unpaginated => sorted
    case Paginated(_, size) => sorted.(limit := size, skip := options.pagination.Offset())
  }

  /** `buildBaseQuery`: a fresh query over the filter OmniSearch builds for the options. */
  method BuildBaseQuery(engine: Engine, entityClass: string, options: SearchOptions) returns (q: Query)
    ensures fresh(q) && q.Shape() == CountQuery(engine, entityClass, options)
  {
    var filter := engine.buildFilter(entityClass, options.search, options.query);
    q := new Query(filter);
  }

  /** `buildQuery`: the base query, then the sort if the options are sorted, then the limit and
      the skip if they are paginated. */
  method BuildQuery(engine: Engine, entityClass: string, options: SearchOptions) returns (q: Query)
    requires options.Options?
    ensures fresh(q) && q.Shape() == SearchQuery(engine, entityClass, options)
  {
    q := BuildBaseQuery(engine, entityClass, options);
    var sort := options.sort;
    if sort.IsSorted() {
      q.With(BuildSort(sort));
    }
    var pagination := options.pagination;
    if pagination.IsPaginated() {
      q.Limit(pagination.size);
      q.Skip(pagination.Offset());
    }
  }

  /** `search`: both arguments must be non-null (the class is checked first); the entities
      are those the template finds for the search query. */
  method Search(engine: Engine, entityClass: Option<string>, options: Option<SearchOptions>)
    returns (r: Result<seq<Entity>, Exception>)
    requires options.Some? ==> options.value.Options?
    ensures entityClass.None? ==> r == Failure(NullPointer("Entity class cannot be null"))
    ensures entityClass.Some? && options.None? ==> r == Failure(NullPointer("Options cannot be null"))
    ensures entityClass.Some? && options.Some? ==>
              r == Success(engine.find(SearchQuery(engine, entityClass.value, options.value), entityClass.value))
  {
    if entityClass.None? {
      return Failure(NullPointer("Entity class cannot be null"));
    }
    if options.None? {
      return Failure(NullPointer("Options cannot be null"));
    }
    var query := BuildQuery(engine, entityClass.value, options.value);
    r := Success(engine.find(query.Shape(), entityClass.value));
  }

  /** `count`: both arguments must be non-null (the class is checked first); the number is
      the template's count for the count query. */
  method Count(engine: Engine, entityClass: Option<string>, options: Option<SearchOptions>)
    returns (r: Result<nat, Exception>)
    ensures entityClass.None? ==> r == Failure(NullPointer("Entity class cannot be null"))
    ensures entityClass.Some? && options.None? ==> r == Failure(NullPointer("Options cannot be null"))
    ensures entityClass.Some? && options.Some? ==>
              r == Success(engine.count(CountQuery(engine, entityClass.value, options.value), entityClass.value))
  {
    if entityClass.None? {
      return Failure(NullPointer("Entity class cannot be null"));
    }
    if options.None? {
      return Failure(NullPointer("Options cannot be null"));
    }
    var query := BuildBaseQuery(engine, entityClass.value, options.value);
    r := Success(engine.count(query.Shape(), entityClass.value));
  }

  /** The count ignores paging and sorting: full options count what their base options
      (the same search text and query) count. */
  lemma CountIgnoresPaging(engine: Engine, entityClass: string, search: Option<string>,
                           query: Option<Node>, pagination: Pagination, sort: Sort)
    ensures CountQuery(engine, entityClass, Options(search, query, pagination, sort))
            == CountQuery(engine, entityClass, BaseOptions(search, query))
  {
  }

  /** For the same search text and query, `search` and `count` filter alike, and with neither
      paging nor sorting they run the very same query. */
  lemma SearchRefinesCount(engine: Engine, entityClass: string, options: SearchOptions)
    requires options.Options?
    ensures SearchQuery(engine, entityClass, options).filter == CountQuery(engine, entityClass, options).filter
    ensures !options.sort.IsSorted() && !options.pagination.IsPaginated() ==>
              SearchQuery(engine, entityClass, options) == CountQuery(engine, entityClass, options)
  {
  }

  /** The query of a Spring paging request, once turned into OmniSearch options, carries the
      request's sort properties, directions and their sequence, each order reset to the
      default flags, and its page window; its sort is the request's own exactly when no order
      ignores case or places nulls. */
  lemma SearchQueryOfPageable(engine: Engine, entityClass: string, search: Option<string>,
                              pageable: Pageable, query: Option<Node>)
    ensures var q := SearchQuery(engine, entityClass, Factory.Create(search, pageable, query));
            q.sort == pageable.sort.WithDefaultFlags()
            && (pageable.PageRequest? ==> q.limit == pageable.pageSize && q.skip == pageable.Offset())
            && (pageable.Unpaged? ==> q.limit == 0 && q.skip == 0)
    ensures var q := SearchQuery(engine, entityClass, Factory.Create(search, pageable, query));
            q.sort == pageable.sort <==>
            forall i :: 0 <= i < |pageable.sort.orders| ==> pageable.sort.orders[i].HasDefaultFlags()
  {
    Factory.OrdersRoundTrip(pageable.sort.orders);
    Factory.OrdersRoundTripExact(pageable.sort.orders);
  }
}
