/** The values the CRUD layer passes around: entities and DTOs, the parsed RSQL query, Spring
    Data's paging and sorting requests and pages, OmniSearch's options, and the exceptions. */
module Domain {
  import opened Wrappers

  // ----- Entities and DTOs -----

  /** Identifiers are generated by the store (an IDENTITY column). */
  type Id = nat

  /** The persistent properties of an entity (the identifier apart), by property name. */
  type Fields = map<string, string>

  /** The body of a create or update request, by property name. */
  type Dto = map<string, string>

  /** A stored entity, as read back from the store. */
  datatype Entity = Entity(id: Id, fields: Fields)

  /** The parsed RSQL query handed over by the RSQL parser: comparisons joined by and/or. */
  datatype Node =
    | Comparison(selector: string, operator: string, arguments: seq<string>)
    | And(children: seq<Node>)
    | Or(children: seq<Node>)

  // ----- Spring Data paging and sorting -----

  datatype Direction = ASC | DESC

  /** Where null values go in a sorted result; NATIVE leaves it to the store. */
  datatype NullHandling = NATIVE | NULLS_FIRST | NULLS_LAST

  /** `Sort.Order`: a property, a direction, whether the comparison ignores case, and where
      nulls go. */
  datatype SpringOrder = SpringOrder(property: string, direction: Direction, ignoreCase: bool,
                                     nullHandling: NullHandling) {
    predicate IsAscending() { direction == ASC }

    /** The flags `Sort.Order.asc` and `Sort.Order.desc` give: case-sensitive, native null
        handling. */
    predicate HasDefaultFlags() { !ignoreCase && nullHandling == NATIVE }

    /** The same property and direction with the default flags. */
    function WithDefaultFlags(): (o: SpringOrder)
      ensures o.HasDefaultFlags() && o.property == property && o.direction == direction
      ensures HasDefaultFlags() ==> o == this
    {
      this.(ignoreCase := false, nullHandling := NATIVE)
    }
  }

  datatype SpringSort = SpringSort(orders: seq<SpringOrder>) {
    predicate IsUnsorted() { orders == [] }

    /** The same orders, in the same sequence, each with the default flags. */
    function WithDefaultFlags(): (s: SpringSort)
      ensures |s.orders| == |orders|
      ensures forall i :: 0 <= i < |orders| ==> s.orders[i] == orders[i].WithDefaultFlags()
    {
      SpringSort(seq(|orders|, i requires 0 <= i < |orders| => orders[i].WithDefaultFlags()))
    }
  }

  /** A page size is at least one. */
  type PageSize = n: nat | n >= 1 witness 1

  /** A paging request: a page number and size, or "unpaged"; either carries a sort. */
  datatype Pageable =
    | PageRequest(pageNumber: nat, pageSize: PageSize, sort: SpringSort)
    | Unpaged(sort: SpringSort)
  {
    predicate IsUnpaged() { Unpaged? }

    /** The index of the first element of the requested page. */
    function Offset(): nat
      requires PageRequest?
    {
      pageNumber * pageSize
    }
  }

  /** A page of results: its content, the request it answers and the total number of
      matching elements. */
  datatype Page = Page(content: seq<Entity>, pageable: Pageable, total: nat)

  /** `new PageImpl(content, pageable, total)`: for a paged request with a non-empty content
      whose page reaches past `total`, the total is corrected to offset plus content size. */
  function PageImpl(content: seq<Entity>, pageable: Pageable, total: nat): (p: Page)
    ensures p.content == content && p.pageable == pageable
  {
    if pageable.PageRequest? && content != [] && pageable.Offset() + pageable.pageSize > total
    then Page(content, pageable, pageable.Offset() + |content|)
    else Page(content, pageable, total)
  }

  /** Whether `PageableExecutionUtils.getPage` has to call its count supplier: it does not
      when the content alone determines the total (first or unpaged page shorter than the page
      size, or a non-empty later page shorter than the page size). */
  predicate NeedsCount(content: seq<Entity>, pageable: Pageable) {
    if pageable.Unpaged? then false
    else if pageable.Offset() == 0 then pageable.pageSize <= |content|
    else content == [] || pageable.pageSize <= |content|
  }

  /** `PageableExecutionUtils.getPage(content, pageable, totalSupplier)`, with `count` the value
      the supplier would return; it is used only when NeedsCount holds. */
  function GetPage(content: seq<Entity>, pageable: Pageable, count: nat): (p: Page)
    ensures p.content == content && p.pageable == pageable
    ensures !NeedsCount(content, pageable) ==>
              p.total == (if pageable.Unpaged? then 0 else pageable.Offset()) + |content|
  {
    if pageable.Unpaged? then PageImpl(content, pageable, |content|)
    else if pageable.Offset() == 0 then
      if pageable.pageSize > |content| then PageImpl(content, pageable, |content|)
      else PageImpl(content, pageable, count)
    else if content != [] && pageable.pageSize > |content| then
      PageImpl(content, pageable, pageable.Offset() + |content|)
    else PageImpl(content, pageable, count)
  }

  /** The slice of `all` that a paging request selects. */
  function Window<T>(all: seq<T>, pageable: Pageable): (w: seq<T>)
    ensures pageable.Unpaged? ==> w == all
    ensures pageable.PageRequest? ==> |w| <= pageable.pageSize
  {
    if pageable.Unpaged? then all
    else
      var lo := if pageable.Offset() < |all| then pageable.Offset() else |all|;
      var hi := if pageable.Offset() + pageable.pageSize < |all| then pageable.Offset() + pageable.pageSize else |all|;
      all[lo..hi]
  }

  // ----- OmniSearch -----

  /** An OmniSearch sort order. */
  datatype Order = Order(property: string, ascending: bool)

  /** An OmniSearch sort; `Sort.unsorted()` has no orders. */
  datatype Sort = Sort(orders: seq<Order>) {
    predicate IsSorted() { orders != [] }
  }

  /** An OmniSearch page request, or `Pagination.unpaginated()`. */
  datatype Pagination = Unpaginated | Paginated(number: nat, size: nat) {
    predicate IsPaginated() { Paginated? }

    function Offset(): nat
      requires Paginated?
    {
      number * size
    }
  }

  /** `OmniSearchBaseOptions` (a free-text search and an RSQL query) and its subclass
      `OmniSearchOptions`, which adds a pagination and a sort. */
  datatype SearchOptions =
    | BaseOptions(search: Option<string>, query: Option<Node>)
    | Options(search: Option<string>, query: Option<Node>, pagination: Pagination, sort: Sort)

  // ----- Exceptions -----

  datatype Exception =
    | NotFoundEntity(modelClass: string, id: Id)    // NotFoundEntityException(class, id)
    | AccessDenied(message: string)                 // from the authorization manager
    | NullPointer(message: string)
    | IllegalArgument(message: string)
    | Thrown(message: string)                       // anything raised by code outside this layer

  /** A call into code outside this layer: it throws `error` when there is one, and otherwise
      returns `value`. */
  function Throwing<T>(error: Option<Exception>, value: T): (r: Result<T, Exception>)
    ensures r.Success? <==> error.None?
    ensures r.Success? ==> r.value == value
    ensures r.Failure? ==> r.error == error.value
  {
    match error
    case None => Success(value)
    case Some(ex) => Failure(ex)
  }
}
