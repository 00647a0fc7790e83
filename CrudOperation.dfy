/** The seven operation kinds a CRUD call is classified as, with their read/write flags. */
module CrudOperation {

  datatype CrudOperation = CREATE | UPDATE | DELETE | PAGE | FIND | COUNT | EXISTS

  /** All constants, in declaration order. */
  const Values: seq<CrudOperation> := [CREATE, UPDATE, DELETE, PAGE, FIND, COUNT, EXISTS]

  /** The `write` flag given to each constant. */
  function Write(op: CrudOperation): bool {
    match op
    case CREATE => true
    case UPDATE => true
    case DELETE => true
    case PAGE => false
    case FIND => false
    case COUNT => false
    case EXISTS => false
  }

  /** The `read` flag given to each constant. */
  function Read(op: CrudOperation): bool {
    match op
    case CREATE => false
    case UPDATE => false
    case DELETE => false
    case PAGE => true
    case FIND => true
    case COUNT => true
    case EXISTS => true
  }

  /** Reads without writing. */
  function IsReadOnly(op: CrudOperation): (r: bool)
    ensures r <==> op in {PAGE, FIND, COUNT, EXISTS}
  {
    Read(op) && !Write(op)
  }

  /** Writes without reading. */
  function IsWriteOnly(op: CrudOperation): (r: bool)
    ensures r <==> op in {CREATE, UPDATE, DELETE}
  {
    Write(op) && !Read(op)
  }

  /** The create, update and delete constants are flagged write and not read. */
  lemma WriteConstants(op: CrudOperation)
    requires op in {CREATE, UPDATE, DELETE}
    ensures Write(op) && !Read(op)
  {
  }

  /** The page, find, count and exists constants are flagged read and not write. */
  lemma ReadConstants(op: CrudOperation)
    requires op in {PAGE, FIND, COUNT, EXISTS}
    ensures Read(op) && !Write(op)
  {
  }

  /** Every constant is exactly one of read-only and write-only. */
  lemma ExactlyOneClassification(op: CrudOperation)
    ensures IsReadOnly(op) != IsWriteOnly(op)
  {
  }

  /** Across the seven constants, the write-only ones are exactly create, update and delete,
      and the read-only ones are the other four. */
  lemma Partition()
    ensures |Values| == 7
    ensures (set op | op in Values && IsWriteOnly(op)) == {CREATE, UPDATE, DELETE}
    ensures (set op | op in Values && IsReadOnly(op)) == {PAGE, FIND, COUNT, EXISTS}
  {
    var w := set op | op in Values && IsWriteOnly(op);
    assert CREATE in w && UPDATE in w && DELETE in w;
    var r := set op | op in Values && IsReadOnly(op);
    assert PAGE in r && FIND in r && COUNT in r && EXISTS in r;
  }
}
