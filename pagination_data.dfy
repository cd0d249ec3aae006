/** The `PaginationData` record: a page index and a page size, and the offset they give. */
module PaginationModel {
  import opened Int32

  /** The positional record `PaginationData(int Index, int Size)`; it checks neither field. */
  datatype PaginationData = PaginationData(index: Int32, size: Int32)

  /**
   * `Offset => (Index - 1) * Size`, evaluated as C# does by default: in
   * unchecked Int32 arithmetic, so the subtraction and the product wrap.
   */
  function Offset(p: PaginationData): (r: Int32)
    ensures r == Wrap((p.index - 1) * p.size)
    ensures InRange((p.index - 1) * p.size) ==> r == (p.index - 1) * p.size
  {
    WrapMulLeft(p.index - 1, p.size);
    Mul(Sub(p.index, 1), p.size)
  }

  /** The rule the unit tests expect of the constructor; the record as written does not enforce it. */
  predicate IsValid(index: int, size: int)
    ensures IsValid(index, size) ==> ((index - 1) * size < 0 <==> index == 0)
  {
    index >= 0 && size >= 1
  }

  /** The first page starts at offset 0, whatever its size. */
  lemma FirstPageOffset(size: Int32)
    ensures Offset(PaginationData(1, size)) == 0
  {
  }

  /** Each next page starts `size` further on (in wrapping arithmetic). */
  lemma NextPageOffset(index: Int32, size: Int32)
    requires index < MAX
    ensures Offset(PaginationData(index + 1, size)) == Add(Offset(PaginationData(index, size)), size)
  {
    assert index * size == (index - 1) * size + size;
    WrapAddLeft((index - 1) * size, size);
  }

  /** Without overflow, each next page starts exactly `size` further on. */
  lemma NextPageOffsetExact(index: Int32, size: Int32)
    requires index < MAX
    requires InRange((index - 1) * size) && InRange(index * size)
    ensures Offset(PaginationData(index + 1, size)) == Offset(PaginationData(index, size)) + size
  {
    assert index * size == (index - 1) * size + size;
  }

  /** Index 0 is accepted by the tests' rule and gives the negative offset `-size`, not clamped. */
  lemma IndexZeroOffset(size: Int32)
    requires IsValid(0, size)
    ensures Offset(PaginationData(0, size)) == -(size as int) < 0
  {
    assert (0 - 1) * size == -(size as int);
    assert InRange(-(size as int));
  }

  /** The offsets the unit tests expect. */
  lemma OffsetExamples()
    ensures Offset(PaginationData(1, 20)) == 0
    ensures Offset(PaginationData(2, 20)) == 20
    ensures Offset(PaginationData(4, 20)) == 60
  {
  }

  /** The index/size pairs the unit tests accept and reject. */
  lemma ValidityExamples()
    ensures IsValid(0, 1) && IsValid(10, 25) && IsValid(1, 1)
    ensures !IsValid(-1, 1) && !IsValid(-1, -1) && !IsValid(1, -1)
  {
  }

  /** The record stores its fields unchanged and is equal to another exactly when their fields are. */
  lemma RecordSemantics(index: Int32, size: Int32, other: PaginationData)
    ensures PaginationData(index, size).index == index && PaginationData(index, size).size == size
    ensures PaginationData(index, size) == other <==> index == other.index && size == other.size
  {
  }

  /** The record as written builds the pairs the tests expect the constructor to reject. */
  lemma ConstructorDoesNotValidate()
    ensures exists p: PaginationData :: !IsValid(p.index, p.size)
  {
    var p := PaginationData(-1, 1);
    assert !IsValid(p.index, p.size);
  }
}
