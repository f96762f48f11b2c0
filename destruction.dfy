/** What destroying a record or an array of records does, as traces: which
    slots have their destructor run, which record offsets are handed to
    `drop_in_place`, and with which layout the block is released. Both the
    behaviour as written and the intended behaviour are defined, with lemmas
    showing where they part. */
module Destruction {
  import opened Faults
  import opened AllocLayout
  import opened DstData

  /** One destructor run on a slot of a record. */
  datatype SlotDrop = DropHeader | DropFooter(index: nat)

  /** The footer elements destroyed in index order, as `drop_in_place` on a
      slice `[F]` does. */
  function FooterDrops(count: nat): (d: seq<SlotDrop>)
    ensures |d| == count && forall k :: 0 <= k < count ==> d[k] == DropFooter(k)
  {
    seq(count, k requires 0 <= k => DropFooter(k))
  }

  /** Every slot of a record of footer length `count` is destroyed exactly
      once, and nothing else is. */
  predicate DropsEachSlotOnce(d: seq<SlotDrop>, count: nat) {
    (forall i, j :: 0 <= i < j < |d| ==> d[i] != d[j]) &&
    DropHeader in d &&
    (forall k :: 0 <= k < count ==> DropFooter(k) in d) &&
    (forall e :: e in d ==> e.DropHeader? || e.index < count)
  }

  /** `drop_in_place::<DstData<H, F>>` as written: the `Drop` impl of
      `DstData` destroys the footer slice, and afterwards Rust's drop glue
      destroys every field in declaration order, the header and then the
      footer slice again. */
  function DropInPlaceAsWritten(count: nat): seq<SlotDrop> {
    FooterDrops(count) + [DropHeader] + FooterDrops(count)
  }

  /** The intended destruction of one record: every field once, the header
      first and then the footer elements in index order (what the drop glue
      alone does). */
  function DropInPlace(count: nat): seq<SlotDrop> {
    [DropHeader] + FooterDrops(count)
  }

  /** The intended destruction runs each destructor exactly once, footer
      elements in index order. */
  lemma DropInPlaceOnce(count: nat)
    ensures DropsEachSlotOnce(DropInPlace(count), count)
    ensures forall k :: 0 <= k < count ==> DropInPlace(count)[k + 1] == DropFooter(k)
  {
    var d := DropInPlace(count);
    assert |d| == count + 1 && d[0] == DropHeader;
    assert forall i :: 1 <= i < |d| ==> d[i] == DropFooter(i - 1);
    forall i, j | 0 <= i < j < |d|
      ensures d[i] != d[j]
    {
      assert d[j] == DropFooter(j - 1);
    }
    forall k | 0 <= k < count
      ensures DropFooter(k) in d
    {
      assert d[k + 1] == DropFooter(k);
    }
  }

  /** As written, a record with a footer has its first footer element
      destroyed twice (and so does every other element). */
  lemma DropInPlaceAsWrittenDropsTwice(count: nat)
    requires count >= 1
    ensures var d := DropInPlaceAsWritten(count);
      d[0] == DropFooter(0) && d[count + 1] == DropFooter(0) && !DropsEachSlotOnce(d, count)
  {
    var d := DropInPlaceAsWritten(count);
    assert d[count + 1] == FooterDrops(count)[0];
  }

  // ---------------------------------------------------------------------
  // Arrays of records

  /** The trace of destroying an array: the byte offsets of the records
      handed to `drop_in_place`, in order, and the layout passed to
      `dealloc`. */
  datatype ArrayDrop = ArrayDrop(destroyed: seq<nat>, freed: Layout)

  /** `DstArray::drop` as written: the pointer starts one stride into the
      block and advances by a stride `len` times; then `get_footer_len`
      looks at record 0, which panics on an empty array; the block is freed
      with the layout of a single record. */
  function ArrayDropAsWritten(h: Layout, f: Layout, count: nat, len: nat): (r: Result<ArrayDrop>)
    requires HasLayout(h, f, count)
  {
    if len == 0 then Err(RecordIndexOutOfBounds)
    else Ok(ArrayDrop(OffsetsAsWritten(Stride(h, f, count), len), LayoutOf(h, f, count).value))
  }

  /** The offsets the loop of `DstArray::drop` visits as written: the
      pointer starts at `byte_add(stride)`, so step `i` is at record `i + 1`. */
  function OffsetsAsWritten(stride: nat, len: nat): (d: seq<nat>)
    ensures |d| == len && forall i :: 0 <= i < len ==> d[i] == RecordOffset(stride, i + 1)
  {
    seq(len, i requires 0 <= i => RecordOffset(stride, i + 1))
  }

  /** The offsets the loop should visit: step `i` at record `i`. */
  function Offsets(stride: nat, len: nat): (d: seq<nat>)
    ensures |d| == len && forall i :: 0 <= i < len ==> d[i] == RecordOffset(stride, i)
  {
    seq(len, i requires 0 <= i => RecordOffset(stride, i))
  }

  /** For records of non-zero size the loop as written never reaches offset
      0, and its last step is `len` strides into the block. */
  lemma OffsetsAsWrittenMissFirst(stride: nat, len: nat)
    requires len >= 1 && stride > 0
    ensures 0 !in OffsetsAsWritten(stride, len)
    ensures OffsetsAsWritten(stride, len)[len - 1] == stride * len
  {
    var d := OffsetsAsWritten(stride, len);
    forall i | 0 <= i < len
      ensures d[i] != 0
    {
      MulMonotone(1, i + 1, stride);
    }
  }

  /** The intended destruction of an array: every record from index 0 to
      `len - 1`, then the block freed with the layout it was allocated
      with. */
  function ArrayDropIntended(h: Layout, f: Layout, count: nat, len: nat): (d: ArrayDrop)
    requires IsTypeLayout(h) && IsTypeLayout(f) && ArrayLayout(h, f, count, len).Ok?
  {
    ArrayDrop(Offsets(Stride(h, f, count), len), ArrayLayout(h, f, count, len).value)
  }

  /** The intended destruction visits record `i` at step `i`, for every
      index below `len` and no other, each at its own offset inside the
      block, and frees the block with its allocation layout. */
  lemma ArrayDropIntendedCorrect(h: Layout, f: Layout, count: nat, len: nat)
    requires IsTypeLayout(h) && IsTypeLayout(f) && ArrayLayout(h, f, count, len).Ok?
    ensures var d := ArrayDropIntended(h, f, count, len);
      var stride := Stride(h, f, count);
      |d.destroyed| == len &&
      (forall i :: 0 <= i < len ==> d.destroyed[i] == RecordOffset(stride, i)) &&
      (forall i :: 0 <= i < len ==> d.destroyed[i] + stride <= d.freed.size) &&
      (forall i, j :: 0 <= i < j < len ==> Disjoint(d.destroyed[i], stride, d.destroyed[j], stride)) &&
      d.freed == ArrayLayout(h, f, count, len).value
  {
    var d := ArrayDropIntended(h, f, count, len);
    var stride := Stride(h, f, count);
    forall i | 0 <= i < len
      ensures d.destroyed[i] + stride <= d.freed.size
    {
      RecordInsideBlock(h, f, count, len, i);
    }
    forall i, j | 0 <= i < j < len
      ensures Disjoint(d.destroyed[i], stride, d.destroyed[j], stride)
    {
      RecordsDisjoint(stride, i, j);
    }
  }

  /** As written, for records of non-zero size: record 0 is never
      destroyed, and the last offset handed to `drop_in_place` is the end of
      the block, one record past the last one. */
  lemma ArrayDropAsWrittenMissesFirst(h: Layout, f: Layout, count: nat, len: nat)
    requires IsTypeLayout(h) && IsTypeLayout(f) && ArrayLayout(h, f, count, len).Ok?
    requires len >= 1 && Stride(h, f, count) > 0
    ensures var r := ArrayDropAsWritten(h, f, count, len);
      r.Ok? && RecordOffset(Stride(h, f, count), 0) !in r.value.destroyed &&
      r.value.destroyed[len - 1] == ArrayLayout(h, f, count, len).value.size
  {
    OffsetsAsWrittenMissFirst(Stride(h, f, count), len);
  }

  /** As written, an array of two or more records of non-zero size is freed
      with a smaller layout than it was allocated with. */
  lemma ArrayDropAsWrittenFreesWrongLayout(h: Layout, f: Layout, count: nat, len: nat)
    requires IsTypeLayout(h) && IsTypeLayout(f) && ArrayLayout(h, f, count, len).Ok?
    requires len >= 2 && Stride(h, f, count) > 0
    ensures var r := ArrayDropAsWritten(h, f, count, len);
      r.Ok? && r.value.freed.size < ArrayLayout(h, f, count, len).value.size
  {
    MulMonotone(2, len, Stride(h, f, count));
  }

  /** As written, dropping an empty array panics before the block is
      freed. */
  lemma ArrayDropAsWrittenPanicsWhenEmpty(h: Layout, f: Layout, count: nat)
    requires HasLayout(h, f, count)
    ensures ArrayDropAsWritten(h, f, count, 0) == Err(RecordIndexOutOfBounds)
  {
  }

  /** The array of the source's own test: headers `u32`, footers of two `u8`,
      two records. As written, offsets 8 and 16 are destroyed in a block of
      16 bytes and 8 bytes are freed. */
  lemma ArrayDropAsWrittenExample()
    ensures HasLayout(Layout(4, 4), Layout(1, 1), 2)
    ensures Stride(Layout(4, 4), Layout(1, 1), 2) == 8
    ensures ArrayLayout(Layout(4, 4), Layout(1, 1), 2, 2) == Ok(Layout(16, 4))
    ensures ArrayDropAsWritten(Layout(4, 4), Layout(1, 1), 2, 2) == Ok(ArrayDrop([8, 16], Layout(8, 4)))
    ensures ArrayDropIntended(Layout(4, 4), Layout(1, 1), 2, 2) == ArrayDrop([0, 8], Layout(16, 4))
  {
    var h, f := Layout(4, 4), Layout(1, 1);
    assert IsPowerOfTwo(4) && IsPowerOfTwo(1);
    assert FooterOffset(h, f) == 4;
    assert LayoutOf(h, f, 2) == Ok(Layout(8, 4));
    var asWritten := ArrayDropAsWritten(h, f, 2, 2).value.destroyed;
    assert asWritten[0] == 8 && asWritten[1] == 16;
    assert asWritten == [8, 16];
    var intended := ArrayDropIntended(h, f, 2, 2).destroyed;
    assert intended[0] == 0 && intended[1] == 8;
    assert intended == [0, 8];
  }
}
