/** The layout of one variable-length record (`DstData`): a header of layout
    `h` followed by `count` footer elements of layout `f`, padded to the
    alignment of both. Also the layout of a block of records repeated at a
    uniform stride, where each header and footer element lives in such a
    block, and what the allocator hands back. */
module DstData {
  import opened Faults
  import opened AllocLayout

  /** Byte offset of the footer inside a record: the header's size rounded
      up to the footer element's alignment (the offset `extend` reports). */
  function FooterOffset(h: Layout, f: Layout): nat
    requires f.align >= 1
  {
    RoundUp(h.size, f.align)
  }

  /** Alignment of a record: the larger of the two alignments. */
  function RecordAlign(h: Layout, f: Layout): nat {
    Max(h.align, f.align)
  }

  /** `DstData::layout_of(count)`: `Layout::new::<H>()` extended by
      `Layout::array::<F>(count)`, then padded to its alignment. It fails
      exactly when the padded record would not fit in an `isize`; when it
      succeeds the size is the true, unwrapped, size. */
  function LayoutOf(h: Layout, f: Layout, count: nat): (r: Result<Layout>)
    requires IsTypeLayout(h) && IsTypeLayout(f)
    ensures r.Ok? <==> FooterOffset(h, f) + count * f.size <= MaxSizeForAlign(RecordAlign(h, f))
    ensures r.Err? ==> r.error == LayoutError
    ensures r.Ok? ==> ValidLayout(r.value) && r.value.align == RecordAlign(h, f)
    ensures r.Ok? ==> r.value.size % r.value.align == 0
    ensures r.Ok? ==> h.size <= FooterOffset(h, f) && FooterOffset(h, f) % f.align == 0
    ensures r.Ok? ==>
      FooterOffset(h, f) + count * f.size <= r.value.size < FooterOffset(h, f) + count * f.size + RecordAlign(h, f)
  {
    match ArrayOf(f, count)
    case Err(e) => Err(e)
    case Ok(footer) =>
      match Extend(h, footer)
      case Err(e) => Err(e)
      case Ok((record, _)) => Ok(PadToAlign(record))
  }

  /** Whether `layout_of(count)` succeeds for these type layouts (stated
      arithmetically; `LayoutOf` proves the two agree). */
  predicate HasLayout(h: Layout, f: Layout, count: nat) {
    IsTypeLayout(h) && IsTypeLayout(f) &&
    FooterOffset(h, f) + count * f.size <= MaxSizeForAlign(RecordAlign(h, f))
  }

  /** `get_stride`: the size of one record, which is also the distance
      between consecutive records of an array. Header and footer fit in it,
      and it keeps every record aligned. */
  function Stride(h: Layout, f: Layout, count: nat): (stride: nat)
    requires HasLayout(h, f, count)
    ensures stride % RecordAlign(h, f) == 0
    ensures FooterOffset(h, f) + count * f.size <= stride <= ISIZE_MAX
  {
    LayoutOf(h, f, count).value.size
  }

  /** The layout `alloc_self_array` allocates: `layout_of(count)` repeated
      `arraySize` times. */
  function ArrayLayout(h: Layout, f: Layout, count: nat, arraySize: nat): (r: Result<Layout>)
    requires IsTypeLayout(h) && IsTypeLayout(f)
    ensures r.Ok? <==>
      LayoutOf(h, f, count).Ok? && Stride(h, f, count) * arraySize <= MaxSizeForAlign(RecordAlign(h, f))
    ensures r.Err? ==> r.error == LayoutError
    ensures r.Ok? ==>
      ValidLayout(r.value) && r.value.align == RecordAlign(h, f) &&
      r.value.size == Stride(h, f, count) * arraySize
  {
    match LayoutOf(h, f, count)
    case Err(e) => Err(e)
    case Ok(record) =>
      RoundUpOfMultiple(record.size, record.align);
      match Repeat(record, arraySize)
      case Err(e) => Err(e)
      case Ok((block, _)) => Ok(block)
  }

  /** A single record is allocated with the same layout as an array of one
      record. */
  lemma SingleRecordArray(h: Layout, f: Layout, count: nat)
    requires HasLayout(h, f, count)
    ensures ArrayLayout(h, f, count, 1) == LayoutOf(h, f, count)
  {
    var record := LayoutOf(h, f, count).value;
    assert Stride(h, f, count) * 1 == record.size;
  }

  // ---------------------------------------------------------------------
  // Allocation

  /** `alloc_self`'s handling of the allocator's answer (an address, 0 for
      null): a null answer aborts through `handle_alloc_error`. */
  function AllocSelf(answer: nat): (r: Result<nat>)
    ensures r.Ok? <==> answer != 0
    ensures r.Ok? ==> r.value == answer
    ensures r.Err? ==> r.error == AllocFailure
  {
    if answer == 0 then Err(AllocFailure) else Ok(answer)
  }

  /** `alloc_self_array` as written: the answer is used without a null
      check. */
  function AllocSelfArrayAsWritten(answer: nat): (r: Result<nat>)
    ensures r.Ok? && r.value == answer
  {
    Ok(answer)
  }

  /** A null answer is turned into a record array whose base is null. */
  lemma AllocSelfArrayAcceptsNull()
    ensures AllocSelfArrayAsWritten(0) == Ok(0) && AllocSelf(0) == Err(AllocFailure)
  {
  }

  // ---------------------------------------------------------------------
  // Where records and their slots live inside a block

  /** Byte offset of record `i` from the start of its block:
      `ptr.byte_add(stride * arr_index)`. */
  function RecordOffset(stride: nat, i: nat): nat {
    stride * i
  }

  /** The byte range `[a, a + n)` lies entirely before or after `[b, b + m)`. */
  predicate Disjoint(a: nat, n: nat, b: nat, m: nat) {
    a + n <= b || b + m <= a
  }

  lemma MulMonotone(x: nat, y: nat, m: nat)
    requires x <= y
    ensures x * m <= y * m
  {
    assert y * m - x * m == (y - x) * m;
  }

  /** Every record of an array of `arraySize` records lies inside the block
      `alloc_self_array` allocated. */
  lemma RecordInsideBlock(h: Layout, f: Layout, count: nat, arraySize: nat, i: nat)
    requires IsTypeLayout(h) && IsTypeLayout(f) && ArrayLayout(h, f, count, arraySize).Ok?
    requires i < arraySize
    ensures RecordOffset(Stride(h, f, count), i) + Stride(h, f, count) <= ArrayLayout(h, f, count, arraySize).value.size
  {
    var s := Stride(h, f, count);
    MulMonotone(i + 1, arraySize, s);
    assert (i + 1) * s == s * i + s;
  }

  /** Two distinct records of an array occupy disjoint byte ranges. */
  lemma {:induction false} RecordsDisjoint(stride: nat, i: nat, j: nat)
    requires i != j
    ensures Disjoint(RecordOffset(stride, i), stride, RecordOffset(stride, j), stride)
  {
    if i < j {
      MulMonotone(i + 1, j, stride);
      assert (i + 1) * stride == stride * i + stride;
    } else {
      MulMonotone(j + 1, i, stride);
      assert (j + 1) * stride == stride * j + stride;
    }
  }

  /** A place in a block: the header, or footer element `index`, of the
      record at index `rec`. */
  datatype Slot = HeaderSlot(rec: nat) | FooterSlot(rec: nat, index: nat)

  /** The slot exists in a block of `records` records of footer length
      `count`. */
  predicate SlotInBlock(s: Slot, count: nat, records: nat) {
    s.rec < records && (s.FooterSlot? ==> s.index < count)
  }

  /** Byte offset of a slot from the start of the block: the header sits at
      the start of its record (`repr(C)`), footer element `k` at the footer
      offset plus `k` elements. */
  function SlotOffset(h: Layout, f: Layout, count: nat, s: Slot): nat
    requires HasLayout(h, f, count)
  {
    RecordOffset(Stride(h, f, count), s.rec) + OffsetInRecord(h, f, s)
  }

  /** Byte offset of a slot from the start of its own record. */
  function OffsetInRecord(h: Layout, f: Layout, s: Slot): nat
    requires f.align >= 1
  {
    if s.HeaderSlot? then 0 else ElementOffset(h, f, s.index)
  }

  /** Byte offset of footer element `k` from the start of its record. */
  function ElementOffset(h: Layout, f: Layout, k: nat): nat
    requires f.align >= 1
  {
    FooterOffset(h, f) + k * f.size
  }

  function SlotSize(h: Layout, f: Layout, s: Slot): nat {
    if s.HeaderSlot? then h.size else f.size
  }

  function SlotAlign(h: Layout, f: Layout, s: Slot): nat {
    if s.HeaderSlot? then h.align else f.align
  }

  /** Every slot lies inside its own record. */
  lemma SlotInsideRecord(h: Layout, f: Layout, count: nat, s: Slot)
    requires HasLayout(h, f, count) && (s.FooterSlot? ==> s.index < count)
    ensures var start := RecordOffset(Stride(h, f, count), s.rec);
      start <= SlotOffset(h, f, count, s) &&
      SlotOffset(h, f, count, s) + SlotSize(h, f, s) <= start + Stride(h, f, count)
  {
    var stride := Stride(h, f, count);
    assert SlotOffset(h, f, count, s) == RecordOffset(stride, s.rec) + OffsetInRecord(h, f, s);
    SlotFitsRecord(h, f, count, s);
  }

  /** Header and footer elements end before the record's footer does. */
  lemma SlotFitsRecord(h: Layout, f: Layout, count: nat, s: Slot)
    requires f.align >= 1 && (s.FooterSlot? ==> s.index < count)
    ensures OffsetInRecord(h, f, s) + SlotSize(h, f, s) <= FooterOffset(h, f) + count * f.size
  {
    if s.FooterSlot? {
      MulMonotone(s.index + 1, count, f.size);
      assert (s.index + 1) * f.size == s.index * f.size + f.size;
    } else {
      assert count * f.size >= 0;
    }
  }

  /** Two distinct slots of a block never share a byte: writing one leaves
      every other one as it was. */
  lemma SlotsDisjoint(h: Layout, f: Layout, count: nat, s1: Slot, s2: Slot)
    requires HasLayout(h, f, count)
    requires (s1.FooterSlot? ==> s1.index < count) && (s2.FooterSlot? ==> s2.index < count)
    requires s1 != s2
    ensures Disjoint(SlotOffset(h, f, count, s1), SlotSize(h, f, s1), SlotOffset(h, f, count, s2), SlotSize(h, f, s2))
  {
    var stride := Stride(h, f, count);
    if s1.rec != s2.rec {
      SlotInsideRecord(h, f, count, s1);
      SlotInsideRecord(h, f, count, s2);
      RecordsDisjoint(stride, s1.rec, s2.rec);
    } else {
      SlotsOfOneRecordDisjoint(h, f, s1, s2);
    }
  }

  /** Two distinct slots of one record do not overlap: the footer starts
      after the header, and footer elements follow one another. */
  lemma SlotsOfOneRecordDisjoint(h: Layout, f: Layout, s1: Slot, s2: Slot)
    requires f.align >= 1 && s1 != s2 && s1.rec == s2.rec
    ensures Disjoint(OffsetInRecord(h, f, s1), SlotSize(h, f, s1), OffsetInRecord(h, f, s2), SlotSize(h, f, s2))
  {
    if s1.FooterSlot? && s2.FooterSlot? {
      ElementsDisjoint(h, f, s1.index, s2.index);
    }
  }

  /** Two distinct footer elements of one record do not overlap. */
  lemma ElementsDisjoint(h: Layout, f: Layout, k1: nat, k2: nat)
    requires f.align >= 1 && k1 != k2
    ensures Disjoint(ElementOffset(h, f, k1), f.size, ElementOffset(h, f, k2), f.size)
  {
    if k1 < k2 {
      MulMonotone(k1 + 1, k2, f.size);
      assert (k1 + 1) * f.size == k1 * f.size + f.size;
    } else {
      MulMonotone(k2 + 1, k1, f.size);
      assert (k2 + 1) * f.size == k2 * f.size + f.size;
    }
  }

  /** When the block starts at an address aligned for a record (the
      allocator's promise), every header is aligned for `H` and every footer
      element for `F`. */
  lemma SlotAligned(h: Layout, f: Layout, count: nat, base: nat, s: Slot)
    requires HasLayout(h, f, count) && base % RecordAlign(h, f) == 0
    ensures (base + SlotOffset(h, f, count, s)) % SlotAlign(h, f, s) == 0
  {
    var a := RecordAlign(h, f);
    var stride := Stride(h, f, count);
    var align := SlotAlign(h, f, s);
    PowerOfTwoDivides(align, a);
    MultipleOfMultiple(base, a, align);
    MultipleOfMultiple(stride, a, align);
    ScaledMultiple(s.rec, stride, align);
    assert RecordOffset(stride, s.rec) == s.rec * stride;
    SumOfMultiples(base, RecordOffset(stride, s.rec), align);
    OffsetInRecordAligned(h, f, s);
    SumOfMultiples(base + RecordOffset(stride, s.rec), OffsetInRecord(h, f, s), align);
  }

  lemma OffsetInRecordAligned(h: Layout, f: Layout, s: Slot)
    requires IsTypeLayout(h) && IsTypeLayout(f)
    ensures OffsetInRecord(h, f, s) % SlotAlign(h, f, s) == 0
  {
    if s.FooterSlot? {
      var k := s.index;
      assert FooterOffset(h, f) % f.align == 0;
      ScaledMultiple(k, f.size, f.align);
      SumOfMultiples(FooterOffset(h, f), k * f.size, f.align);
      assert OffsetInRecord(h, f, s) == FooterOffset(h, f) + k * f.size;
    } else {
      assert OffsetInRecord(h, f, s) == 0;
    }
  }
}
