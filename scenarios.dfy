/** The crate's own unit tests, replayed on the model: each method builds
    records the way its test does and states, as postconditions, what the
    test asserts, including the panics the `should_panic` tests expect.
    Headers and footer elements are integers here; their Rust types only
    contribute their layouts. `answer` is the address the allocator
    returns. */
module Scenarios {
  import opened Faults
  import opened AllocLayout
  import opened DstData
  import opened Destruction
  import opened Records
  import opened RecordArrays

  /** Layout of `u8`. */
  const U8: Layout := Layout(1, 1)
  /** Layout of `u32`. */
  const U32: Layout := Layout(4, 4)
  /** Layout of `u64`. */
  const U64: Layout := Layout(8, 8)

  lemma PrimitiveLayouts()
    ensures IsTypeLayout(U8) && IsTypeLayout(U32) && IsTypeLayout(U64)
  {
    assert IsPowerOfTwo(1) && IsPowerOfTwo(4) && IsPowerOfTwo(8);
  }

  /** A `DstData<u32, u64>` or `DstData<u8, u64>` record with a footer of up
      to five elements has a layout. */
  lemma SmallRecordHasLayout(h: Layout, count: nat)
    requires h == U32 || h == U8
    requires count <= 5
    ensures HasLayout(h, U64, count) && LayoutOf(h, U64, count).Ok?
  {
    PrimitiveLayouts();
    assert FooterOffset(h, U64) == 8;
    MulMonotone(count, 5, 8);
  }

  /** A fresh `MaybeUninitDst<H, u64>` with footer length `count`. */
  method NewU64Record(h: Layout, count: nat, answer: nat) returns (u: MaybeUninitDst<int, int>)
    requires h == U32 || h == U8
    requires count <= 5 && answer != 0 && answer % 8 == 0
    ensures fresh(u) && fresh(u.block) && fresh(u.block.headers) && fresh(u.block.footers)
    ensures u.Valid() && u.index == 0 && u.block.records == 1 && u.FooterLen() == count
    ensures u.block.headerInit == {} && u.block.footerInit == {}
  {
    SmallRecordHasLayout(h, count);
    assert RecordAlign(h, U64) == 8;
    var r := NewRecord<int, int>(h, U64, count, answer);
    u := r.value;
  }

  /** Test `writing`: the header and the footer read back what was written. */
  method Writing(answer: nat) returns (header: int, footer: seq<int>)
    requires answer != 0 && answer % 8 == 0
    ensures header == 2 && footer == [1, 2]
  {
    var dst := NewU64Record(U32, 2, answer);
    dst.WriteHeader(2);
    header := dst.ReadHeader();
    var w := dst.WriteFooter([1, 2]);
    footer := dst.ReadFooter();
  }

  /** Test `invalid_footer_write`: a footer of three elements for a record
      of two panics. */
  method InvalidFooterWrite(answer: nat) returns (r: Result<()>)
    requires answer != 0 && answer % 8 == 0
    ensures r == Err(LengthMismatch)
  {
    var dst := NewU64Record(U32, 2, answer);
    r := dst.WriteFooter([1, 2, 3]);
  }

  /** Test `invalid_element_write`: footer element 3 of a record of two
      panics. */
  method InvalidElementWrite(answer: nat) returns (r: Result<()>)
    requires answer != 0 && answer % 8 == 0
    ensures r == Err(FooterIndexOutOfBounds)
  {
    var dst := NewU64Record(U32, 2, answer);
    r := dst.WriteFooterElement(3, 1);
  }

  /** Test `element_write`: a single footer element reads back. */
  method ElementWrite(answer: nat) returns (element: int)
    requires answer != 0 && answer % 8 == 0
    ensures element == 1
  {
    var dst := NewU64Record(U32, 2, answer);
    var w := dst.WriteFooterElement(1, 1);
    element := dst.ReadFooterElement(1);
  }

  /** Test `element_write2`: overwriting one element of a written footer
      leaves the others. */
  method ElementWrite2(answer: nat) returns (footer: seq<int>)
    requires answer != 0 && answer % 8 == 0
    ensures footer == [1, 5, 3]
  {
    var dst := NewU64Record(U32, 3, answer);
    var w1 := dst.WriteFooter([1, 2, 3]);
    var w2 := dst.WriteFooterElement(1, 5);
    footer := dst.ReadFooter();
    assert footer[0] == 1 && footer[1] == 5 && footer[2] == 3;
  }

  /** Test `assume_init`: the owned record keeps the footer length, the
      footer and the header written into the builder. */
  method AssumeInitKeepsContents(answer: nat) returns (len: nat, footer: seq<int>, header: int)
    requires answer != 0 && answer % 8 == 0
    ensures len == 5 && footer == [0, 1, 2, 3, 4] && header == 1
  {
    var u := NewU64Record(U8, 5, answer);
    u.WriteHeader(1);
    var w := u.WriteFooter([0, 1, 2, 3, 4]);
    var dst := u.AssumeInit();
    len := dst.FooterLen();
    footer := dst.Footer();
    header := dst.Header();
  }

  /** A fresh `MaybeUninitDstArray<u32, u8>` of two records with footers of
      two elements. */
  method NewSmallArray(answer: nat) returns (a: MaybeUninitDstArray<int, int>)
    requires answer != 0 && answer % 4 == 0
    ensures fresh(a) && fresh(a.block) && fresh(a.block.headers) && fresh(a.block.footers)
    ensures a.Valid() && a.len == 2 && a.FooterLen() == 2
    ensures a.block.headerInit == {} && a.block.footerInit == {}
  {
    ArrayDropAsWrittenExample();
    assert RecordAlign(U32, U8) == 4;
    var r := NewArray<int, int>(U32, U8, 2, 2, answer);
    a := r.value;
  }

  /** The writes of test `array`: record 0 gets header 0 and footer
      `[0, 1]`, record 1 header 1 and footer `[0, 5]`; then `assume_init`. */
  method FillSmallArray(answer: nat) returns (d: DstArray<int, int>)
    requires answer != 0 && answer % 4 == 0
    ensures d.Valid() && d.len == 2 && d.block.count == 2
    ensures d.block.headers[0] == 0 && d.block.headers[1] == 1
    ensures d.block.footers[0, 0] == 0 && d.block.footers[0, 1] == 1
    ensures d.block.footers[1, 0] == 0 && d.block.footers[1, 1] == 5
  {
    var a := NewSmallArray(answer);
    var w1 := a.WriteHeader(0, 0);
    var w2 := a.WriteFooter(0, [0, 1]);
    assert a.block.footers[0, 0] == 0 && a.block.footers[0, 1] == 1;
    var w3 := a.WriteHeader(1, 1);
    var w4 := a.WriteFooter(1, [0, 5]);
    assert a.block.footers[1, 0] == 0 && a.block.footers[1, 1] == 5;
    assert a.block.RecordInit(0) && a.block.RecordInit(1);
    d := a.AssumeInit();
  }

  /** Test `array`: each record of the array reads back its own header and
      footer, the second write not disturbing the first record. */
  method ArrayContents(answer: nat) returns (headers: seq<int>, footers: seq<seq<int>>)
    requires answer != 0 && answer % 4 == 0
    ensures headers == [0, 1] && footers == [[0, 1], [0, 5]]
  {
    var d := FillSmallArray(answer);
    var h0 := d.HeaderRef(0);
    var f0 := d.FooterRef(0);
    var h1 := d.HeaderRef(1);
    var f1 := d.FooterRef(1);
    assert f0.value == [0, 1];
    assert f1.value == [0, 5];
    headers := [h0.value, h1.value];
    footers := [f0.value, f1.value];
  }

  /** Test `array_invalid`: writing the header of record 2 of an array of
      two panics. */
  method ArrayInvalid(answer: nat) returns (r: Result<()>)
    requires answer != 0 && answer % 4 == 0
    ensures r == Err(RecordIndexOutOfBounds)
  {
    var a := NewSmallArray(answer);
    r := a.WriteHeader(2, 1);
  }
}
