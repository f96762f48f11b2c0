/** Arrays of records sharing one footer length: the builder
    `MaybeUninitDstArray`, which writes its records through views of one
    record at a time, and the owned, initialised `DstArray`. Records sit one
    stride apart in a single block. */
module RecordArrays {
  import opened Faults
  import opened AllocLayout
  import opened DstData
  import opened Destruction
  import opened Records

  /** `MaybeUninitDstArray`: `len` records that may not be initialised yet. */
  class MaybeUninitDstArray<H(0), F(0)> {
    const len: nat
    const block: Block<H, F>

    ghost predicate Valid()
      reads this, block
    {
      block.Valid() && block.records == len
    }

    constructor (len: nat, block: Block<H, F>)
      requires block.Valid() && block.records == len
      ensures Valid() && this.len == len && this.block == block
    {
      this.len, this.block := len, block;
    }

    /** `get_footer_len`: the footer length every record was allocated with. */
    function FooterLen(): (n: nat)
      reads this, block
      requires Valid()
      ensures n == block.footers.Length1
      ensures forall i :: 0 <= i < len ==> n == |block.Footer(i)|
    {
      block.count
    }

    /** `get_stride`: the size of `layout_of(get_footer_len())`; `len` strides
        make up the whole block. */
    function Stride(): (stride: nat)
      reads this, block
      requires Valid()
      ensures stride == DstData.Stride(block.h, block.f, FooterLen())
      ensures stride * len == block.layout.size
      ensures stride % block.layout.align == 0
    {
      DstData.Stride(block.h, block.f, FooterLen())
    }

    /** `get_element`: panics unless `i` is below the array length; otherwise
        a view of record `i`, one stride times `i` into the block. */
    method GetElement(i: nat) returns (r: Result<MaybeUninitDst<H, F>>)
      requires Valid()
      ensures r.Ok? <==> i < len
      ensures r.Err? ==> r.error == RecordIndexOutOfBounds
      ensures r.Ok? ==> (fresh(r.value) && r.value.Valid() && r.value.block == block &&
        r.value.index == i && r.value.offset == Stride() * i)
    {
      if i >= len {
        return Err(RecordIndexOutOfBounds);
      }
      var u := new MaybeUninitDst.View(block, i);
      r := Ok(u);
    }

    /** `write_header`: writes the header of record `i` through its view;
        every other header keeps its value. */
    method WriteHeader(i: nat, header: H) returns (r: Result<()>)
      requires Valid()
      modifies block, block.headers
      ensures Valid()
      ensures r.Ok? <==> i < len
      ensures r.Err? ==> r.error == RecordIndexOutOfBounds && unchanged(block) && unchanged(block.headers)
      ensures r.Ok? ==> block.headers[..] == old(block.headers[..])[i := header]
      ensures r.Ok? ==> block.headerInit == old(block.headerInit) + {i}
      ensures block.footerInit == old(block.footerInit) && unchanged(block.footers)
    {
      var e := GetElement(i);
      if e.Err? {
        return Err(e.error);
      }
      e.value.WriteHeader(header);
      r := Ok(());
    }

    /** `write_footer`: panics unless `i` is below the array length and the
        slice has the footer length; otherwise record `i`'s footer becomes
        `footer` and no other record's footer changes. */
    method WriteFooter(i: nat, footer: seq<F>) returns (r: Result<()>)
      requires Valid()
      modifies block, block.footers
      ensures Valid()
      ensures r.Ok? <==> i < len && |footer| == FooterLen()
      ensures r.Err? ==> r.error == (if i >= len then RecordIndexOutOfBounds else LengthMismatch)
      ensures r.Err? ==> unchanged(block) && unchanged(block.footers)
      ensures r.Ok? ==> block.footerInit == old(block.footerInit) + RowSlots(i, |footer|)
      ensures r.Ok? ==> block.FooterInit(i) && block.Footer(i) == footer
      ensures forall j, k :: 0 <= j < len && 0 <= k < FooterLen() && j != i ==>
        block.footers[j, k] == old(block.footers[j, k])
      ensures block.headerInit == old(block.headerInit) && unchanged(block.headers)
    {
      var e := GetElement(i);
      if e.Err? {
        return Err(e.error);
      }
      r := e.value.WriteFooter(footer);
    }

    /** `write_footer_element`: panics unless `i` is below the array length
        and `k` below the footer length; otherwise only footer element `k`
        of record `i` changes. */
    method WriteFooterElement(i: nat, k: nat, element: F) returns (r: Result<()>)
      requires Valid()
      modifies block, block.footers
      ensures Valid()
      ensures r.Ok? <==> i < len && k < FooterLen()
      ensures r.Err? ==> r.error == (if i >= len then RecordIndexOutOfBounds else FooterIndexOutOfBounds)
      ensures r.Err? ==> unchanged(block) && unchanged(block.footers)
      ensures r.Ok? ==> block.footerInit == old(block.footerInit) + {(i, k)} && block.footers[i, k] == element
      ensures forall j, m :: 0 <= j < len && 0 <= m < FooterLen() && (j, m) != (i, k) ==>
        block.footers[j, m] == old(block.footers[j, m])
      ensures block.headerInit == old(block.headerInit) && unchanged(block.headers)
    {
      var e := GetElement(i);
      if e.Err? {
        return Err(e.error);
      }
      r := e.value.WriteFooterElement(k, element);
    }

    /** `get_header_ptr(i)`: panics unless `i` is below the array length;
        otherwise the start of record `i`, aligned for `H`, with the header
        inside the block. */
    function HeaderPtr(i: nat): (r: Result<nat>)
      reads this, block
      requires Valid()
      ensures r.Ok? <==> i < len
      ensures r.Err? ==> r.error == RecordIndexOutOfBounds
      ensures r.Ok? ==> (r.value == block.base + Stride() * i && r.value % block.h.align == 0 &&
        r.value + block.h.size <= block.base + block.layout.size)
    {
      if i >= len then Err(RecordIndexOutOfBounds)
      else Ok(block.Address(HeaderSlot(i)))
    }

    /** `get_footer_ptr(i)`: panics unless `i` is below the array length;
        otherwise the start of record `i`'s footer, after its header, aligned
        for `F`, with the whole footer inside record `i`. */
    function FooterPtr(i: nat): (r: Result<nat>)
      reads this, block
      requires Valid()
      ensures r.Ok? <==> i < len
      ensures r.Err? ==> r.error == RecordIndexOutOfBounds
      ensures r.Ok? ==> var start := block.base + Stride() * i;
        start + block.h.size <= r.value && r.value % block.f.align == 0 &&
        r.value + FooterLen() * block.f.size <= start + Stride()
    {
      if i >= len then Err(RecordIndexOutOfBounds)
      else
        assert 0 * block.f.size == 0;
        Ok(block.Address(FooterSlot(i, 0)))
    }

    /** `get_footer_element_ptr(i, k)`: panics unless `i` is below the array
        length; `k` is not checked. For `k` below the footer length the
        address is inside the block, and it is always aligned for `F`. */
    function FooterElementPtr(i: nat, k: nat): (r: Result<nat>)
      reads this, block
      requires Valid()
      ensures r.Ok? <==> i < len
      ensures r.Err? ==> r.error == RecordIndexOutOfBounds
      ensures r.Ok? ==> r.value == FooterPtr(i).value + k * block.f.size && r.value % block.f.align == 0
      ensures r.Ok? && k < FooterLen() ==>
        block.base <= r.value && r.value + block.f.size <= block.base + block.layout.size
    {
      if i >= len then Err(RecordIndexOutOfBounds)
      else
        assert 0 * block.f.size == 0;
        Ok(block.Address(FooterSlot(i, k)))
    }

    /** `assume_init`: the caller declares every record written; the owned
        array takes over the block, with the same length and contents. */
    method AssumeInit() returns (d: DstArray<H, F>)
      requires Valid() && forall i :: 0 <= i < len ==> block.RecordInit(i)
      ensures d.Valid() && d.len == len && d.block == block
    {
      d := new DstArray(len, block);
    }
  }

  /** `MaybeUninitDstArray::new(count, arraySize)`: `layout_of(count)`
      repeated `arraySize` times (panicking on a `LayoutError`), then
      allocated. `answer` is what the allocator returns; a null answer is
      refused here, which the source omits (see `AllocSelfArrayAsWritten`). */
  method NewArray<H(0), F(0)>(h: Layout, f: Layout, count: nat, arraySize: nat, answer: nat)
    returns (r: Result<MaybeUninitDstArray<H, F>>)
    requires IsTypeLayout(h) && IsTypeLayout(f)
    requires answer % RecordAlign(h, f) == 0
    ensures r.Err? <==> ArrayLayout(h, f, count, arraySize).Err? || answer == 0
    ensures r.Err? ==> r.error == if ArrayLayout(h, f, count, arraySize).Err? then LayoutError else AllocFailure
    ensures r.Ok? ==>
      var a := r.value;
      fresh(a) && fresh(a.block) && fresh(a.block.headers) && fresh(a.block.footers) &&
      a.Valid() && a.len == arraySize && a.FooterLen() == count && a.block.base == answer &&
      a.block.h == h && a.block.f == f &&
      a.block.layout == ArrayLayout(h, f, count, arraySize).value &&
      a.block.headerInit == {} && a.block.footerInit == {}
  {
    var layout := ArrayLayout(h, f, count, arraySize);
    if layout.Err? {
      return Err(layout.error);
    }
    var ptr := AllocSelf(answer);
    if ptr.Err? {
      return Err(ptr.error);
    }
    var block := new Block<H, F>(h, f, count, arraySize, ptr.value);
    var a := new MaybeUninitDstArray(arraySize, block);
    r := Ok(a);
  }

  /** `DstArray`: `len` owned, initialised records. */
  class DstArray<H(0), F(0)> {
    const len: nat
    const block: Block<H, F>

    ghost predicate Valid()
      reads this, block
    {
      block.Valid() && block.records == len &&
      forall i :: 0 <= i < len ==> block.RecordInit(i)
    }

    constructor (len: nat, block: Block<H, F>)
      requires block.Valid() && block.records == len
      requires forall i :: 0 <= i < len ==> block.RecordInit(i)
      ensures Valid() && this.len == len && this.block == block
    {
      this.len, this.block := len, block;
    }

    /** `get_stride`: computed from the footer length the block carries. */
    function Stride(): (stride: nat)
      reads this, block
      requires Valid()
      ensures stride * len == block.layout.size && stride % block.layout.align == 0
    {
      DstData.Stride(block.h, block.f, block.count)
    }

    /** `get_element`: panics unless `i` is below the array length; otherwise
        the offset of record `i`, whose whole stride lies inside the block. */
    function ElementOffset(i: nat): (r: Result<nat>)
      reads this, block
      requires Valid()
      ensures r.Ok? <==> i < len
      ensures r.Err? ==> r.error == RecordIndexOutOfBounds
      ensures r.Ok? ==> r.value == RecordOffset(Stride(), i) && r.value + Stride() <= block.layout.size
    {
      if i >= len then Err(RecordIndexOutOfBounds)
      else
        RecordInsideBlock(block.h, block.f, block.count, len, i);
        Ok(RecordOffset(Stride(), i))
    }

    /** `get_header_ref(i)`. */
    function HeaderRef(i: nat): (r: Result<H>)
      reads this, block, block.headers
      requires Valid()
      ensures r.Ok? <==> ElementOffset(i).Ok?
      ensures r.Err? ==> r.error == RecordIndexOutOfBounds
      ensures r.Ok? ==> r.value == block.headers[i]
    {
      if i >= len then Err(RecordIndexOutOfBounds) else Ok(block.headers[i])
    }

    /** `get_footer_ref(i)`: the footer slice of record `i`, whose length is
        the footer length of the block. */
    function FooterRef(i: nat): (r: Result<seq<F>>)
      reads this, block, block.footers
      requires Valid()
      ensures r.Ok? <==> ElementOffset(i).Ok?
      ensures r.Err? ==> r.error == RecordIndexOutOfBounds
      ensures r.Ok? ==> (|r.value| == block.count &&
        forall k :: 0 <= k < block.count ==> r.value[k] == block.footers[i, k])
    {
      if i >= len then Err(RecordIndexOutOfBounds) else Ok(block.Footer(i))
    }

    /** `get_footer_len`: the length of record 0's footer, so it panics on an
        empty array. */
    function FooterLen(): (r: Result<nat>)
      reads this, block, block.footers
      requires Valid()
      ensures r.Ok? <==> len > 0
      ensures r.Err? ==> r.error == RecordIndexOutOfBounds
      ensures r.Ok? ==> r.value == block.count
    {
      match FooterRef(0)
      case Err(e) => Err(e)
      case Ok(footer) => Ok(|footer|)
    }

    /** Assigning through `get_header_ref_mut(i)`: panics unless `i` is below
        the array length; otherwise only header `i` changes. */
    method SetHeader(i: nat, header: H) returns (r: Result<()>)
      requires Valid()
      modifies block.headers
      ensures Valid()
      ensures r.Ok? <==> i < len
      ensures r.Err? ==> r.error == RecordIndexOutOfBounds && unchanged(block.headers)
      ensures r.Ok? ==> block.headers[..] == old(block.headers[..])[i := header]
    {
      if i >= len {
        return Err(RecordIndexOutOfBounds);
      }
      block.headers[i] := header;
      r := Ok(());
    }

    /** Assigning to element `k` of the slice `get_footer_ref_mut(i)`
        returns: panics unless `i` is below the array length and `k` below
        the footer length; otherwise only that element changes. */
    method SetFooterElement(i: nat, k: nat, element: F) returns (r: Result<()>)
      requires Valid()
      modifies block.footers
      ensures Valid()
      ensures r.Ok? <==> i < len && k < block.count
      ensures r.Err? ==> r.error == (if i >= len then RecordIndexOutOfBounds else FooterIndexOutOfBounds)
      ensures r.Err? ==> unchanged(block.footers)
      ensures r.Ok? ==> block.footers[i, k] == element
      ensures forall j, m :: 0 <= j < len && 0 <= m < block.count && (j, m) != (i, k) ==>
        block.footers[j, m] == old(block.footers[j, m])
    {
      if i >= len {
        return Err(RecordIndexOutOfBounds);
      }
      if k >= block.count {
        return Err(FooterIndexOutOfBounds);
      }
      block.footers[i, k] := element;
      r := Ok(());
    }

    /** `DstArray::drop` as written: the pointer starts one stride into the
        block and is handed to `drop_in_place` `len` times, a stride further
        each time; then `get_footer_len` (a panic on an empty array) and
        `dealloc` with `layout_of` of that length. */
    method DropAsWritten() returns (r: Result<ArrayDrop>)
      requires Valid()
      ensures r == ArrayDropAsWritten(block.h, block.f, block.count, len)
    {
      var stride := Stride();
      var destroyed := WalkRecords(stride, 1, len);
      assert destroyed == OffsetsAsWritten(stride, len);
      var footerLen := FooterLen();
      if footerLen.Err? {
        return Err(footerLen.error);
      }
      var layout := LayoutOf(block.h, block.f, footerLen.value);
      r := Ok(ArrayDrop(destroyed, layout.value));
    }

    /** `DstArray::drop` as intended: every record from 0 to `len - 1`
        handed to `drop_in_place` once, each inside the block and apart from
        the others, then the block freed with the layout it was allocated
        with. */
    method Drop() returns (d: ArrayDrop)
      requires Valid()
      ensures d == ArrayDropIntended(block.h, block.f, block.count, len)
      ensures d.freed == block.layout
      ensures |d.destroyed| == len && forall i :: 0 <= i < len ==> d.destroyed[i] + Stride() <= d.freed.size
      ensures forall i, j :: 0 <= i < j < len ==> Disjoint(d.destroyed[i], Stride(), d.destroyed[j], Stride())
    {
      var stride := Stride();
      var destroyed := WalkRecords(stride, 0, len);
      assert destroyed == Offsets(stride, len);
      d := ArrayDrop(destroyed, block.layout);
      ArrayDropIntendedCorrect(block.h, block.f, block.count, len);
    }
  }

  /** The loop of `DstArray::drop`: a pointer starting at record `first`,
      handed on `steps` times and advanced by `stride` after each. Yields
      the offsets it was at, in order. */
  method WalkRecords(stride: nat, first: nat, steps: nat) returns (visited: seq<nat>)
    ensures |visited| == steps
    ensures forall i :: 0 <= i < steps ==> visited[i] == RecordOffset(stride, first + i)
  {
    var ptr := RecordOffset(stride, first);
    visited := [];
    var i := 0;
    while i < steps
      invariant 0 <= i <= steps
      invariant ptr == RecordOffset(stride, first + i)
      invariant |visited| == i && forall j :: 0 <= j < i ==> visited[j] == RecordOffset(stride, first + j)
    {
      visited := visited + [ptr];
      assert stride * (first + i + 1) == stride * (first + i) + stride;
      ptr := ptr + stride;
      i := i + 1;
    }
  }
}
