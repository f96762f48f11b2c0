/** Single records: the allocation they live in (`Block`), the builder
    `MaybeUninitDst` that writes an uninitialised record, and the owned,
    initialised record `Dst`. A builder is a view of one record of a block
    (a pointer plus its byte offset), so the array builder can hand out
    views of its own records and delegate writes to them, as the source
    does. */
module Records {
  import opened Faults
  import opened AllocLayout
  import opened DstData
  import opened Destruction

  /** One allocation: `records` records of footer length `count`, for a
      header type of layout `h` and a footer element type of layout `f`.
      Slot contents are kept per record: `headers[i]` is the header of
      record `i` and `footers[i, k]` its footer element `k`; where they sit
      in bytes is `SlotOffset`, and `SlotsDisjoint` shows that no two slots
      share a byte, so keeping them apart here loses nothing. Which slots
      have been written is ghost state: reading any other is undefined
      behaviour. */
  class Block<H(0), F(0)> {
    const h: Layout
    const f: Layout
    const count: nat
    const records: nat
    const base: nat
    const layout: Layout
    const headers: array<H>
    const footers: array2<F>
    ghost var headerInit: set<nat>
    ghost var footerInit: set<(nat, nat)>

    ghost predicate Valid()
      reads this
    {
      HasLayout(h, f, count) && ArrayLayout(h, f, count, records) == Ok(layout) &&
      base != 0 && base % layout.align == 0 &&
      headers.Length == records && footers.Length0 == records && footers.Length1 == count
    }

    /** A freshly allocated block at address `base`: nothing written yet. */
    constructor (h: Layout, f: Layout, count: nat, records: nat, base: nat)
      requires IsTypeLayout(h) && IsTypeLayout(f) && ArrayLayout(h, f, count, records).Ok?
      requires base != 0 && base % RecordAlign(h, f) == 0
      ensures Valid() && fresh(headers) && fresh(footers)
      ensures this.h == h && this.f == f && this.count == count && this.records == records && this.base == base
      ensures layout == ArrayLayout(h, f, count, records).value
      ensures headerInit == {} && footerInit == {}
    {
      this.h, this.f, this.count, this.records, this.base := h, f, count, records, base;
      layout := ArrayLayout(h, f, count, records).value;
      headers := new H[records];
      footers := new F[records, count];
      headerInit, footerInit := {}, {};
    }

    /** The footer of record `i`, as a sequence. */
    function Footer(i: nat): (footer: seq<F>)
      reads this, footers
      requires i < footers.Length0
      ensures |footer| == footers.Length1
      ensures forall k :: 0 <= k < |footer| ==> footer[k] == footers[i, k]
    {
      seq(footers.Length1, k requires 0 <= k < footers.Length1 reads footers => footers[i, k])
    }

    /** Every footer element of record `i` has been written. */
    ghost predicate FooterInit(i: nat)
      reads this
    {
      forall k :: 0 <= k < count ==> (i, k) in footerInit
    }

    /** Header and footer of record `i` have been written. */
    ghost predicate RecordInit(i: nat)
      reads this
    {
      i in headerInit && FooterInit(i)
    }

    /** Absolute address of a slot of this block: aligned for what it
        holds and, for a slot that exists, inside the allocation. */
    function Address(s: Slot): (addr: nat)
      reads this
      requires Valid()
      ensures addr == base + SlotOffset(h, f, count, s)
      ensures addr % SlotAlign(h, f, s) == 0
      ensures SlotInBlock(s, count, records) ==>
        base <= addr && addr + SlotSize(h, f, s) <= base + layout.size
    {
      SlotAligned(h, f, count, base, s);
      var addr := base + SlotOffset(h, f, count, s);
      if SlotInBlock(s, count, records) then
        SlotInsideRecord(h, f, count, s);
        RecordInsideBlock(h, f, count, records, s.rec);
        addr
      else addr
    }
  }

  /** The footer slots `0 .. count - 1` of record `i`. */
  function RowSlots(i: nat, count: nat): (slots: set<(nat, nat)>)
    ensures forall k :: 0 <= k < count ==> (i, k) in slots
    ensures forall s :: s in slots ==> s.0 == i && s.1 < count
  {
    set k | 0 <= k < count :: (i, k)
  }

  /** `MaybeUninitDst`: a record that may not be initialised yet, seen
      through a pointer to record `index` of `block`, `offset` bytes from
      its start. */
  class MaybeUninitDst<H(0), F(0)> {
    const block: Block<H, F>
    const index: nat
    const offset: nat

    ghost predicate Valid()
      reads this, block
    {
      block.Valid() && index < block.records &&
      offset == RecordOffset(Stride(block.h, block.f, block.count), index)
    }

    /** A view of record `index` of `block`: `ptr.byte_add(stride * index)`. */
    constructor View(block: Block<H, F>, index: nat)
      requires block.Valid() && index < block.records
      ensures Valid() && this.block == block && this.index == index
    {
      this.block, this.index := block, index;
      offset := RecordOffset(Stride(block.h, block.f, block.count), index);
    }

    /** `get_footer_len`: the footer length given at allocation, which is
        the number of footer slots of the record. */
    function FooterLen(): (n: nat)
      reads this, block
      requires Valid()
      ensures n == block.footers.Length1 && n == |block.Footer(index)|
    {
      block.count
    }

    /** `get_header_ptr`: the record's own address, aligned for `H`, with
        the header inside the allocation. */
    function HeaderPtr(): (p: nat)
      reads this, block
      requires Valid()
      ensures p == block.base + offset && p % block.h.align == 0
      ensures p + block.h.size <= block.base + block.layout.size
    {
      block.Address(HeaderSlot(index))
    }

    /** `get_footer_ptr`: the footer's address, after the header, aligned
        for `F`, with room for the whole footer inside the record. */
    function FooterPtr(): (p: nat)
      reads this, block
      requires Valid()
      ensures block.base + offset + block.h.size <= p && p % block.f.align == 0
      ensures p + block.count * block.f.size <= block.base + offset + Stride(block.h, block.f, block.count)
    {
      assert 0 * block.f.size == 0;
      block.Address(FooterSlot(index, 0))
    }

    /** `get_footer_element_ptr(k)`: `k` elements past the footer's start,
        aligned for `F`. The source does not check `k`; for `k` below the
        footer length it is the address of that element of this record,
        inside the allocation. */
    function FooterElementPtr(k: nat): (p: nat)
      reads this, block
      requires Valid()
      ensures p == FooterPtr() + k * block.f.size && p % block.f.align == 0
      ensures k < FooterLen() ==> block.base <= p && p + block.f.size <= block.base + block.layout.size
    {
      assert 0 * block.f.size == 0;
      block.Address(FooterSlot(index, k))
    }

    /** Reading through `get_header_ptr`: only defined once the header has
        been written. */
    function ReadHeader(): (header: H)
      reads this, block, block.headers
      requires Valid() && index in block.headerInit
      ensures header == block.headers[index]
    {
      block.headers[index]
    }

    /** Reading through `get_footer_ptr`: only defined once every footer
        element has been written. */
    function ReadFooter(): (footer: seq<F>)
      reads this, block, block.footers
      requires Valid() && block.FooterInit(index)
      ensures |footer| == FooterLen()
      ensures forall k :: 0 <= k < |footer| ==> (index, k) in block.footerInit && footer[k] == ReadFooterElement(k)
    {
      block.Footer(index)
    }

    /** Reading through `get_footer_element_ptr(k)`: only defined once that
        element has been written. */
    function ReadFooterElement(k: nat): (element: F)
      reads this, block, block.footers
      requires Valid() && k < FooterLen() && (index, k) in block.footerInit
      ensures element == block.footers[index, k]
    {
      block.footers[index, k]
    }

    /** `write_header`: the header now holds `header`; every other slot of
        the block keeps its value. */
    method WriteHeader(header: H)
      requires Valid()
      modifies block, block.headers
      ensures Valid()
      ensures block.headers[..] == old(block.headers[..])[index := header]
      ensures block.headerInit == old(block.headerInit) + {index}
      ensures block.footerInit == old(block.footerInit)
      ensures ReadHeader() == header && unchanged(block.footers)
    {
      block.headers[index] := header;
      block.headerInit := block.headerInit + {index};
    }

    /** `write_footer`: panics unless `footer` has exactly the footer length;
        otherwise copies it element by element into the footer. No other
        record's footer changes, and the headers are not touched. */
    method WriteFooter(footer: seq<F>) returns (r: Result<()>)
      requires Valid()
      modifies block, block.footers
      ensures Valid()
      ensures r.Ok? <==> |footer| == FooterLen()
      ensures r.Err? ==> r.error == LengthMismatch && unchanged(block) && unchanged(block.footers)
      ensures r.Ok? ==> block.footerInit == old(block.footerInit) + RowSlots(index, |footer|)
      ensures r.Ok? ==> block.FooterInit(index) && ReadFooter() == footer
      ensures unchanged(block.headers)
      ensures forall i, j :: 0 <= i < block.records && 0 <= j < block.count && i != index ==>
        block.footers[i, j] == old(block.footers[i, j])
      ensures block.headerInit == old(block.headerInit)
    {
      var footerLen := FooterLen();
      if |footer| != footerLen {
        return Err(LengthMismatch);
      }
      var k := 0;
      while k < footerLen
        invariant 0 <= k <= footerLen
        invariant block.footerInit == old(block.footerInit) && block.headerInit == old(block.headerInit)
        invariant forall j :: 0 <= j < k ==> block.footers[index, j] == footer[j]
        invariant forall i, j :: 0 <= i < block.records && 0 <= j < footerLen && i != index ==>
          block.footers[i, j] == old(block.footers[i, j])
      {
        block.footers[index, k] := footer[k];
        k := k + 1;
      }
      block.footerInit := block.footerInit + RowSlots(index, footerLen);
      assert block.Footer(index) == footer;
      r := Ok(());
    }

    /** `write_footer_element`: panics unless `k` is below the footer length;
        otherwise only footer element `k` changes. */
    method WriteFooterElement(k: nat, element: F) returns (r: Result<()>)
      requires Valid()
      modifies block, block.footers
      ensures Valid()
      ensures r.Ok? <==> k < FooterLen()
      ensures r.Err? ==> r.error == FooterIndexOutOfBounds && unchanged(block) && unchanged(block.footers)
      ensures r.Ok? ==> (index, k) in block.footerInit && ReadFooterElement(k) == element
      ensures forall i, j :: 0 <= i < block.records && 0 <= j < block.count && (i, j) != (index, k) ==>
        block.footers[i, j] == old(block.footers[i, j])
      ensures r.Ok? ==> block.footerInit == old(block.footerInit) + {(index, k)}
      ensures block.headerInit == old(block.headerInit) && unchanged(block.headers)
    {
      var footerLen := FooterLen();
      if k >= footerLen {
        return Err(FooterIndexOutOfBounds);
      }
      block.footers[index, k] := element;
      block.footerInit := block.footerInit + {(index, k)};
      r := Ok(());
    }

    /** `assume_init`: the caller declares header and footer written; the
        owned record takes over the same allocation, so header, footer and
        footer length read the same as before. Only a record allocated on
        its own (not a record of an array) can be finalised this way. */
    method AssumeInit() returns (d: Dst<H, F>)
      requires Valid() && block.records == 1 && block.RecordInit(index)
      ensures d.Valid() && d.block == block
      ensures d.Header() == ReadHeader() && d.Footer() == ReadFooter() && d.FooterLen() == FooterLen()
    {
      d := new Dst(block);
    }
  }

  /** `MaybeUninitDst::new(count)`: computes `layout_of(count)` (panicking on
      a `LayoutError`), allocates, and aborts if the allocator's answer is
      null. `answer` is what the allocator returns for that layout. */
  method NewRecord<H(0), F(0)>(h: Layout, f: Layout, count: nat, answer: nat) returns (r: Result<MaybeUninitDst<H, F>>)
    requires IsTypeLayout(h) && IsTypeLayout(f)
    requires answer % RecordAlign(h, f) == 0
    ensures r.Err? <==> LayoutOf(h, f, count).Err? || answer == 0
    ensures r.Err? ==> r.error == if LayoutOf(h, f, count).Err? then LayoutError else AllocFailure
    ensures r.Ok? ==>
      var u := r.value;
      fresh(u) && fresh(u.block) && fresh(u.block.headers) && fresh(u.block.footers) &&
      u.Valid() && u.index == 0 && u.offset == 0 && u.block.records == 1 &&
      u.block.h == h && u.block.f == f && u.block.base == answer &&
      u.FooterLen() == count && u.block.layout == LayoutOf(h, f, count).value &&
      u.block.headerInit == {} && u.block.footerInit == {}
  {
    var layout := LayoutOf(h, f, count);
    if layout.Err? {
      return Err(layout.error);
    }
    var ptr := AllocSelf(answer);
    if ptr.Err? {
      return Err(ptr.error);
    }
    SingleRecordArray(h, f, count);
    var block := new Block<H, F>(h, f, count, 1, ptr.value);
    var u := new MaybeUninitDst.View(block, 0);
    r := Ok(u);
  }

  /** `Dst`: an owned, initialised record allocated on its own. */
  class Dst<H(0), F(0)> {
    const block: Block<H, F>

    ghost predicate Valid()
      reads this, block
    {
      block.Valid() && block.records == 1 && block.RecordInit(0)
    }

    constructor (block: Block<H, F>)
      requires block.Valid() && block.records == 1 && block.RecordInit(0)
      ensures Valid() && this.block == block
    {
      this.block := block;
    }

    /** `get_header_ref`. */
    function Header(): H
      reads this, block, block.headers
      requires Valid()
    {
      block.headers[0]
    }

    /** `get_footer_ref`. */
    function Footer(): seq<F>
      reads this, block, block.footers
      requires Valid()
    {
      block.Footer(0)
    }

    /** `get_footer_len`: the length of the footer slice, which is the
        footer length given at allocation. */
    function FooterLen(): (n: nat)
      reads this, block, block.footers
      requires Valid()
      ensures n == |Footer()| && n == block.count
    {
      |Footer()|
    }

    /** Assigning through `get_header_ref_mut`: the header changes, the
        footer does not. */
    method SetHeader(header: H)
      requires Valid()
      modifies block.headers
      ensures Valid() && Header() == header
    {
      block.headers[0] := header;
    }

    /** Assigning to element `k` of the slice `get_footer_ref_mut` returns:
        slice indexing panics unless `k` is below the footer length;
        otherwise only that element changes. */
    method SetFooterElement(k: nat, element: F) returns (r: Result<()>)
      requires Valid()
      modifies block.footers
      ensures Valid()
      ensures r.Ok? <==> k < FooterLen()
      ensures r.Err? ==> r.error == FooterIndexOutOfBounds && Footer() == old(Footer())
      ensures r.Ok? ==> Footer() == old(Footer())[k := element]
    {
      if k >= block.count {
        return Err(FooterIndexOutOfBounds);
      }
      block.footers[0, k] := element;
      r := Ok(());
    }

    /** `Dst::drop` as written: `drop_in_place` on the record (which
        destroys the footer twice), then `dealloc` with
        `layout_of(get_footer_len())`, which is the allocation's layout. */
    method DropAsWritten() returns (destroyed: seq<SlotDrop>, freed: Layout)
      requires Valid()
      ensures destroyed == DropInPlaceAsWritten(block.count)
      ensures freed == block.layout
    {
      destroyed := DropInPlaceAsWritten(block.count);
      SingleRecordArray(block.h, block.f, block.count);
      freed := LayoutOf(block.h, block.f, FooterLen()).value;
    }

    /** `Dst::drop` as intended: every slot destroyed exactly once, and the
        block freed with the layout it was allocated with. */
    method Drop() returns (destroyed: seq<SlotDrop>, freed: Layout)
      requires Valid()
      ensures DropsEachSlotOnce(destroyed, FooterLen())
      ensures destroyed == DropInPlace(block.count)
      ensures freed == block.layout
    {
      destroyed := DropInPlace(block.count);
      DropInPlaceOnce(block.count);
      SingleRecordArray(block.h, block.f, block.count);
      freed := LayoutOf(block.h, block.f, FooterLen()).value;
    }
  }
}
