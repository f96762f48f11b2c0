# custom_dst in Dafny

A model of `custom_dst`, a Rust crate that stores variable-length records
("DSTs") in a single heap allocation. Each record is a header of type `H`
followed by a footer of `count` elements of type `F`. The crate offers:

- a builder for one record (`MaybeUninitDst`) and the owned, initialised
  record it turns into (`Dst`);
- a builder for an array of records that share one footer length
  (`MaybeUninitDstArray`) and the owned array (`DstArray`).

The model has five layers:

- `layout.dfy` (`AllocLayout`): the parts of Rust's `std::alloc::Layout` the
  crate relies on. These are `from_size_align`, `padding_needed_for`,
  `pad_to_align`, `array`, `extend` and `repeat`, on a 64-bit target.
  Overflow and sizes above `isize::MAX` yield a `LayoutError`, never a
  wrapped value.
- `dst_data.dfy` (`DstData`): the record layout (`layout_of`), the stride,
  the array block and the two allocation routines. It also gives the byte
  position of every header and footer element in a block. Lemmas show that
  every such slot is aligned, lies inside its record and its block, and
  shares no byte with any other slot.
- `records.dfy` (`Records`): one allocation is a `Block` class.
  - Headers are kept in an `array<H>` and footers in an `array2<F>`.
  - A ghost set records which slots have been written.
  - `MaybeUninitDst` is a view of one record of a block. Its writes update
    the block in place; its reads require the slot to be written.
  - `Dst` owns a one-record block.
- `record_arrays.dfy` (`RecordArrays`): the array builder and the owned
  array. The builder hands out views of its records and delegates writes to
  them, as the crate does. Record `i` sits `stride * i` bytes into the
  block.
- `destruction.dfy` (`Destruction`): what dropping a record or an array
  does, as a trace. The trace lists the slots or record offsets that are
  destroyed and the layout the block is freed with. Each drop is given twice,
  as written and as intended; see "Findings".

Panics (`assert!`, `unwrap`, slice indexing) and the allocation-failure
abort are not modelled as crashes. Operations instead return
`Result<T>`, with a `Fault` that names the reason. `scenarios.dfy`
(`Scenarios`) replays the crate's unit tests on the model and states what
each test asserts.

## Model

| member | source | states |
|---|---|---|
| AllocLayout.FromSizeAlign | src/lib.rs:22 | `Layout::from_size_align`: succeeds exactly when the alignment is a power of two and the size fits below `isize::MAX` once rounded up to it; yields exactly that size and alignment |
| AllocLayout.PaddingNeededFor | src/lib.rs:23 | the padding brings the size to a multiple of the alignment and is smaller than the alignment |
| AllocLayout.PadToAlign | src/lib.rs:23 | `pad_to_align` keeps the alignment, makes the size a multiple of it, grows it by less than one alignment and never leaves the valid range |
| AllocLayout.ArrayOf | src/lib.rs:22 | `Layout::array::<F>(n)` succeeds exactly when `n * size F` fits for `F`'s alignment, and then has that size and `F`'s alignment |
| AllocLayout.Extend | src/lib.rs:22 | `extend` places the footer at the first offset aligned for it after the header; it succeeds exactly when offset plus footer size fits for the larger alignment, which the result carries |
| AllocLayout.Repeat | src/lib.rs:49 | `repeat(n)` succeeds exactly when `n` padded copies fit; the block is `stride * n` bytes, where the stride is the padded size |
| AllocLayout.RoundUp | src/lib.rs:22-23 | the smallest multiple of the alignment not below `n` lies in `[n, n + align)` |
| AllocLayout.RoundUpBelow | src/lib.rs:22-23 | rounding up never passes a larger multiple of the alignment |
| AllocLayout.MaxSizeIsMultiple | src/lib.rs:23 | the size bound for a power-of-two alignment is itself a multiple of it, so padding a valid layout cannot fail |
| AllocLayout.PowerOfTwoDivides | src/lib.rs:22 | of two powers of two, the smaller divides the larger, so a record aligned for `max(align H, align F)` is aligned for both |
| AllocLayout.IsizeBoundIsPowerOfTwo | src/lib.rs:22-23 | `isize::MAX + 1` is a power of two |
| DstData.LayoutOf | src/lib.rs:21-26 | `layout_of(count)` fails with `LayoutError` exactly when the rounded header plus `count` footer elements exceed the bound for `max(align H, align F)`; on success the alignment is that maximum, the size is a multiple of it, and the footer fits between the header and the end |
| DstData.Stride | src/lib.rs:222-226 | the stride is a multiple of the record alignment, holds the header and the whole footer, and is at most `isize::MAX` |
| DstData.ArrayLayout | src/lib.rs:48-49 | the array block succeeds exactly when `layout_of` does and `stride * arraySize` fits; its size is exactly `stride * arraySize` with the record alignment |
| DstData.SingleRecordArray | src/lib.rs:49 | repeating a record layout once gives `layout_of` itself, so a single record and a one-record array share one layout |
| DstData.AllocSelf | src/lib.rs:29-42 | `alloc_self` aborts exactly when the allocator answers null, and otherwise returns that address |
| DstData.AllocSelfArrayAsWritten | src/lib.rs:48-56 | `alloc_self_array` as written returns whatever the allocator answered, null included |
| DstData.AllocSelfArrayAcceptsNull | src/lib.rs:51-55 | a null answer is passed on by `alloc_self_array` but refused by `alloc_self` |
| DstData.RecordInsideBlock | src/lib.rs:228-236 | record `i < arraySize`, at offset `stride * i`, ends inside the block |
| DstData.RecordsDisjoint | src/lib.rs:233 | the stride-long ranges of two distinct records do not overlap |
| DstData.SlotInsideRecord | src/lib.rs:14-18 | with `repr(C)`, the header and every footer element lie inside their own record's stride |
| DstData.SlotsDisjoint | src/lib.rs:14-18 | two distinct slots of a block (headers or footer elements, of any records) share no byte |
| DstData.SlotAligned | src/lib.rs:14-18 | when the block is aligned for the record, every header is aligned for `H` and every footer element for `F` |
| DstData.SlotFitsRecord | src/lib.rs:14-18 | the header and each footer element end before the footer does |
| DstData.ElementsDisjoint | src/lib.rs:17 | two distinct footer elements do not overlap |
| Records.Block.constructor | src/lib.rs:32 | a fresh allocation for `records` records of footer length `count`, with nothing written yet |
| Records.Block.Address | src/lib.rs:58-64 | a slot's address is aligned for what it holds and, for a slot that exists, inside the allocation |
| Records.MaybeUninitDst.View | src/lib.rs:233-235 | a view of record `index`, `stride * index` bytes into the block |
| Records.MaybeUninitDst.FooterLen | src/lib.rs:166-168 | `get_footer_len` is the footer length the record was allocated with |
| Records.MaybeUninitDst.HeaderPtr | src/lib.rs:124-132 | the header pointer is the record's start, aligned for `H`, with the header inside the allocation |
| Records.MaybeUninitDst.FooterPtr | src/lib.rs:136-144 | the footer pointer lies after the header, is aligned for `F`, and the whole footer fits in the record |
| Records.MaybeUninitDst.FooterElementPtr | src/lib.rs:148-164 | element `k` is `k` elements past the footer start and aligned for `F`; for `k` below the footer length it lies inside the allocation (the index is not checked) |
| Records.MaybeUninitDst.WriteHeader | src/lib.rs:90-94 | after `write_header(h)` the header reads back `h`; no other header and no footer changes |
| Records.MaybeUninitDst.WriteFooter | src/lib.rs:96-105 | panics unless the slice has the footer length; otherwise the footer reads back the slice, other records and all headers are unchanged, and the whole footer counts as written |
| Records.MaybeUninitDst.WriteFooterElement | src/lib.rs:107-116 | panics unless the index is below the footer length; otherwise only that element changes and reads back the value |
| Records.MaybeUninitDst.ReadHeader | src/lib.rs:122-132 | reading through the header pointer requires the header to have been written (otherwise undefined behaviour); it yields the stored header |
| Records.MaybeUninitDst.ReadFooter | src/lib.rs:134-144 | reading through the footer pointer requires every footer element to have been written; it yields a slice of the footer length whose element `k` is what reading element `k` yields |
| Records.MaybeUninitDst.ReadFooterElement | src/lib.rs:146-164 | reading through the pointer to element `k` requires `k` in range and that element written; it yields the stored element |
| Records.MaybeUninitDst.AssumeInit | src/lib.rs:118-120 | the owned record reads the same header, footer and footer length as the builder |
| Records.NewRecord | src/lib.rs:84-88 | `new(count)` fails with `LayoutError` when `layout_of` does and aborts on a null allocation; otherwise a fresh one-record block at the allocator's address, for the given `H` and `F` layouts, with footer length `count`, nothing written, allocated with `layout_of(count)` |
| Records.Dst.FooterLen | src/lib.rs:192-194 | the length of the footer slice, which is the length given at allocation |
| Records.Dst.SetHeader | src/lib.rs:180-182 | assigning through `get_header_ref_mut` changes the header |
| Records.Dst.SetFooterElement | src/lib.rs:188-190 | indexing the mutable footer slice panics unless the index is in range; otherwise only that element changes |
| Records.Dst.DropAsWritten | src/lib.rs:197-206 | as written: destroys the footer, the header, then the footer again, and frees the block with the layout it was allocated with |
| Records.Dst.Drop | src/lib.rs:197-206 | destroys every slot exactly once and frees the block with its allocation layout |
| Destruction.DropInPlaceOnce | src/lib.rs:14-18 | field-by-field destruction runs each destructor once: the header, then the footer elements in order |
| Destruction.DropInPlaceAsWrittenDropsTwice | src/lib.rs:71-77 | with the `Drop` impl of `DstData`, footer element 0 is destroyed first and again after the header |
| Destruction.OffsetsAsWrittenMissFirst | src/lib.rs:344-350 | the loop as written never visits offset 0, and its last step is `len` strides in |
| Destruction.ArrayDropIntendedCorrect | src/lib.rs:340-359 | the intended drop visits record `i` at step `i` for every `i < len`, each inside the block and apart from the others, and frees with the allocation layout |
| Destruction.ArrayDropAsWrittenMissesFirst | src/lib.rs:344-350 | as written, record 0 is never destroyed and the last offset is the end of the block |
| Destruction.ArrayDropAsWrittenFreesWrongLayout | src/lib.rs:353-356 | as written, an array of two or more non-empty records is freed with a smaller layout than it was allocated with |
| Destruction.ArrayDropAsWrittenPanicsWhenEmpty | src/lib.rs:335-337 | as written, dropping an empty array panics in `get_footer_len` |
| Destruction.ArrayDropAsWrittenExample | src/lib.rs:454-477 | the test's array (`u32` headers, two `u8` footer elements, two records): offsets 8 and 16 destroyed in a 16-byte block that is freed as 8 bytes; intended: offsets 0 and 8, 16 bytes freed |
| RecordArrays.MaybeUninitDstArray.constructor | src/lib.rs:216-219 | the struct literal of `new`: the given length and block, the block holding exactly `len` records |
| RecordArrays.MaybeUninitDstArray.FooterLen | src/lib.rs:245-247 | the footer length shared by every record of the array |
| RecordArrays.MaybeUninitDstArray.Stride | src/lib.rs:222-226 | the stride of `layout_of(get_footer_len())`; `len` strides make the whole block, and it keeps records aligned |
| RecordArrays.MaybeUninitDstArray.GetElement | src/lib.rs:228-236 | panics unless the index is below the length; otherwise a view of that record at `stride * i` |
| RecordArrays.MaybeUninitDstArray.WriteHeader | src/lib.rs:249-251 | panics on an out-of-range index; otherwise only header `i` changes |
| RecordArrays.MaybeUninitDstArray.WriteFooter | src/lib.rs:253-255 | panics on an out-of-range index, then on a wrong length; otherwise record `i`'s footer reads back the slice and no other record changes |
| RecordArrays.MaybeUninitDstArray.WriteFooterElement | src/lib.rs:257-260 | panics on an out-of-range record, then footer index; otherwise only that element changes |
| RecordArrays.MaybeUninitDstArray.HeaderPtr | src/lib.rs:264-272 | panics on an out-of-range index; otherwise record `i`'s start, aligned for `H`, with the header inside the block |
| RecordArrays.MaybeUninitDstArray.FooterPtr | src/lib.rs:276-284 | panics on an out-of-range index; otherwise after record `i`'s header, aligned for `F`, with the footer inside record `i` |
| RecordArrays.MaybeUninitDstArray.FooterElementPtr | src/lib.rs:288-298 | panics on an out-of-range record only; always aligned for `F`, and inside the block for an in-range element |
| RecordArrays.MaybeUninitDstArray.AssumeInit | src/lib.rs:238-243 | the owned array has the same length and block |
| RecordArrays.NewArray | src/lib.rs:215-220 | as intended: fails with `LayoutError` when the array layout does; a null answer aborts, which the source omits (as written: `DstData.AllocSelfArrayAsWritten`); otherwise a fresh block at the allocator's address, for the given `H` and `F` layouts, of `arraySize` records with footer length `count` and nothing written |
| RecordArrays.DstArray.constructor | src/lib.rs:239-242 | the struct literal of `assume_init`: the builder's length and block, every record written |
| RecordArrays.DstArray.Stride | src/lib.rs:307-309 | `len` strides make up the whole block |
| RecordArrays.DstArray.ElementOffset | src/lib.rs:311-317 | panics unless the index is below the length; otherwise `stride * i`, with the record inside the block |
| RecordArrays.DstArray.HeaderRef | src/lib.rs:319-321 | panics on an out-of-range index; otherwise header `i` |
| RecordArrays.DstArray.FooterRef | src/lib.rs:327-329 | panics on an out-of-range index; otherwise record `i`'s footer, of the block's footer length |
| RecordArrays.DstArray.FooterLen | src/lib.rs:335-337 | the footer length, read from record 0, so it panics exactly when the array is empty |
| RecordArrays.DstArray.SetHeader | src/lib.rs:323-325 | panics on an out-of-range index; otherwise only header `i` changes |
| RecordArrays.DstArray.SetFooterElement | src/lib.rs:331-333 | panics on an out-of-range record or footer index; otherwise only that element changes |
| RecordArrays.DstArray.DropAsWritten | src/lib.rs:340-359 | as written: the offsets visited are records `1 ..= len`, then a panic on an empty array or a free with `layout_of(count)` |
| RecordArrays.DstArray.Drop | src/lib.rs:340-359 | records `0 .. len - 1` each visited once, inside the block and pairwise disjoint, then freed with the allocation layout |
| RecordArrays.WalkRecords | src/lib.rs:344-351 | the pointer loop visits `steps` offsets, a stride apart, from record `first` |
| Scenarios.Writing | src/lib.rs:366-385 | the header reads back 2 and the footer `[1, 2]` |
| Scenarios.InvalidFooterWrite | src/lib.rs:387-395 | a three-element footer for a two-element record panics |
| Scenarios.InvalidElementWrite | src/lib.rs:397-403 | writing footer element 3 of two panics |
| Scenarios.ElementWrite | src/lib.rs:405-414 | footer element 1 reads back 1 |
| Scenarios.ElementWrite2 | src/lib.rs:416-433 | after footer `[1, 2, 3]` and element 1 := 5 the footer is `[1, 5, 3]` |
| Scenarios.AssumeInitKeepsContents | src/lib.rs:435-452 | after `assume_init` the footer length is 5, the footer `[0, 1, 2, 3, 4]` and the header 1 |
| Scenarios.ArrayContents | src/lib.rs:454-477 | each record of the array reads back its own header and footer |
| Scenarios.ArrayInvalid | src/lib.rs:479-485 | writing the header of record 2 of two panics |

## Left out

- Allocation is a parameter `answer`: the address the allocator returns, assumed aligned for the record, as `alloc` promises. `dealloc` appears only as the freed layout in the drop traces. The allocator itself is not part of this model.
- A zero-size layout (an empty array, or a record whose types are all zero-sized) is allocated like any other, although `alloc` with a zero-size layout is undefined behaviour in Rust.
- Drop does not consume its value. `Dst.Drop` and `DstArray.Drop` are read-only methods returning a trace, and the freed state after the drop is not modelled.
- The bodies of the `H` and `F` destructors are user code. The traces record only which slots or records are destroyed.
- Raw pointers, fat-pointer metadata (`from_raw_parts_mut`, `slice_from_raw_parts`, `addr_of_mut!`, `byte_add`), aliasing and lifetimes: addresses are integers and references are reads of the block. The `const`/`mut` pointer accessor pairs are modelled by one function each.
- Records.MaybeUninitDst.WriteFooter: `write_footer` copies the borrowed `&[F]` bitwise (src/lib.rs:96-105), so for an `F` with a destructor the caller's slice and the record then both own the same values. The model copies values and does not capture that duplicated ownership.
- `H` and `F` are type parameters paired with their layouts. The model does not check that a layout belongs to its type, beyond requiring it to be a valid type layout (size a multiple of the alignment).
- `ptr::copy_nonoverlapping` in `write_footer` is modelled as an element-by-element copy loop.
- Only a 64-bit target is modelled (`usize` of 64 bits). Footer lengths, array lengths, indices and addresses are unbounded naturals rather than `usize`: a layout bounds the byte sizes by `isize::MAX`, but with a zero-size `F` the model accepts footer lengths above `usize::MAX` that Rust cannot express.
- `padding_needed_for` is computed by rounding up. The standard library's bitmask formula gives the same value for power-of-two alignments.
- The `#![feature]` gates are not logic and are not modelled.
- Records.MaybeUninitDst.AssumeInit: requires a view of a one-record block, because `get_element` is private: the only builders users can reach come from `new`. It also requires header and footer to be written, as the `unsafe` contract of `assume_init` asks.
- Records.Dst.Header and Records.Dst.Footer (`get_header_ref`, `get_footer_ref`, src/lib.rs:176-190) are plain reads of the block and carry no contract of their own; `Records.MaybeUninitDst.AssumeInit` and `Scenarios.AssumeInitKeepsContents` state what they return.

## Findings

| source | as written | input that shows it | evidently intended | confidence | as-written member | corrected member |
|---|---|---|---|---|---|---|
| src/lib.rs:344-350 | the drop loop starts one stride into the block, so it destroys records `1 ..= len` | two `u32`/`[u8; 2]` records: offsets 8 and 16 are destroyed in a 16-byte block | destroy records `0 .. len - 1` | high, not executed | RecordArrays.DstArray.DropAsWritten, Destruction.ArrayDropAsWrittenMissesFirst | RecordArrays.DstArray.Drop, Destruction.ArrayDropIntendedCorrect |
| src/lib.rs:353-356 | the block is freed with `layout_of(count)`, one record's layout | the same array: allocated as `Layout(16, 4)`, freed as `Layout(8, 4)` | free with the `repeat(len)` layout used at src/lib.rs:49 | high, not executed | Destruction.ArrayDropAsWrittenFreesWrongLayout, Destruction.ArrayDropAsWrittenExample | RecordArrays.DstArray.Drop |
| src/lib.rs:71-77 | `DstData`'s own `Drop` destroys the footer slice, and drop glue then destroys the fields, the footer again | any record with `count >= 1`: footer element 0 is destroyed at steps 0 and `count + 1` | each footer element destroyed once | high, not executed | Destruction.DropInPlaceAsWrittenDropsTwice, Records.Dst.DropAsWritten | Destruction.DropInPlaceOnce, Records.Dst.Drop |
| src/lib.rs:335-337 | `get_footer_len` reads record 0, and drop calls it | an array of length 0 panics when dropped | read the footer length from the pointer's metadata, as the builder does at src/lib.rs:245-247 | medium, not executed | Destruction.ArrayDropAsWrittenPanicsWhenEmpty | RecordArrays.DstArray.Drop |
| src/lib.rs:51-55 | `alloc_self_array` never checks the allocator's answer for null | allocator answer 0 is returned as the array's pointer | abort through `handle_alloc_error`, as `alloc_self` does at src/lib.rs:34-35 | high, not executed | DstData.AllocSelfArrayAsWritten, DstData.AllocSelfArrayAcceptsNull | RecordArrays.NewArray |
