/** The parts of Rust's `std::alloc::Layout` that the record engine uses:
    `from_size_align`, `padding_needed_for`, `pad_to_align`, `extend`,
    `array` and `repeat`, for a 64-bit target. Overflow is never silent: each
    operation either yields the exact mathematical result or a `LayoutError`. */
module AllocLayout {
  import opened Faults

  /** Largest value of a 64-bit `usize`. */
  const USIZE_MAX: nat := 0xFFFF_FFFF_FFFF_FFFF
  /** Largest value of a 64-bit `isize`; no layout may describe more bytes. */
  const ISIZE_MAX: nat := 0x7FFF_FFFF_FFFF_FFFF

  predicate IsPowerOfTwo(n: nat)
    ensures IsPowerOfTwo(n) ==> n >= 1
    decreases n
  {
    if n < 2 then n == 1 else n % 2 == 0 && IsPowerOfTwo(n / 2)
  }

  /** A size and an alignment in bytes. */
  datatype Layout = Layout(size: nat, align: nat)

  /** Largest size a layout of alignment `align` may have: rounded up to
      `align`, the size must still fit in an `isize`. */
  function MaxSizeForAlign(align: nat): int
    requires align >= 1
  {
    ISIZE_MAX - (align - 1)
  }

  /** The invariant every `Layout` value keeps. */
  predicate ValidLayout(l: Layout) {
    IsPowerOfTwo(l.align) && l.size <= MaxSizeForAlign(l.align)
  }

  /** What `Layout::new::<T>()` yields: the size of a Rust type is always a
      multiple of its alignment. */
  predicate IsTypeLayout(l: Layout) {
    ValidLayout(l) && l.size % l.align == 0
  }

  // ---------------------------------------------------------------------
  // Arithmetic on multiples

  lemma MultipleMod(q: nat, a: nat)
    requires a >= 1
    ensures (q * a) % a == 0
  {
    var x := q * a;
    var t := q - x / a;
    assert x == a * (x / a) + x % a;
    assert a * t == x % a;
    assert t >= 1 ==> a * t >= a;
    assert t <= -1 ==> a * t <= -(a as int);
  }

  lemma MultipleOfMultiple(x: nat, b: nat, a: nat)
    requires a >= 1 && b >= 1 && x % b == 0 && b % a == 0
    ensures x % a == 0
  {
    var i, j := x / b, b / a;
    assert b == j * a;
    assert x == i * b;
    assert x == (i * j) * a;
    MultipleMod(i * j, a);
  }

  lemma SumOfMultiples(x: nat, y: nat, a: nat)
    requires a >= 1 && x % a == 0 && y % a == 0
    ensures (x + y) % a == 0
  {
    assert x == (x / a) * a;
    assert y == (y / a) * a;
    assert x + y == (x / a + y / a) * a;
    MultipleMod(x / a + y / a, a);
  }

  lemma ScaledMultiple(k: nat, m: nat, a: nat)
    requires a >= 1 && m % a == 0
    ensures (k * m) % a == 0
  {
    assert m == (m / a) * a;
    assert k * m == (k * (m / a)) * a;
    MultipleMod(k * (m / a), a);
  }

  /** Of two multiples of `a`, the one less than the other plus `a` is not
      larger than it. */
  lemma MultiplesApart(r: nat, m: nat, a: nat)
    requires a >= 1 && r % a == 0 && m % a == 0 && r < m + a
    ensures r <= m
  {
    var i, j := r / a, m / a;
    assert r == i * a && m == j * a;
    assert i >= j + 1 ==> i * a >= (j + 1) * a;
  }

  /** Two powers of two: the smaller divides the larger. */
  lemma {:induction false} PowerOfTwoDivides(a: nat, b: nat)
    requires IsPowerOfTwo(a) && IsPowerOfTwo(b) && a <= b
    ensures b % a == 0
  {
    if a > 1 {
      PowerOfTwoDivides(a / 2, b / 2);
      var q := (b / 2) / (a / 2);
      assert b / 2 == q * (a / 2);
      assert b == q * a;
      MultipleMod(q, a);
    }
  }

  function Pow2(k: nat): nat {
    if k == 0 then 1 else 2 * Pow2(k - 1)
  }

  lemma {:induction false} Pow2IsPowerOfTwo(k: nat)
    ensures IsPowerOfTwo(Pow2(k))
  {
    if k > 0 {
      Pow2IsPowerOfTwo(k - 1);
      assert Pow2(k) / 2 == Pow2(k - 1);
    }
  }

  lemma {:induction false} Pow2Add(a: nat, b: nat)
    ensures Pow2(a + b) == Pow2(a) * Pow2(b)
  {
    if a > 0 {
      Pow2Add(a - 1, b);
    }
  }

  /** `ISIZE_MAX + 1`, that is 2^63, is a power of two. */
  lemma IsizeBoundIsPowerOfTwo()
    ensures IsPowerOfTwo(ISIZE_MAX + 1)
  {
    assert Pow2(2) == 4;
    assert Pow2(4) == 16 by { Pow2Add(2, 2); }
    assert Pow2(8) == 256 by { Pow2Add(4, 4); }
    assert Pow2(16) == 0x1_0000 by { Pow2Add(8, 8); }
    assert Pow2(32) == 0x1_0000_0000 by { Pow2Add(16, 16); }
    assert Pow2(63) == ISIZE_MAX + 1 by { Pow2Add(32, 31); Pow2Add(16, 15); Pow2Add(8, 7); Pow2Add(4, 3); }
    Pow2IsPowerOfTwo(63);
  }

  // ---------------------------------------------------------------------
  // Rounding up

  /** The smallest multiple of `align` that is at least `n`. */
  function RoundUp(n: nat, align: nat): (r: nat)
    requires align >= 1
    ensures r % align == 0 && n <= r < n + align
  {
    var q := (n + align - 1) / align;
    assert n + align - 1 == q * align + (n + align - 1) % align;
    MultipleMod(q, align);
    q * align
  }

  /** Rounding up to a multiple never passes another multiple that is at
      least as large. */
  lemma RoundUpBelow(n: nat, m: nat, align: nat)
    requires align >= 1 && m % align == 0 && n <= m
    ensures RoundUp(n, align) <= m
  {
    MultiplesApart(RoundUp(n, align), m, align);
  }

  /** Rounding up a multiple leaves it unchanged. */
  lemma RoundUpOfMultiple(n: nat, align: nat)
    requires align >= 1 && n % align == 0
    ensures RoundUp(n, align) == n
  {
    RoundUpBelow(n, n, align);
  }

  /** The largest size allowed for a power-of-two alignment is itself a
      multiple of that alignment, because `ISIZE_MAX + 1` is. */
  lemma MaxSizeIsMultiple(align: nat)
    requires IsPowerOfTwo(align) && align <= ISIZE_MAX + 1
    ensures MaxSizeForAlign(align) % align == 0
  {
    IsizeBoundIsPowerOfTwo();
    PowerOfTwoDivides(align, ISIZE_MAX + 1);
    var q := (ISIZE_MAX + 1) / align;
    assert ISIZE_MAX + 1 == q * align;
    assert MaxSizeForAlign(align) == (q - 1) * align;
    MultipleMod(q - 1, align);
  }

  // ---------------------------------------------------------------------
  // The operations of `Layout`

  /** `Layout::from_size_align`: the alignment must be a power of two and
      the size, rounded up to it, must fit in an `isize`. */
  function FromSizeAlign(size: nat, align: nat): (r: Result<Layout>)
    ensures r.Ok? <==> IsPowerOfTwo(align) && size <= MaxSizeForAlign(align)
    ensures r.Ok? ==> ValidLayout(r.value) && r.value.size == size && r.value.align == align
    ensures r.Err? ==> r.error == LayoutError
  {
    if !IsPowerOfTwo(align) then Err(LayoutError)
    else if size > MaxSizeForAlign(align) then Err(LayoutError)
    else Ok(Layout(size, align))
  }

  /** `Layout::padding_needed_for`: the bytes to add after `l` so that what
      follows starts at a multiple of `align`. */
  function PaddingNeededFor(l: Layout, align: nat): (pad: nat)
    requires align >= 1
    ensures (l.size + pad) % align == 0 && pad < align
  {
    RoundUp(l.size, align) - l.size
  }

  /** `Layout::pad_to_align`: round the size up to the layout's own
      alignment. It cannot fail on a valid layout. */
  function PadToAlign(l: Layout): (r: Layout)
    requires ValidLayout(l)
    ensures ValidLayout(r) && r.align == l.align
    ensures r.size % r.align == 0 && l.size <= r.size < l.size + l.align
  {
    var padded := l.size + PaddingNeededFor(l, l.align);
    assert padded <= MaxSizeForAlign(l.align) by {
      MaxSizeIsMultiple(l.align);
      RoundUpBelow(l.size, MaxSizeForAlign(l.align), l.align);
    }
    Layout(padded, l.align)
  }

  /** `Layout::array::<T>(n)` for a type of layout `elem`: `n` elements
      back to back; the product is checked against `usize` and the result
      against `isize::MAX`. */
  function ArrayOf(elem: Layout, n: nat): (r: Result<Layout>)
    requires IsTypeLayout(elem)
    ensures r.Ok? <==> n * elem.size <= MaxSizeForAlign(elem.align)
    ensures r.Ok? ==> ValidLayout(r.value) && r.value.size == n * elem.size && r.value.align == elem.align
    ensures r.Err? ==> r.error == LayoutError
  {
    var size := elem.size * n;
    if size > USIZE_MAX then Err(LayoutError) else FromSizeAlign(size, elem.align)
  }

  /** `Layout::extend`: `next` placed after `first` at the first offset
      aligned for `next`; the result is aligned for both and is not padded
      at the end. Also yields that offset. */
  function Extend(first: Layout, next: Layout): (r: Result<(Layout, nat)>)
    requires ValidLayout(first) && ValidLayout(next)
    ensures var offset := RoundUp(first.size, next.align);
      r.Ok? <==> offset + next.size <= MaxSizeForAlign(Max(first.align, next.align))
    ensures r.Ok? ==> var (l, offset) := r.value;
      ValidLayout(l) && l.align == Max(first.align, next.align) &&
      first.size <= offset < first.size + next.align && offset % next.align == 0 &&
      l.size == offset + next.size
    ensures r.Err? ==> r.error == LayoutError
  {
    var newAlign := Max(first.align, next.align);
    var pad := PaddingNeededFor(first, next.align);
    var offset: nat := first.size + pad;
    if offset > USIZE_MAX then Err(LayoutError)
    else
      var newSize := offset + next.size;
      if newSize > USIZE_MAX then Err(LayoutError)
      else
        match FromSizeAlign(newSize, newAlign)
        case Err(e) => Err(e)
        case Ok(l) => Ok((l, offset))
  }

  /** `Layout::repeat`: `n` copies of `l`, each padded to `l`'s alignment;
      also yields the distance between consecutive copies. */
  function Repeat(l: Layout, n: nat): (r: Result<(Layout, nat)>)
    requires ValidLayout(l)
    ensures r.Ok? <==> PadToAlign(l).size * n <= MaxSizeForAlign(l.align)
    ensures r.Ok? ==> var (block, stride) := r.value;
      ValidLayout(block) && block.align == l.align && stride == PadToAlign(l).size &&
      block.size == stride * n
    ensures r.Err? ==> r.error == LayoutError
  {
    var paddedSize := l.size + PaddingNeededFor(l, l.align);
    var allocSize := paddedSize * n;
    if allocSize > USIZE_MAX then Err(LayoutError)
    else
      match FromSizeAlign(allocSize, l.align)
      case Err(e) => Err(e)
      case Ok(block) => Ok((block, paddedSize))
  }

  function Max(a: nat, b: nat): nat {
    if a < b then b else a
  }

}
