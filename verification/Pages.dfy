/** Page arithmetic of `src/sys/mmap.rs` and the page-stride loops of `probe` and `probe_pages`.

    A `usize` is a natural number below `USIZE`; `Add` and `Sub` are its wrapping operators and `And`
    and `Not` its bit operators, defined bit by bit. The mask expressions of the source are written
    with them, and the lemmas show that nothing wraps and that the masks round to page multiples. */
module Pages {
  import opened Wrappers

  const WORD: nat := 64
  const USIZE: nat := 0x1_0000_0000_0000_0000

  function Pow2(k: nat): (p: nat)
    ensures p >= 1
  {
    if k == 0 then 1 else 2 * Pow2(k - 1)
  }

  /** Bitwise conjunction. */
  function And(x: nat, y: nat): (z: nat)
    ensures z <= x && z <= y
  {
    if x == 0 || y == 0 then 0
    else 2 * And(x / 2, y / 2) + (if x % 2 == 1 && y % 2 == 1 then 1 else 0)
  }

  /** Bitwise complement of a machine word. */
  function Not(x: nat): nat
    requires x < USIZE
  {
    USIZE - 1 - x
  }

  function Add(x: nat, y: nat): (z: nat)
    requires x < USIZE && y < USIZE
    ensures z < USIZE
  {
    if x + y < USIZE then x + y else x + y - USIZE
  }

  function Sub(x: nat, y: nat): (z: nat)
    requires x < USIZE && y < USIZE
    ensures z < USIZE
  {
    if y <= x then x - y else x + USIZE - y
  }

  /** What the kernel promises of `sysconf(_SC_PAGESIZE)`. */
  ghost predicate IsPage(page: nat) {
    exists k: nat :: k < WORD && page == Pow2(k)
  }

  function Floor(x: nat, page: nat): nat
    requires page > 0
  {
    x - x % page
  }

  function CeilDiv(x: nat, page: nat): nat
    requires page > 0
  {
    (x + page - 1) / page
  }

  function Ceil(x: nat, page: nat): nat
    requires page > 0
  {
    Floor(x + page - 1, page)
  }

  datatype Range = Range(offset: nat, len: nat)

  /** The pages of the mapping that hold the bytes `offset..offset + len`, as a byte range. */
  function PageRange(offset: nat, len: nat, page: nat): Range
    requires page > 0
  {
    FloorIsGreatest(offset, 0, page);
    CeilIsLeast(offset + len, 0, page);
    Range(Floor(offset, page), Ceil(offset + len, page) - Floor(offset, page))
  }

  /** The range `advise_range` and `flush` hand to the kernel, or `None` for `InvalidInput`. */
  function AdviseRange(page: nat, mappingLen: nat, offset: nat, len: nat): Option<Range>
    requires 0 < page < USIZE
  {
    if offset + len >= USIZE || offset + len > mappingLen then None
    else
      var alignedOffset := And(offset, Not(page - 1));
      var alignedLen := And(Sub(Add(Add(len, Sub(offset, alignedOffset)), page), 1), Not(page - 1));
      Some(Range(alignedOffset, alignedLen))
  }

  /** The range `mincore` hands to the kernel, or `None` for `InvalidInput`. */
  function MincoreRange(page: nat, mappingLen: nat, offset: nat, len: nat): Option<Range>
    requires 0 < page < USIZE
  {
    if offset + len >= USIZE || offset + len > mappingLen then None
    else
      var alignedOffset := And(offset, Not(page - 1));
      var alignedEnd := And(Sub(Add(Add(offset, len), page), 1), Not(page - 1));
      Some(Range(alignedOffset, Sub(alignedEnd, alignedOffset)))
  }

  // ---------- rounding by masks ----------

  lemma DivModUnique(x: nat, p: nat, q: nat, r: nat)
    requires x == q * p + r && r < p
    ensures x / p == q && x % p == r
  {
    var d: int := x / p - q;
    assert d * p == r - x % p;
    assert 0 - p < d * p < p;
    assert d >= 1 ==> d * p >= p;
    assert d <= -1 ==> d * p <= 0 - p;
  }

  lemma Pow2Monotone(k: nat, w: nat)
    requires k <= w
    ensures Pow2(k) <= Pow2(w)
  {
    if k < w { Pow2Monotone(k, w - 1); }
  }

  lemma WordSize()
    ensures Pow2(WORD) == USIZE
  {
    HalfWordSize();
    Pow2Add(32, 32);
  }

  lemma HalfWordSize()
    ensures Pow2(32) == 0x1_0000_0000
  {
    Pow2Add(16, 16);
    assert Pow2(16) == 0x1_0000 by {
      Pow2Add(8, 8);
    }
  }

  lemma Pow2Add(a: nat, b: nat)
    ensures Pow2(a + b) == Pow2(a) * Pow2(b)
  {
    if a > 0 { Pow2Add(a - 1, b); }
  }

  lemma HalveMod(x: nat, m: nat)
    requires m > 0
    ensures x - x % (2 * m) == 2 * (x / 2 - x / 2 % m)
  {
    var q, r := x / 2 / m, x / 2 % m;
    assert x / 2 == q * m + r;
    assert x == q * (2 * m) + (2 * r + x % 2);
    DivModUnique(x, 2 * m, q, 2 * r + x % 2);
  }

  lemma AndStep(a: nat, c: nat, b: nat, d: nat)
    requires c < 2 && d < 2
    ensures And(2 * a + c, 2 * b + d) == 2 * And(a, b) + c * d
  {
    assert (2 * a + c) / 2 == a && (2 * b + d) / 2 == b;
  }

  lemma {:induction false} MaskOfOnes(x: nat, w: nat)
    requires x < Pow2(w)
    ensures And(x, Pow2(w) - 1) == x
  {
    if w > 0 {
      var a, c := x / 2, x % 2;
      MaskOfOnes(a, w - 1);
      AndStep(a, c, Pow2(w - 1) - 1, 1);
      assert 2 * (Pow2(w - 1) - 1) + 1 == Pow2(w) - 1;
    }
  }

  lemma MaskDoubles(x: nat, b: nat)
    ensures And(x, 2 * b) == 2 * And(x / 2, b)
  {
    AndStep(x / 2, x % 2, b, 0);
  }

  lemma Pow2Halves(k: nat, w: nat)
    requires 0 < k <= w
    ensures Pow2(k) == 2 * Pow2(k - 1) && Pow2(w) == 2 * Pow2(w - 1)
    ensures Pow2(k - 1) <= Pow2(w - 1) && Pow2(w) - Pow2(k) == 2 * (Pow2(w - 1) - Pow2(k - 1))
  {
    Pow2Monotone(k - 1, w - 1);
  }

  lemma MaskDoublesTo(x: nat, b: nat, twice: nat, high: nat)
    requires And(x / 2, b) == high && twice == 2 * b
    ensures And(x, twice) == 2 * high
  {
    MaskDoubles(x, b);
  }

  lemma HalveModPow2(x: nat, k: nat)
    requires k > 0
    ensures x - x % Pow2(k) == 2 * (x / 2 - x / 2 % Pow2(k - 1))
  {
    HalveMod(x, Pow2(k - 1));
  }

  ghost predicate Clears(x: nat, p: nat, top: nat) {
    0 < p <= top && And(x, top - p) == x - x % p
  }

  lemma ClearsNone(x: nat, top: nat)
    requires top > 0 && And(x, top - 1) == x
    ensures Clears(x, 1, top)
  {
  }

  lemma ClearsOneMore(x: nat, k: nat, w: nat)
    requires 0 < k <= w && Clears(x / 2, Pow2(k - 1), Pow2(w - 1))
    ensures Clears(x, Pow2(k), Pow2(w))
  {
    Pow2Halves(k, w);
    HalveModPow2(x, k);
    MaskDoublesTo(x, Pow2(w - 1) - Pow2(k - 1), Pow2(w) - Pow2(k), x / 2 - x / 2 % Pow2(k - 1));
  }

  lemma {:induction false} MaskClears(x: nat, k: nat, w: nat)
    requires k <= w && x < Pow2(w)
    ensures Clears(x, Pow2(k), Pow2(w))
  {
    if k == 0 {
      MaskOfOnes(x, w);
      ClearsNone(x, Pow2(w));
    } else {
      MaskClears(x / 2, k - 1, w - 1);
      ClearsOneMore(x, k, w);
    }
  }

  /** Clearing the low `k` bits of a `w`-bit word subtracts the remainder modulo `2^k`. */
  lemma MaskClearsLowBits(x: nat, k: nat, w: nat)
    requires k <= w && x < Pow2(w)
    ensures Pow2(k) <= Pow2(w)
    ensures And(x, Pow2(w) - Pow2(k)) == x - x % Pow2(k)
  {
    MaskClears(x, k, w);
  }

  /** `x & !(page - 1)` rounds down to a page multiple. */
  lemma MaskIsFloor(x: nat, page: nat)
    requires IsPage(page) && x < USIZE
    ensures 0 < page < USIZE
    ensures And(x, Not(page - 1)) == Floor(x, page)
  {
    WordSize();
    var k: nat :| k < WORD && page == Pow2(k);
    MaskIsFloorIn(x, page, k, WORD);
  }

  lemma MaskIsFloorIn(x: nat, page: nat, k: nat, w: nat)
    requires k < w && page == Pow2(k) && Pow2(w) == USIZE && x < USIZE
    ensures 0 < page < USIZE
    ensures And(x, Not(page - 1)) == Floor(x, page)
  {
    Pow2Monotone(k, w - 1);
    assert And(x, Not(page - 1)) == x - x % page by {
      MaskClearsLowBits(x, k, w);
    }
  }

  lemma Distribute(a: nat, b: nat, p: nat)
    ensures (a + b) * p == a * p + b * p
  {
  }

  lemma MulMonotone(a: nat, b: nat, p: nat)
    requires a <= b
    ensures a * p <= b * p
  {
  }

  lemma DivShift(q: nat, y: nat, p: nat)
    requires p > 0
    ensures (q * p + y) / p == q + y / p
    ensures (q * p + y) % p == y % p
  {
    Distribute(q, y / p, p);
    DivModUnique(q * p + y, p, q + y / p, y % p);
  }

  lemma DivMonotone(x: nat, y: nat, p: nat)
    requires p > 0 && x <= y
    ensures x / p <= y / p
  {
    var d := y - x;
    assert y == (x / p) * p + (x % p + d);
    DivShift(x / p, x % p + d, p);
  }

  lemma FloorIsMultiple(x: nat, page: nat)
    requires page > 0
    ensures Floor(x, page) == x / page * page && Floor(x, page) % page == 0 && Floor(x, page) / page == x / page
  {
    DivShift(x / page, 0, page);
  }

  /** `Floor` is the largest page multiple not above `x`. */
  lemma FloorIsGreatest(x: nat, m: nat, page: nat)
    requires page > 0
    ensures Floor(x, page) <= x && Floor(x, page) % page == 0
    ensures m % page == 0 && m <= x ==> m <= Floor(x, page)
  {
    FloorIsMultiple(x, page);
    if m % page == 0 && m <= x {
      FloorIsMultiple(m, page);
      DivMonotone(m, x, page);
      MulMonotone(m / page, x / page, page);
    }
  }

  lemma CeilOfMultiple(m: nat, page: nat)
    requires page > 0 && m % page == 0
    ensures Ceil(m, page) == m
  {
    DivModUnique(m + page - 1, page, m / page, page - 1);
  }

  /** `Ceil` is the smallest page multiple not below `x`. */
  lemma CeilIsLeast(x: nat, m: nat, page: nat)
    requires page > 0
    ensures x <= Ceil(x, page) && Ceil(x, page) % page == 0
    ensures m % page == 0 && x <= m ==> Ceil(x, page) <= m
  {
    var c := Ceil(x, page);
    assert c == Floor(x + page - 1, page);
    FloorIsGreatest(x + page - 1, 0, page);
    if m % page == 0 && x <= m {
      CeilOfMultiple(m, page);
      FloorIsGreatest(m + page - 1, c, page);
    }
  }

  /** The length formula of `advise_range` counts from the rounded-down offset to the rounded-up end. */
  lemma LengthFormula(page: nat, offset: nat, len: nat)
    requires page > 0
    ensures Floor(offset, page) <= offset
    ensures Floor(len + (offset - Floor(offset, page)) + page - 1, page)
        == Ceil(offset + len, page) - Floor(offset, page)
  {
    FloorIsGreatest(offset, 0, page);
    var q, r := offset / page, offset - Floor(offset, page);
    var up := len + r + page - 1;
    assert offset + len + page - 1 == q * page + up;
    DivShift(q, up, page);
    Distribute(q, up / page, page);
  }

  lemma AdviseRangeWith(
    page: nat, mappingLen: nat, offset: nat, len: nat, lo: nat, up: nat, rounded: nat, range: Range)
    requires 0 < page < USIZE && mappingLen + page < USIZE && offset + len <= mappingLen && lo <= offset
    requires And(offset, Not(page - 1)) == lo && up == len + (offset - lo) + page - 1
    requires And(up, Not(page - 1)) == rounded && range == Range(lo, rounded)
    ensures AdviseRange(page, mappingLen, offset, len) == Some(range)
  {
    assert Sub(Add(Add(len, Sub(offset, lo)), page), 1) == up;
  }

  lemma MincoreRangeWith(page: nat, mappingLen: nat, offset: nat, len: nat, lo: nat, end: nat, range: Range)
    requires 0 < page < USIZE && mappingLen + page < USIZE && offset + len <= mappingLen
    requires And(offset, Not(page - 1)) == lo && And(offset + len + page - 1, Not(page - 1)) == end
    requires lo <= end < USIZE && range == Range(lo, end - lo)
    ensures MincoreRange(page, mappingLen, offset, len) == Some(range)
  {
    assert Sub(Add(Add(offset, len), page), 1) == offset + len + page - 1;
    assert Sub(end, lo) == end - lo;
  }

  /** The subtractions and sums of the two length formulas stay within a word, so none of them wraps. */
  predicate NothingWraps(page: nat, offset: nat, len: nat)
    requires 0 < page < USIZE && offset < USIZE
  {
    var lo := And(offset, Not(page - 1));
    && lo <= offset && len + (offset - lo) + page < USIZE
    && offset + len + page < USIZE && lo <= And(offset + len + page - 1, Not(page - 1))
  }

  /** Both length formulas of the source, the one of `advise_range` and `flush` and the one of `mincore`,
      compute the same range: from the page of the first byte to the end of the page of the last. A request
      outside the mapping is refused by both. No intermediate result of a request inside it wraps. */
  lemma RoundingAgrees(page: nat, mappingLen: nat, offset: nat, len: nat)
    requires IsPage(page) && mappingLen + page < USIZE
    ensures 0 < page < USIZE
    ensures AdviseRange(page, mappingLen, offset, len) == MincoreRange(page, mappingLen, offset, len)
         == if offset + len > mappingLen then None else Some(PageRange(offset, len, page))
    ensures offset + len <= mappingLen ==> NothingWraps(page, offset, len)
  {
    MaskIsFloor(0, page);
    if offset + len <= mappingLen {
      RoundingWithin(page, mappingLen, offset, len);
      RoundingStays(page, offset, len);
    }
  }

  lemma RoundingStays(page: nat, offset: nat, len: nat)
    requires IsPage(page) && offset + len + page < USIZE
    ensures 0 < page < USIZE && NothingWraps(page, offset, len)
  {
    MaskIsFloor(offset, page);
    MaskIsFloor(offset + len + page - 1, page);
    FloorIsGreatest(offset, 0, page);
    FloorIsGreatest(offset + len + page - 1, Floor(offset, page), page);
  }

  lemma RoundingWithin(page: nat, mappingLen: nat, offset: nat, len: nat)
    requires IsPage(page) && mappingLen + page < USIZE && offset + len <= mappingLen
    ensures 0 < page < USIZE
    ensures AdviseRange(page, mappingLen, offset, len) == MincoreRange(page, mappingLen, offset, len)
         == Some(PageRange(offset, len, page))
  {
    AdviseWithin(page, mappingLen, offset, len);
    MincoreWithin(page, mappingLen, offset, len);
  }

  lemma FloorBelowCeil(offset: nat, len: nat, page: nat)
    requires page > 0
    ensures Floor(offset, page) <= Ceil(offset + len, page)
  {
    FloorIsGreatest(offset, 0, page);
    CeilIsLeast(offset + len, 0, page);
  }

  /** `(x + page - 1) & !(page - 1)` rounds up to a page multiple. */
  lemma MaskIsCeil(x: nat, page: nat)
    requires IsPage(page) && x + page < USIZE
    ensures 0 < page < USIZE
    ensures And(x + page - 1, Not(page - 1)) == Ceil(x, page) < USIZE
  {
    MaskIsFloor(0, page);
    MaskIsFloor(x + page - 1, page);
  }

  lemma MincoreParts(page: nat, offset: nat, len: nat) returns (lo: nat, end: nat)
    requires IsPage(page) && offset + len + page < USIZE
    ensures 0 < page < USIZE && lo <= end < USIZE && PageRange(offset, len, page) == Range(lo, end - lo)
    ensures And(offset, Not(page - 1)) == lo && And(offset + len + page - 1, Not(page - 1)) == end
  {
    MaskIsFloor(offset, page);
    MaskIsCeil(offset + len, page);
    FloorBelowCeil(offset, len, page);
    lo, end := Floor(offset, page), Ceil(offset + len, page);
  }

  lemma MincoreWithin(page: nat, mappingLen: nat, offset: nat, len: nat)
    requires IsPage(page) && mappingLen + page < USIZE && offset + len <= mappingLen
    ensures 0 < page < USIZE
    ensures MincoreRange(page, mappingLen, offset, len) == Some(PageRange(offset, len, page))
  {
    var lo, end := MincoreParts(page, offset, len);
    MincoreRangeWith(page, mappingLen, offset, len, lo, end, PageRange(offset, len, page));
  }

  /** The page range, by the length formula of `advise_range`. */
  lemma PageRangeIs(offset: nat, len: nat, page: nat)
    requires page > 0
    ensures Floor(offset, page) <= offset
    ensures PageRange(offset, len, page)
         == Range(Floor(offset, page), Floor(len + (offset - Floor(offset, page)) + page - 1, page))
  {
    LengthFormula(page, offset, len);
  }

  lemma AdviseWithin(page: nat, mappingLen: nat, offset: nat, len: nat)
    requires IsPage(page) && mappingLen + page < USIZE && offset + len <= mappingLen
    ensures 0 < page < USIZE
    ensures AdviseRange(page, mappingLen, offset, len) == Some(PageRange(offset, len, page))
  {
    MaskIsFloor(offset, page);
    PageRangeIs(offset, len, page);
    var lo := Floor(offset, page);
    var up := len + (offset - lo) + page - 1;
    MaskIsFloor(up, page);
    AdviseRangeWith(page, mappingLen, offset, len, lo, up, Floor(up, page), PageRange(offset, len, page));
  }

  /** What the rounded range is for: it is page-aligned, covers the request, stays within the mapping rounded
      up to whole pages, and every page-aligned range that covers the request contains it. */
  lemma SmallestPageCover(page: nat, mappingLen: nat, offset: nat, len: nat, lo: nat, hi: nat)
    requires page > 0 && offset + len <= mappingLen
    ensures var first, end := Floor(offset, page), Ceil(offset + len, page);
            && first % page == 0 && end % page == 0
            && first <= offset && offset + len <= end <= Ceil(mappingLen, page)
            && (lo <= offset && offset + len <= hi && lo % page == 0 && hi % page == 0 ==> lo <= first && end <= hi)
  {
    FloorIsGreatest(offset, lo, page);
    CeilIsLeast(offset + len, hi, page);
    CeilIsLeast(mappingLen, 0, page);
    CeilIsLeast(offset + len, Ceil(mappingLen, page), page);
  }

  // ---------- page-stride loops ----------

  /** The positions a fault-free stride loop `pos = offset; while pos < offset + len { touch; pos += page }` touches. */
  function Strides(offset: nat, len: nat, page: nat): (positions: seq<nat>)
    requires page > 0
  {
    seq(CeilDiv(len, page), i => offset + i * page)
  }

  /** The pages of the mapping that a list of touched positions brings in. */
  function PagesOf(positions: seq<nat>, page: nat): set<nat>
    requires page > 0
  {
    set i | 0 <= i < |positions| :: positions[i] / page
  }

  /** The pages that hold a byte of the range. */
  function PagesSpanned(offset: nat, len: nat, page: nat): set<nat>
    requires page > 0
  {
    set b | offset <= b < offset + len :: b / page
  }

  /** The caller-checkable condition under which the stride loops skip the last page of their range: the first
      byte sits further into its page than the last byte sits into its own. */
  predicate SkipsLastPage(offset: nat, len: nat, page: nat)
    requires page > 0
  {
    len > 0 && offset % page + (len - 1) % page >= page
  }

  function Interval(lo: nat, n: nat): (s: set<nat>)
    ensures |s| == n
    ensures forall i :: i in s <==> lo <= i < lo + n
  {
    if n == 0 then {} else Interval(lo, n - 1) + {lo + n - 1}
  }

  lemma CountAbove(n: nat, len: nat, page: nat)
    requires page > 0 && n > 0 && (n - 1) * page < len
    ensures n <= CeilDiv(len, page)
  {
    Distribute(n - 1, 1, page);
    DivShift(n, 0, page);
    DivMonotone(n * page, len + page - 1, page);
  }

  lemma StrideAt(offset: nat, len: nat, page: nat, i: nat)
    requires page > 0 && i < CeilDiv(len, page)
    ensures i * page < len
    ensures (offset + i * page) / page == offset / page + i
  {
    DivShift(i, offset, page);
    FloorIsGreatest(len + page - 1, 0, page);
    MulMonotone(i + 1, CeilDiv(len, page), page);
    Distribute(i, 1, page);
  }

  lemma StrideAtPosition(offset: nat, len: nat, page: nat, i: nat)
    requires page > 0 && i < CeilDiv(len, page)
    ensures var s := Strides(offset, len, page);
            s[i] / page == offset / page + i && offset <= s[i] < offset + len
  {
    StrideAt(offset, len, page, i);
  }

  lemma PagesInOrder(positions: seq<nat>, page: nat, first: nat)
    requires page > 0
    requires forall i | 0 <= i < |positions| :: positions[i] / page == first + i
    ensures PagesOf(positions, page) == Interval(first, |positions|)
  {
    forall b | b in Interval(first, |positions|)
      ensures b in PagesOf(positions, page)
    {
      assert positions[b - first] / page == b;
    }
  }

  lemma StridesInRange(offset: nat, len: nat, page: nat)
    requires page > 0
    ensures forall p | p in Strides(offset, len, page) :: offset <= p < offset + len
  {
    var s := Strides(offset, len, page);
    forall p | p in s
      ensures offset <= p < offset + len
    {
      var i :| 0 <= i < |s| && s[i] == p;
      StrideAtPosition(offset, len, page, i);
    }
  }

  lemma StridePages(offset: nat, len: nat, page: nat)
    requires page > 0
    ensures PagesOf(Strides(offset, len, page), page) == Interval(offset / page, CeilDiv(len, page))
    ensures forall p | p in Strides(offset, len, page) :: offset <= p < offset + len
  {
    StridesInRange(offset, len, page);
    var s, first := Strides(offset, len, page), offset / page;
    forall i | 0 <= i < |s|
      ensures s[i] / page == first + i
    {
      StrideAtPosition(offset, len, page, i);
    }
    PagesInOrder(s, page, first);
  }

  lemma SpansOnly(offset: nat, len: nat, page: nat, x: nat)
    requires page > 0 && offset <= x < offset + len
    ensures offset / page <= x / page <= (offset + len - 1) / page
  {
    DivMonotone(offset, x, page);
    DivMonotone(x, offset + len - 1, page);
  }

  /** A page after the first starts inside the range. */
  lemma PageStartsInside(offset: nat, len: nat, page: nat, b: nat)
    requires page > 0 && len > 0 && offset / page < b <= (offset + len - 1) / page
    ensures offset <= b * page < offset + len
  {
    FloorIsMultiple(offset, page);
    FloorIsMultiple(offset + len - 1, page);
    MulMonotone(offset / page + 1, b, page);
    Distribute(offset / page, 1, page);
    MulMonotone(b, (offset + len - 1) / page, page);
  }

  lemma InPagesSpanned(offset: nat, len: nat, page: nat, x: nat, b: nat)
    requires page > 0 && offset <= x < offset + len && x / page == b
    ensures b in PagesSpanned(offset, len, page)
  {
  }

  lemma SpansEach(offset: nat, len: nat, page: nat, b: nat)
    requires page > 0 && len > 0 && offset / page <= b <= (offset + len - 1) / page
    ensures b in PagesSpanned(offset, len, page)
  {
    if b == offset / page {
      InPagesSpanned(offset, len, page, offset, b);
    } else {
      PageStartsInside(offset, len, page, b);
      DivShift(b, 0, page);
      InPagesSpanned(offset, len, page, b * page, b);
    }
  }

  lemma SpannedPages(offset: nat, len: nat, page: nat)
    requires page > 0 && len > 0
    ensures offset / page <= (offset + len - 1) / page
    ensures PagesSpanned(offset, len, page) == Interval(offset / page, (offset + len - 1) / page - offset / page + 1)
  {
    SpansOnly(offset, len, page, offset);
    var first, last := offset / page, (offset + len - 1) / page;
    forall b | b in PagesSpanned(offset, len, page)
      ensures first <= b <= last
    {
      var x :| offset <= x < offset + len && x / page == b;
      SpansOnly(offset, len, page, x);
    }
    forall b | first <= b <= last
      ensures b in PagesSpanned(offset, len, page)
    {
      SpansEach(offset, len, page, b);
    }
  }

  lemma QuotientsWith(offset: nat, len: nat, page: nat, q: nat, r: nat, m: nat, t: nat)
    requires len > 0 && offset == q * page + r && len - 1 == m * page + t && r < page && t < page
    ensures CeilDiv(len, page) == m + 1
    ensures (offset + len - 1) / page == q + m + (if r + t >= page then 1 else 0)
    ensures CeilDiv(r + len, page) == m + 1 + (if r + t >= page then 1 else 0)
  {
    Distribute(m, 1, page);
    Distribute(q, m, page);
    DivModUnique(len + page - 1, page, m + 1, t);
    DivShift(q + m, r + t, page);
    DivShift(m + 1, r + t, page);
    if r + t >= page {
      DivModUnique(r + t, page, 1, r + t - page);
    } else {
      DivModUnique(r + t, page, 0, r + t);
    }
  }

  /** The page counts of a non-empty range: what the probe touches, what the range spans, and `mincore`'s count. */
  lemma PageCounts(offset: nat, len: nat, page: nat)
    requires page > 0 && len > 0
    ensures (offset + len - 1) / page
        == offset / page + CeilDiv(len, page) - 1 + (if SkipsLastPage(offset, len, page) then 1 else 0)
    ensures CeilDiv(offset % page + len, page)
        == CeilDiv(len, page) + (if SkipsLastPage(offset, len, page) then 1 else 0)
  {
    QuotientsWith(offset, len, page, offset / page, offset % page, (len - 1) / page, (len - 1) % page);
  }

  /** `touched` is `n` pages of `spanned`: all of them, or all but `last` when `skips`. */
  ghost predicate TouchesAllBut(touched: set<nat>, spanned: set<nat>, n: nat, last: nat, skips: bool) {
    && |touched| == n
    && touched <= spanned
    && spanned - touched == if skips then {last} else {}
  }

  lemma CoverageOf(touched: set<nat>, spanned: set<nat>, first: nat, n: nat, last: nat, skips: bool)
    requires first <= last == first + n - 1 + (if skips then 1 else 0)
    requires touched == Interval(first, n) && spanned == Interval(first, last - first + 1)
    ensures TouchesAllBut(touched, spanned, n, last, skips)
  {
  }

  /** The page of the last byte of a range. */
  function LastPage(offset: nat, len: nat, page: nat): nat
    requires page > 0
  {
    if len == 0 then offset / page else (offset + len - 1) / page
  }

  /** Exactly which pages a fault-free `probe` or uncancelled `probe_pages` touches: as many distinct pages as
      `ceil(len / page)`, all of them pages of the range, and every page of the range but its last when
      `SkipsLastPage` holds. The documentation promises every page without that condition. An empty range spans no
      page, and then no position is touched. */
  lemma ProbeCoverage(offset: nat, len: nat, page: nat)
    requires page > 0
    ensures TouchesAllBut(PagesOf(Strides(offset, len, page), page), PagesSpanned(offset, len, page),
                          CeilDiv(len, page), LastPage(offset, len, page), SkipsLastPage(offset, len, page))
    ensures Strides(offset, len, page) == [] <==> len == 0
  {
    if len == 0 {
      DivModUnique(page - 1, page, 0, page - 1);
    } else {
      CountAbove(1, len, page);
      var first, n, last, skips := ProbeShape(offset, len, page);
      CoverageOf(PagesOf(Strides(offset, len, page), page), PagesSpanned(offset, len, page), first, n, last, skips);
    }
  }

  lemma ProbeShape(offset: nat, len: nat, page: nat) returns (first: nat, n: nat, last: nat, skips: bool)
    requires page > 0 && len > 0
    ensures n == CeilDiv(len, page) && last == (offset + len - 1) / page && skips == SkipsLastPage(offset, len, page)
    ensures first <= last == first + n - 1 + (if skips then 1 else 0)
    ensures PagesOf(Strides(offset, len, page), page) == Interval(first, n)
    ensures PagesSpanned(offset, len, page) == Interval(first, last - first + 1)
  {
    first, n, last, skips := offset / page, CeilDiv(len, page), (offset + len - 1) / page,
        SkipsLastPage(offset, len, page);
    StridePages(offset, len, page);
    SpannedPages(offset, len, page);
    PageCounts(offset, len, page);
  }

  /** A range of one whole page that starts one byte into a page is probed at its first page only. */
  lemma LastPageMissed()
    ensures SkipsLastPage(1, 4096, 4096)
    ensures 1 in PagesSpanned(1, 4096, 4096) && 1 !in PagesOf(Strides(1, 4096, 4096), 4096)
  {
    InPagesSpanned(1, 4096, 4096, 4096, 1);
    StridePages(1, 4096, 4096);
  }

  /** What a residency vector over a range says about the request it answers. */
  ghost predicate ReportsOn(range: Range, offset: nat, len: nat, page: nat)
    requires page > 0
  {
    var entries, touched := range.len / page, CeilDiv(len, page);
    && (forall i: nat :: EntryPage(range, page, i) == offset / page + i)
    && (len > 0 ==> PagesSpanned(offset, len, page) == Interval(offset / page, entries))
    && entries == touched + (if SkipsLastPage(offset, len, page) || (len == 0 && offset % page > 0) then 1 else 0)
    && (offset % page == 0 ==> entries == touched)
  }

  /** `mincore` reports on the pages of its range in order: entry `i` is about the i-th page from the page of the first
      byte, and together they are the pages of the range. That is at most one more than the pages a fault-free `probe`
      of the same range touches: one more exactly when the probe skips the last page (or the range is empty inside a
      page, where `mincore` still reports that page). */
  lemma ResidencyAgainstProbe(page: nat, mappingLen: nat, offset: nat, len: nat)
    requires IsPage(page) && mappingLen + page < USIZE && offset + len <= mappingLen
    ensures 0 < page < USIZE
    ensures MincoreRange(page, mappingLen, offset, len) == Some(PageRange(offset, len, page))
    ensures ReportsOn(PageRange(offset, len, page), offset, len, page)
  {
    MincoreWithin(page, mappingLen, offset, len);
    PageRangeReports(offset, len, page);
  }

  lemma PageRangeReports(offset: nat, len: nat, page: nat)
    requires page > 0
    ensures ReportsOn(PageRange(offset, len, page), offset, len, page)
  {
    PageRangeCount(offset, len, page);
    CountAgainstProbe(offset, len, page);
    forall i: nat
      ensures EntryPage(PageRange(offset, len, page), page, i) == offset / page + i
    {
      EntryPageIs(offset, page, PageRange(offset, len, page), i);
    }
  }

  /** The page that entry `i` of the residency vector is about: the kernel fills it in address order. */
  function EntryPage(range: Range, page: nat, i: nat): nat
    requires page > 0
  {
    (range.offset + i * page) / page
  }

  lemma EntryPageIs(offset: nat, page: nat, range: Range, i: nat)
    requires page > 0 && range.offset == Floor(offset, page)
    ensures EntryPage(range, page, i) == offset / page + i
  {
    FloorIsMultiple(offset, page);
    Distribute(offset / page, i, page);
    DivShift(offset / page + i, 0, page);
  }

  lemma PageRangeCount(offset: nat, len: nat, page: nat)
    requires page > 0
    ensures PageRange(offset, len, page).len / page == CeilDiv(offset % page + len, page)
  {
    LengthFormula(page, offset, len);
    CountWith(offset, len, page, offset % page, PageRange(offset, len, page).len);
  }

  lemma CountWith(offset: nat, len: nat, page: nat, r: nat, rounded: nat)
    requires page > 0 && rounded == Floor(len + r + page - 1, page)
    ensures rounded / page == CeilDiv(r + len, page)
  {
    FloorIsMultiple(len + r + page - 1, page);
  }

  lemma CountAgainstProbe(offset: nat, len: nat, page: nat)
    requires page > 0
    ensures len > 0 ==> PagesSpanned(offset, len, page) == Interval(offset / page, CeilDiv(offset % page + len, page))
    ensures CeilDiv(offset % page + len, page)
         == CeilDiv(len, page) + (if SkipsLastPage(offset, len, page) || (len == 0 && offset % page > 0) then 1 else 0)
  {
    if len > 0 {
      SpannedPages(offset, len, page);
      PageCounts(offset, len, page);
    } else {
      DivModUnique(page - 1, page, 0, page - 1);
      if offset % page > 0 { DivModUnique(offset % page + page - 1, page, 1, offset % page - 1); }
    }
  }
}
