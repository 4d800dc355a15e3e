/** The layout of small runs (arena.c): how large a run is, how many regions it holds and where they lie. */
module Layout {
  import opened Basics
  import opened Arith

  const REDZONE_MINSIZE := 16

  datatype BinInfo = BinInfo(regSize: nat, redzone: nat, interval: nat, runSize: nat, nregs: nat, reg0: int, pad: nat)

  // ---------------------------------------------------------------- powers of two

  /** How often two divides a number. */
  function Twos(n: nat): (k: nat)
    requires n > 0
    ensures n % Pow2(k) == 0
  {
    if n % 2 == 1 then
      assert Pow2(0) == 1;
      0
    else
      var k := Twos(n / 2);
      HalfDivides(n, k);
      1 + k
  }

  lemma HalfDivides(n: nat, k: nat)
    requires n > 0 && n % 2 == 0 && (n / 2) % Pow2(k) == 0
    ensures n % Pow2(1 + k) == 0
  {
    var q := (n / 2) / Pow2(k);
    assert n == q * Pow2(1 + k);
    MultipleMod(q, Pow2(1 + k));
  }

  lemma {:induction false} Pow2Divides(i: nat, j: nat)
    requires i <= j
    ensures Pow2(j) % Pow2(i) == 0 && Pow2(i) <= Pow2(j)
    decreases j
  {
    if i < j {
      Pow2Divides(i, j - 1);
      SumMod(Pow2(j - 1), Pow2(j - 1), Pow2(i));
    }
  }

  lemma {:induction false} ProductMod(n: nat, a: nat, d: nat)
    requires d > 0 && a % d == 0
    ensures (n * a) % d == 0
  {
    var q := a / d;
    assert n * a == (n * q) * d;
    MultipleMod(n * q, d);
  }

  // ---------------------------------------------------------------- the sizing loop

  ghost predicate Perfect(page: nat, regSize: nat, size: nat)
    requires page > 0 && regSize > 0
  {
    size > 0 && size % page == 0 && size % regSize == 0
  }

  /** The first loop of bin_info_run_size_calc: the least number of whole pages that regions fill exactly. */
  method PerfectRunSize(page: nat, regSize: nat) returns (size: nat)
    requires page > 0 && regSize > 0
    ensures Perfect(page, regSize, size)
    ensures forall s :: 0 < s < size && s % page == 0 ==> s % regSize != 0
  {
    var pages := 1;
    size := page;
    OneMultiple(page);
    while size != size / regSize * regSize
      invariant 1 <= pages <= regSize && size == pages * page
      invariant forall k :: 0 < k < pages ==> (k * page) % regSize != 0
      decreases regSize - pages
    {
      Remainder(size, regSize);
      NotYet(pages, page, regSize);
      pages := pages + 1;
      size := size + page;
    }
    Remainder(size, regSize);
    MultipleMod(pages, page);
    PositiveProduct(pages, page);
    forall s | 0 < s < size && s % page == 0
      ensures s % regSize != 0
    {
      WholePages(s, page, pages);
    }
  }

  lemma OneMultiple(page: nat)
    ensures page == 1 * page
  {
  }

  lemma PositiveProduct(a: nat, b: nat)
    requires a >= 1 && b >= 1
    ensures a * b >= 1
  {
  }

  lemma Remainder(a: nat, d: nat)
    requires d > 0
    ensures a == a / d * d <==> a % d == 0
  {
    assert a == a / d * d + a % d;
  }

  lemma WholePages(s: nat, page: nat, pages: nat)
    requires page > 0 && 0 < s < pages * page && s % page == 0
    ensures exists k :: 0 < k < pages && s == k * page
  {
    var k := s / page;
    assert s == k * page;
    MulMonotone(page, pages, k);
  }

  lemma NotYet(pages: nat, page: nat, regSize: nat)
    requires regSize > 0 && (pages * page) % regSize != 0
    ensures pages != regSize
  {
    MultipleMod(page, regSize);
    assert regSize * page == page * regSize;
  }

  /** What is left of a number without its factors of two. */
  function Odd(n: nat): (o: nat)
    requires n > 0
    ensures o % 2 == 1 && o <= n
  {
    if n % 2 == 1 then n else Odd(n / 2)
  }

  lemma {:induction false} OddTimes(n: nat)
    requires n > 0
    ensures n == Odd(n) * Pow2(Twos(n))
  {
    if n % 2 == 0 {
      OddTimes(n / 2);
      assert n == 2 * (n / 2) && Pow2(Twos(n)) == 2 * Pow2(Twos(n / 2));
    } else {
      assert Pow2(0) == 1;
    }
  }

  lemma {:induction false} Pow2Sum(i: nat, j: nat)
    ensures Pow2(i + j) == Pow2(i) * Pow2(j)
  {
    if i == 0 {
      assert Pow2(0) == 1;
    } else {
      Pow2Sum(i - 1, j);
      assert Pow2(i) * Pow2(j) == 2 * (Pow2(i - 1) * Pow2(j));
    }
  }

  lemma Associate(a: nat, b: nat, c: nat)
    ensures a * (b * c) == (a * b) * c
  {
  }

  lemma Quotient(n: nat, d: nat) returns (q: nat)
    requires d > 0 && n % d == 0
    ensures n == q * d
  {
    q := n / d;
    Remainder(n, d);
  }

  /** A power of two that divides a product with an odd number divides the other factor. */
  lemma {:induction false} OddFactor(n: nat, o: nat, k: nat)
    requires o % 2 == 1 && (n * o) % Pow2(k) == 0
    ensures n % Pow2(k) == 0
  {
    if k == 0 {
      assert Pow2(0) == 1;
    } else {
      var q := Quotient(n * o, Pow2(k));
      var half := HalfFactor(n, o, q, Pow2(k - 1));
      MultipleMod(q, Pow2(k - 1));
      OddFactor(half, o, k - 1);
      var p := Quotient(half, Pow2(k - 1));
      DoubledProduct(n, half, p, Pow2(k - 1));
      MultipleMod(p, Pow2(k));
    }
  }

  lemma HalfFactor(n: nat, o: nat, q: nat, d: nat) returns (half: nat)
    requires o % 2 == 1 && n * o == q * (2 * d)
    ensures n == 2 * half && half * o == q * d
  {
    half := n / 2;
    if n % 2 == 1 {
      OddProduct(half, o / 2, n, o);
      EvenProduct(q, d);
    }
    EvenHalf(n, half, o, q, d);
  }

  lemma OddProduct(i: nat, j: nat, n: nat, o: nat)
    requires n == 2 * i + 1 && o == 2 * j + 1
    ensures (n * o) % 2 == 1
  {
    assert n * o == 2 * (2 * (i * j) + i + j) + 1;
  }

  lemma EvenProduct(q: nat, d: nat)
    ensures (q * (2 * d)) % 2 == 0
  {
    assert q * (2 * d) == 2 * (q * d);
  }

  lemma EvenHalf(n: nat, half: nat, o: nat, q: nat, d: nat)
    requires n == 2 * half && n * o == q * (2 * d)
    ensures half * o == q * d
  {
    assert n * o == 2 * (half * o) && q * (2 * d) == 2 * (q * d);
  }

  lemma DoubledProduct(n: nat, half: nat, p: nat, d: nat)
    requires n == 2 * half && half == p * d
    ensures n == p * (2 * d)
  {
  }

  /** How many factors of two the region size lacks to be whole pages. */
  function Lacking(lgPage: nat, regSize: nat): nat
    requires regSize > 0
  {
    if Twos(regSize) < lgPage then lgPage - Twos(regSize) else 0
  }

  /** That many regions, two to that power, fill whole pages. */
  lemma LackingFills(lgPage: nat, regSize: nat)
    requires regSize > 0
    ensures (regSize * Pow2(Lacking(lgPage, regSize))) % Pow2(lgPage) == 0
  {
    var t := Twos(regSize);
    if t < lgPage {
      OddTimes(regSize);
      Pow2Sum(t, lgPage - t);
      Associate(Odd(regSize), Pow2(t), Pow2(lgPage - t));
      MultipleMod(Odd(regSize), Pow2(lgPage));
    } else {
      assert Pow2(0) == 1;
      TimesOne(regSize);
      Pow2Divides(lgPage, t);
      MultipleOfMultiple(regSize, Pow2(t), Pow2(lgPage));
    }
  }

  lemma TimesOne(n: nat)
    ensures n * 1 == n
  {
  }

  /** No fewer do. */
  lemma LackingLeast(lgPage: nat, regSize: nat, n: nat)
    requires regSize > 0 && n > 0 && (n * regSize) % Pow2(lgPage) == 0
    ensures Pow2(Lacking(lgPage, regSize)) <= n
  {
    var t := Twos(regSize);
    if t < lgPage {
      SharedTwos(n, regSize, lgPage);
      OddFactor(n, Odd(regSize), lgPage - t);
      StepOfMultiple(n, Pow2(lgPage - t));
    }
  }

  /** The factors of two that a size lacks are in the other factor of a product. */
  lemma SharedTwos(n: nat, m: nat, k: nat)
    requires m > 0 && Twos(m) < k && (n * m) % Pow2(k) == 0
    ensures (n * Odd(m)) % Pow2(k - Twos(m)) == 0
  {
    var t := Twos(m);
    OddTimes(m);
    Pow2Sum(t, k - t);
    var q := Quotient(n * m, Pow2(k));
    CancelShared(n, Odd(m), Pow2(t), m, q, Pow2(k - t), Pow2(k));
    MultipleMod(q, Pow2(k - t));
  }

  lemma CancelShared(n: nat, o: nat, a: nat, m: nat, q: nat, b: nat, p: nat)
    requires a > 0 && m == o * a && p == a * b && n * m == q * p
    ensures n * o == q * b
  {
    Associate(n, o, a);
    Swap(a, b);
    Associate(q, b, a);
    CancelFactor(n * o, q * b, a);
  }

  lemma Swap(a: nat, b: nat)
    ensures a * b == b * a
  {
  }

  lemma CancelFactor(a: nat, b: nat, d: nat)
    requires d > 0 && a * d == b * d
    ensures a == b
  {
    if a < b {
      MulMonotone(d, a + 1, b);
    } else if b < a {
      MulMonotone(d, b + 1, a);
    }
  }

  lemma PerfectIs(lgPage: nat, regSize: nat, size: nat)
    requires regSize > 0 && Perfect(Pow2(lgPage), regSize, size)
    requires forall s :: 0 < s < size && s % Pow2(lgPage) == 0 ==> s % regSize != 0
    ensures size == regSize * Pow2(Lacking(lgPage, regSize))
  {
    var n := Quotient(size, regSize);
    LackingLeast(lgPage, regSize, n);
    PerfectAtMost(lgPage, regSize, size);
    BetweenMultiples(regSize, n, Pow2(Lacking(lgPage, regSize)), size);
  }

  lemma PerfectAtMost(lgPage: nat, regSize: nat, size: nat)
    requires regSize > 0
    requires forall s :: 0 < s < size && s % Pow2(lgPage) == 0 ==> s % regSize != 0
    ensures size <= regSize * Pow2(Lacking(lgPage, regSize))
  {
    var q := Pow2(Lacking(lgPage, regSize));
    LackingFills(lgPage, regSize);
    Swap(regSize, q);
    MultipleMod(q, regSize);
    PositiveProduct(regSize, q);
  }

  lemma BetweenMultiples(d: nat, n: nat, q: nat, size: nat)
    requires size == n * d <= d * q && q <= n
    ensures size == d * q
  {
    MulMonotone(d, q, n);
    Swap(d, n);
  }

  lemma {:induction false} Pow2Order(i: nat, j: nat)
    ensures Pow2(i) <= Pow2(j) <==> i <= j
  {
    if i <= j {
      Pow2Divides(i, j);
    } else {
      Pow2Divides(j + 1, i);
      assert Pow2(j + 1) == 2 * Pow2(j);
    }
  }

  /** The size is a multiple of a power of two exactly if it has that many factors of two. */
  lemma TwosAtLeast(n: nat, k: nat)
    requires n > 0
    ensures n % Pow2(k) == 0 <==> k <= Twos(n)
  {
    if k <= Twos(n) {
      Pow2Divides(k, Twos(n));
      MultipleOfMultiple(n, Pow2(Twos(n)), Pow2(k));
    } else if n % Pow2(k) == 0 {
      TimesOne(n);
      Swap(1, n);
      SharedTwos(1, n, k);
      OddFactor(1, Odd(n), k - Twos(n));
      Pow2Order(1, k - Twos(n));
    }
  }

  lemma ExactQuotient(n: nat, d: nat, q: nat)
    requires d > 0 && n == d * q
    ensures n / d == q
  {
    Swap(d, q);
    MultipleMod(q, d);
    Remainder(n, d);
    CancelFactor(n / d, q, d);
  }

  /** The assertion that a perfect run has at most RUN_MAXREGS regions, which is two to the power LG_PAGE - LG_TINY_MIN:
      it holds exactly if the region size is a multiple of the least tiny class. */
  lemma MaxRegsIff(lgPage: nat, lgTiny: nat, regSize: nat, perfect: nat)
    requires regSize > 0 && lgTiny <= lgPage && perfect == regSize * Pow2(Lacking(lgPage, regSize))
    ensures perfect / regSize <= Pow2(lgPage - lgTiny) <==> regSize % Pow2(lgTiny) == 0
  {
    ExactQuotient(perfect, regSize, Pow2(Lacking(lgPage, regSize)));
    Pow2Order(Lacking(lgPage, regSize), lgPage - lgTiny);
    TwosAtLeast(regSize, lgTiny);
  }

  /** Regions of one byte would be too many. */
  lemma TooManyRegs(lgPage: nat, lgTiny: nat)
    requires 1 <= lgTiny <= lgPage
    ensures Pow2(lgPage - lgTiny) < (1 * Pow2(Lacking(lgPage, 1))) / 1
  {
    assert Twos(1) == 0;
    Pow2Order(lgPage, lgPage - lgTiny);
  }

  // ---------------------------------------------------------------- where the regions lie

  /** The offset of region `i` in its run, as arena_run_reg_alloc computes it. */
  function Offset(b: BinInfo, i: nat): int
  {
    b.reg0 + b.interval * i
  }

  /** Every region with its redzones lies within the run. */
  ghost predicate Contained(b: BinInfo)
  {
    forall i {:trigger Offset(b, i)} :: 0 <= i < b.nregs ==>
      0 <= Offset(b, i) - b.redzone && Offset(b, i) + b.regSize + b.redzone <= b.runSize
  }

  /** Regions do not overlap, redzones included. */
  ghost predicate Spaced(b: BinInfo)
  {
    forall i, j {:trigger Offset(b, i), Offset(b, j)} :: 0 <= i < j < b.nregs ==>
      Offset(b, i) + b.regSize + b.redzone <= Offset(b, j) - b.redzone
  }

  /** Every region is aligned to the size class, up to the page. */
  ghost predicate Aligned(b: BinInfo, page: nat)
    requires page > 0 && b.regSize > 0
  {
    var a := Min(page, Pow2(Twos(b.regSize)));
    a > 0 && forall i {:trigger Offset(b, i)} :: 0 <= i < b.nregs ==> Offset(b, i) % a == 0
  }

  /** How the redzone and the padding depend on the region size. */
  ghost predicate RedzoneRule(regSize: nat, redzone: nat, pad: nat, redzones: bool)
    requires regSize > 0
  {
    var align := Pow2(Twos(regSize));
    if !redzones then redzone == pad == 0
    else if align <= REDZONE_MINSIZE then redzone == REDZONE_MINSIZE && pad == 0
    else 2 * redzone == align && pad == redzone
  }

  ghost predicate Sized(b: BinInfo, redzones: bool)
  {
    b.regSize > 0 && RedzoneRule(b.regSize, b.redzone, b.pad, redzones) && b.interval == b.regSize + 2 * b.redzone
  }

  /** The regions fill the run from its end, before the padding. */
  ghost predicate Placed(b: BinInfo)
  {
    && b.pad <= b.runSize && b.interval > 0 && b.nregs == (b.runSize - b.pad) / b.interval
    && b.reg0 == b.runSize - b.nregs * b.interval - b.pad + b.redzone
  }

  lemma LayoutContained(b: BinInfo)
    requires b.interval == b.regSize + 2 * b.redzone && Placed(b)
    ensures Contained(b)
  {
    forall i | 0 <= i < b.nregs
      ensures 0 <= Offset(b, i) - b.redzone && Offset(b, i) + b.regSize + b.redzone <= b.runSize
    {
      Fill(b.runSize - b.pad, b.interval, i);
    }
  }

  /** The i-th interval of those that fit, counted from the end. */
  lemma Fill(total: nat, interval: nat, i: nat)
    requires interval > 0 && i < total / interval
    ensures 0 <= total - (total / interval) * interval
    ensures 0 <= interval * i && interval * i + interval <= (total / interval) * interval
  {
    var n := total / interval;
    assert n * interval == interval * n;
    NextInterval(interval, i, n);
  }

  lemma LayoutSpaced(b: BinInfo)
    requires b.interval == b.regSize + 2 * b.redzone
    ensures Spaced(b)
  {
    forall i, j | 0 <= i < j < b.nregs
      ensures Offset(b, i) + b.regSize + b.redzone <= Offset(b, j) - b.redzone
    {
      NextInterval(b.interval, i, j);
    }
  }

  lemma NextInterval(interval: nat, i: nat, j: nat)
    requires i < j
    ensures interval * i + interval <= interval * j
  {
    MulMonotone(interval, i + 1, j);
    assert interval * (i + 1) == interval * i + interval;
  }

  lemma LayoutAligned(b: BinInfo, redzones: bool, lgPage: nat)
    requires Sized(b, redzones) && Placed(b) && b.runSize % Pow2(lgPage) == 0
    ensures Aligned(b, Pow2(lgPage))
  {
    var k := Twos(b.regSize);
    var a := Min(Pow2(lgPage), Pow2(k));
    SmallerPower(lgPage, k);
    MultipleOfMultiple(b.runSize, Pow2(lgPage), a);
    MultipleOfMultiple(b.regSize, Pow2(k), a);
    RedzonesAligned(b, redzones, a);
    forall i | 0 <= i < b.nregs
      ensures Offset(b, i) % a == 0
    {
      OffsetAligned(b, a, i);
    }
  }

  lemma SmallerPower(i: nat, j: nat)
    ensures Min(Pow2(i), Pow2(j)) >= 1
    ensures Pow2(i) % Min(Pow2(i), Pow2(j)) == 0 && Pow2(j) % Min(Pow2(i), Pow2(j)) == 0
  {
    if i <= j {
      Pow2Divides(i, j);
    } else {
      Pow2Divides(j, i);
    }
    SelfMod(Pow2(i));
    SelfMod(Pow2(j));
  }

  lemma SelfMod(d: nat)
    requires d > 0
    ensures d % d == 0
  {
    MultipleMod(1, d);
  }

  /** The gap between regions, and the redzone less the padding, keep the alignment. */
  lemma RedzonesAligned(b: BinInfo, redzones: bool, a: nat)
    requires Sized(b, redzones) && a > 0 && b.regSize % a == 0 && Pow2(Twos(b.regSize)) % a == 0
    ensures b.interval % a == 0 && b.pad <= b.redzone && (b.redzone - b.pad) % a == 0
  {
    var align := Pow2(Twos(b.regSize));
    if !redzones {
      ZeroMod(a);
    } else if align <= REDZONE_MINSIZE {
      SixteenMultiple(Twos(b.regSize));
      SmallRedzone(b.regSize, align, a);
    } else {
      SumMod(b.regSize, align, a);
      ZeroMod(a);
    }
  }

  lemma ZeroMod(a: nat)
    requires a > 0
    ensures 0 % a == 0
  {
  }

  lemma SmallRedzone(regSize: nat, align: nat, a: nat)
    requires a > 0 && align > 0 && 16 % align == 0 && align % a == 0 && regSize % a == 0
    ensures 16 % a == 0 && (regSize + 32) % a == 0
  {
    MultipleOfMultiple(16, align, a);
    SumMod(16, 16, a);
    SumMod(regSize, 32, a);
  }

  lemma SixteenMultiple(k: nat)
    requires Pow2(k) <= 16
    ensures 16 % Pow2(k) == 0
  {
    assert Pow2(4) == 16 && Pow2(5) == 32;
    if k <= 4 {
      Pow2Divides(k, 4);
    } else {
      Pow2Divides(5, k);
    }
  }

  lemma OffsetAligned(b: BinInfo, a: nat, i: nat)
    requires a > 0 && Placed(b) && i < b.nregs && b.pad <= b.redzone
    requires b.runSize % a == 0 && b.interval % a == 0 && (b.redzone - b.pad) % a == 0
    ensures Offset(b, i) % a == 0
  {
    var back := b.nregs - i;
    ProductMod(back, b.interval, a);
    assert b.nregs * b.interval - b.interval * i == back * b.interval;
    Fill(b.runSize - b.pad, b.interval, i);
    DifferenceMod(b.runSize, back * b.interval, a);
    SumMod(b.runSize - back * b.interval, b.redzone - b.pad, a);
  }

  // ---------------------------------------------------------------- the whole calculation

  lemma DividesBelow(n: nat, d: nat)
    requires n > 0 && d > 0 && n % d == 0
    ensures d <= n
  {
    StepOfMultiple(n, d);
  }

  lemma AtLeastOne(total: nat, interval: nat)
    requires interval > 0
    ensures total / interval > 0 <==> interval <= total
  {
    if interval <= total {
      MulMonotone(interval, total / interval, 0);
    }
  }

  /** The redzone and the padding for a region size. */
  method Redzones(regSize: nat, redzones: bool) returns (redzone: nat, pad: nat)
    requires regSize > 0
    ensures RedzoneRule(regSize, redzone, pad, redzones)
    ensures pad <= regSize
  {
    if !redzones {
      return 0, 0;
    }
    var align := Pow2(Twos(regSize));
    DividesBelow(regSize, align);
    if align <= REDZONE_MINSIZE {
      return REDZONE_MINSIZE, 0;
    }
    assert align % 2 == 0 by { assert Pow2(0) == 1; }
    return align / 2, align / 2;
  }

  lemma WholePage(size: nat, page: nat)
    requires page > 0 && size % page == 0
    ensures (size + page) % page == 0 && (page <= size ==> (size - page) % page == 0)
  {
    SelfMod(page);
    SumMod(size, page, page);
    if page <= size {
      DifferenceMod(size, page, page);
    }
  }

  lemma MultiplesApart(a: nat, b: nat, d: nat)
    requires d > 0 && a % d == 0 && b % d == 0 && a < b
    ensures a + d <= b
  {
    DifferenceMod(b, a, d);
    DividesBelow(b - a, d);
  }

  /** The largest number of whole pages that a run may have. */
  function Whole(maxrun: nat, page: nat): (w: nat)
    requires page > 0
    ensures w <= maxrun < w + page && w % page == 0
  {
    MultipleMod(maxrun / page, page);
    maxrun / page * page
  }

  /** The next multiple of `unit`. */
  function RoundUp(n: nat, unit: nat): (r: nat)
    requires unit > 0
    ensures n <= r < n + unit && r % unit == 0
  {
    n + Lead(n, unit)
  }

  lemma RoundUpIs(n: nat, unit: nat, r: nat)
    requires unit > 0 && n <= r < n + unit && r % unit == 0
    ensures RoundUp(n, unit) == r
  {
    if RoundUp(n, unit) < r {
      MultiplesApart(RoundUp(n, unit), r, unit);
    } else if r < RoundUp(n, unit) {
      MultiplesApart(r, RoundUp(n, unit), unit);
    }
  }

  /** How many regions a run holds. */
  function Regions(size: nat, pad: nat, interval: nat): (n: nat)
    requires pad <= size && 0 < interval
    ensures n > 0 <==> interval + pad <= size
  {
    AtLeastOne(size - pad, interval);
    (size - pad) / interval
  }

  /** The second loop: enough pages for one region.  Only redzones make it run. */
  method GrowToRegion(page: nat, perfect: nat, pad: nat, interval: nat, redzones: bool) returns (size: nat)
    requires 0 < page && perfect % page == 0 && pad <= perfect && 0 < interval
    requires !redzones ==> interval + pad <= perfect
    ensures size == Max(perfect, RoundUp(interval + pad, page))
  {
    size := perfect;
    var nregs := Regions(size, pad, interval);
    while nregs == 0
      invariant size % page == 0 && perfect <= size && (size == perfect || size < interval + pad + page)
      invariant nregs > 0 <==> interval + pad <= size
      decreases pad + interval - size
    {
      assert redzones;
      WholePage(size, page);
      size := size + page;
      nregs := Regions(size, pad, interval);
    }
    GrownTo(interval + pad, page, perfect, size);
  }

  lemma GrownTo(n: nat, unit: nat, perfect: nat, size: nat)
    requires unit > 0 && size % unit == 0 && perfect <= size && n <= size && (size == perfect || size < n + unit)
    ensures size == Max(perfect, RoundUp(n, unit))
  {
    if size < n + unit {
      RoundUpIs(n, unit, size);
    } else {
      RoundedBelow(n, unit, size);
    }
  }

  lemma RoundedBelow(n: nat, unit: nat, r: nat)
    requires unit > 0 && n <= r && r % unit == 0
    ensures RoundUp(n, unit) <= r
  {
    if r < RoundUp(n, unit) {
      MultiplesApart(r, RoundUp(n, unit), unit);
    }
  }

  /** The third loop: not more pages than a run may have, of which `whole` is the most. */
  method ShrinkToMax(page: nat, from: nat, maxrun: nat, ghost whole: nat) returns (size: nat)
    requires 0 < page && from % page == 0
    requires whole <= maxrun < whole + page && whole % page == 0
    ensures size == Min(from, whole)
  {
    size := from;
    while size > maxrun
      invariant size % page == 0 && (from <= maxrun ==> size == from)
      invariant size == from || whole <= size
    {
      WholePage(size, page);
      MultiplesApart(whole, size, page);
      size := size - page;
    }
    if size > whole {
      MultiplesApart(whole, size, page);
    }
  }

  /** The last two loops: enough pages for one region, but not more than a run may have. */
  method ActualRunSize(page: nat, perfect: nat, pad: nat, interval: nat, maxrun: nat, redzones: bool)
    returns (size: nat)
    requires 0 < page && perfect % page == 0 && pad <= perfect && 0 < interval && pad + page <= maxrun
    requires !redzones ==> interval + pad <= perfect
    ensures size == Min(Max(perfect, RoundUp(interval + pad, page)), Whole(maxrun, page))
    ensures size % page == 0 && pad <= size <= maxrun
    ensures interval + pad <= size <==> interval + pad <= Whole(maxrun, page)
  {
    size := GrowToRegion(page, perfect, pad, interval, redzones);
    ghost var whole := Whole(maxrun, page);
    size := ShrinkToMax(page, size, maxrun, whole);
  }

  lemma LayoutSound(b: BinInfo, redzones: bool, lgPage: nat)
    requires Sized(b, redzones) && Placed(b) && b.runSize % Pow2(lgPage) == 0
    ensures Contained(b) && Spaced(b) && Aligned(b, Pow2(lgPage))
    ensures b.nregs > 0 <==> b.interval + b.pad <= b.runSize
  {
    LayoutContained(b);
    LayoutSpaced(b);
    LayoutAligned(b, redzones, lgPage);
    AtLeastOne(b.runSize - b.pad, b.interval);
  }

  /** The final settings. */
  function Settings(regSize: nat, redzone: nat, pad: nat, size: nat): BinInfo
    requires regSize > 0 && pad <= size
  {
    var interval := regSize + 2 * redzone;
    var nregs := (size - pad) / interval;
    BinInfo(regSize, redzone, interval, size, nregs, size - nregs * interval - pad + redzone, pad)
  }

  lemma SettingsSound(regSize: nat, redzone: nat, pad: nat, size: nat, redzones: bool, lgPage: nat)
    requires regSize > 0 && pad <= size && RedzoneRule(regSize, redzone, pad, redzones) && size % Pow2(lgPage) == 0
    ensures var b := Settings(regSize, redzone, pad, size);
            && Sized(b, redzones) && Placed(b) && Contained(b) && Spaced(b) && Aligned(b, Pow2(lgPage))
            && (b.nregs > 0 <==> b.interval + b.pad <= b.runSize)
  {
    LayoutSound(Settings(regSize, redzone, pad, size), redzones, lgPage);
  }

  /** What one region takes up with its redzones and the padding of the run. */
  function Footprint(regSize: nat, redzones: bool): nat
    requires regSize > 0
  {
    var align := Pow2(Twos(regSize));
    if !redzones then regSize
    else if align <= REDZONE_MINSIZE then regSize + 2 * REDZONE_MINSIZE
    else regSize + align + align / 2
  }

  /** How many pages a run for regions of this size would have without a limit: as many as they fill exactly, or as one
      of them takes up. */
  function IdealSize(page: nat, perfect: nat, regSize: nat, redzones: bool): nat
    requires page > 0 && regSize > 0
  {
    Max(perfect, RoundUp(Footprint(regSize, redzones), page))
  }

  /** bin_info_run_size_calc.  The run is the least number of pages that regions fill exactly, if that holds
      a region and is not too large.  Its assertion that there is a region is true exactly if one fits into the
      largest run. */
  method RunSizeCalc(lgPage: nat, regSize: nat, redzones: bool, maxrun: nat) returns (b: BinInfo, perfect: nat)
    requires regSize > 0 && regSize + Pow2(lgPage) <= maxrun
    ensures b.regSize == regSize && Sized(b, redzones) && Placed(b)
    ensures b.runSize == Min(IdealSize(Pow2(lgPage), perfect, regSize, redzones), Whole(maxrun, Pow2(lgPage)))
    ensures b.runSize % Pow2(lgPage) == 0 && b.runSize <= maxrun
    ensures Contained(b) && Spaced(b) && Aligned(b, Pow2(lgPage))
    ensures b.nregs > 0 <==> Footprint(regSize, redzones) <= Whole(maxrun, Pow2(lgPage))
    ensures perfect == regSize * Pow2(Lacking(lgPage, regSize))
    ensures Perfect(Pow2(lgPage), regSize, perfect)
    ensures forall s :: 0 < s < perfect && s % Pow2(lgPage) == 0 ==> s % regSize != 0
    ensures Footprint(regSize, redzones) <= perfect <= maxrun ==> b.runSize == perfect
  {
    var redzone, pad := Redzones(regSize, redzones);
    perfect := PerfectRunSize(Pow2(lgPage), regSize);
    PerfectIs(lgPage, regSize, perfect);
    DividesBelow(perfect, regSize);
    var size := ActualRunSize(Pow2(lgPage), perfect, pad, regSize + 2 * redzone, maxrun, redzones);
    PerfectFits(Pow2(lgPage), perfect, regSize, redzones, maxrun);
    b := Settings(regSize, redzone, pad, size);
    SettingsSound(regSize, redzone, pad, size, redzones, lgPage);
  }

  lemma PerfectFits(page: nat, perfect: nat, regSize: nat, redzones: bool, maxrun: nat)
    requires page > 0 && regSize > 0 && perfect % page == 0
    ensures Footprint(regSize, redzones) <= perfect <= maxrun ==>
              Min(IdealSize(page, perfect, regSize, redzones), Whole(maxrun, page)) == perfect
  {
    if Footprint(regSize, redzones) <= perfect <= maxrun {
      RoundedBelow(Footprint(regSize, redzones), page, perfect);
      if Whole(maxrun, page) < perfect {
        MultiplesApart(Whole(maxrun, page), perfect, page);
      }
    }
  }

  // ---------------------------------------------------------------- when there is a region

  lemma {:induction false} TwosOfPower(k: nat)
    ensures Twos(Pow2(k)) == k
  {
    if k > 0 {
      TwosOfPower(k - 1);
      assert Pow2(k) / 2 == Pow2(k - 1);
    }
  }

  lemma FootprintBound(regSize: nat, redzones: bool)
    requires regSize > 0
    ensures 2 * Footprint(regSize, redzones) <= 5 * regSize + 4 * REDZONE_MINSIZE
  {
    DividesBelow(regSize, Pow2(Twos(regSize)));
  }

  lemma RoomEnough(page: nat, footprint: nat, regSize: nat, maxrun: nat, whole: nat)
    requires 2 * footprint <= 5 * regSize + 4 * REDZONE_MINSIZE && 4 * REDZONE_MINSIZE <= page && regSize <= 4 * page
    requires maxrun < whole + page && 12 * page <= maxrun
    ensures footprint <= whole
  {
  }

  /** With the chunks that the options allow, at least sixteen pages, and small classes, which are at most four pages,
      the assertion holds if the header leaves twelve pages. */
  lemma AlwaysARegion(lgPage: nat, regSize: nat, redzones: bool, maxrun: nat)
    requires 4 * REDZONE_MINSIZE <= Pow2(lgPage) && 0 < regSize <= 4 * Pow2(lgPage) && 12 * Pow2(lgPage) <= maxrun
    ensures Footprint(regSize, redzones) <= Whole(maxrun, Pow2(lgPage))
  {
    FootprintBound(regSize, redzones);
    RoomEnough(Pow2(lgPage), Footprint(regSize, redzones), regSize, maxrun, Whole(maxrun, Pow2(lgPage)));
  }

  /** With a chunk of four pages of 4 KiB, one of them the header, the 8 KiB class with redzones gets a run without a
      region: the assertion fails. */
  lemma NoRegion()
    ensures 8192 + Pow2(12) <= 12288 && Whole(12288, Pow2(12)) == 12288
    ensures Footprint(8192, true) == 20480
  {
    assert Pow2(5) == 32;
    assert Pow2(10) == 32 * Pow2(5);
    assert Pow2(13) == 8 * Pow2(10) && Pow2(12) == 4 * Pow2(10);
    TwosOfPower(13);
  }
}
