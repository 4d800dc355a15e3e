/** The assertion of bin_info_run_size_calc that the size of a run is a size class (arena.c, with s2u of
    jemalloc_internal.h). */
module RunSizes {
  import opened Basics
  import opened Arith
  import opened Layout

  // ---------------------------------------------------------------- rounding up to a size class

  const LG_SIZE_CLASS_GROUP := 2

  /** lg_floor. */
  function LgFloor(n: nat): (k: nat)
    requires n > 0
    ensures Pow2(k) <= n < 2 * Pow2(k)
  {
    if n == 1 then 0 else 1 + LgFloor(n / 2)
  }

  /** The spacing of the size classes around `size`. */
  function LgDelta(lgQuantum: nat, size: nat): nat
    requires size > 0
  {
    var x := LgFloor(2 * size - 1);
    if x < LG_SIZE_CLASS_GROUP + lgQuantum + 1 then lgQuantum else x - LG_SIZE_CLASS_GROUP - 1
  }

  /** s2u_compute, up to the largest class.  The tiny classes are the powers of two below the quantum. */
  function S2u(lgTiny: nat, lgQuantum: nat, size: nat): nat
    requires size > 0
  {
    if lgTiny < lgQuantum && size <= Pow2(lgQuantum - 1) then
      Pow2(Max(lgTiny, if size == 1 then 0 else 1 + LgFloor(size - 1)))
    else
      RoundUp(size, Pow2(LgDelta(lgQuantum, size)))
  }

  ghost predicate IsClass(lgTiny: nat, lgQuantum: nat, size: nat)
    requires size > 0
  {
    forall key {:trigger Open(key)} :: Open(key) ==> S2u(lgTiny, lgQuantum, size) == size
  }

  /** A class is at most eight times a power of two. */
  lemma ClassForm(lgTiny: nat, lgQuantum: nat, size: nat) returns (m: nat, d: nat)
    requires size > 0 && IsClass(lgTiny, lgQuantum, size)
    ensures size == m * Pow2(d) && 1 <= m <= 8
  {
    assert Open(0);
    if lgTiny < lgQuantum && size <= Pow2(lgQuantum - 1) {
      m, d := 1, Max(lgTiny, if size == 1 then 0 else 1 + LgFloor(size - 1));
    } else {
      var x := LgFloor(2 * size - 1);
      d := LgDelta(lgQuantum, size);
      m := Quotient(size, Pow2(d));
      Pow2Order(x, d + 3);
      Pow2Sum(3, d);
      assert Pow2(3) == 8;
      AtMost(m, 8, Pow2(d), size);
    }
  }

  lemma AtMost(m: nat, n: nat, d: nat, size: nat)
    requires d > 0 && size == m * d && 0 < size <= n * d
    ensures 1 <= m <= n
  {
    if n < m {
      MulMonotone(d, n + 1, m);
    }
  }

  lemma DeltaBelow(lgQuantum: nat, size: nat, k: nat)
    requires 0 < size <= 8 * Pow2(k) && lgQuantum <= k
    ensures LgDelta(lgQuantum, size) <= k
  {
    Pow2Sum(4, k);
    assert Pow2(4) == 16;
    Pow2Order(4 + k, LgFloor(2 * size - 1));
  }

  lemma RoundedAlready(lgTiny: nat, lgQuantum: nat, size: nat, k: nat)
    requires Pow2(lgQuantum) <= size <= 8 * Pow2(k) && lgQuantum <= k && size % Pow2(k) == 0
    ensures size > 0 && IsClass(lgTiny, lgQuantum, size)
  {
    DeltaBelow(lgQuantum, size, k);
    var d := LgDelta(lgQuantum, size);
    Pow2Divides(d, k);
    MultipleOfMultiple(size, Pow2(k), Pow2(d));
    RoundUpIs(size, Pow2(d), size);
  }

  /** Up to eight times a power of two that is at least the quantum is a class. */
  lemma FormIsClass(lgTiny: nat, lgQuantum: nat, m: nat, k: nat)
    requires 1 <= m <= 8 && lgQuantum <= k
    ensures m * Pow2(k) > 0 && IsClass(lgTiny, lgQuantum, m * Pow2(k))
  {
    MulMonotone(Pow2(k), 1, m);
    MulMonotone(Pow2(k), m, 8);
    Swap(Pow2(k), m);
    Pow2Order(lgQuantum, k);
    MultipleMod(m, Pow2(k));
    RoundedAlready(lgTiny, lgQuantum, m * Pow2(k), k);
  }

  // ---------------------------------------------------------------- the size of a run

  lemma OddBound(size: nat, m: nat, d: nat)
    requires size > 0 && size == m * Pow2(d)
    ensures Odd(size) <= m
  {
    MultipleMod(m, Pow2(d));
    TwosAtLeast(size, d);
    OddTimes(size);
    Pow2Order(d, Twos(size));
    FactorBound(Odd(size), Pow2(Twos(size)), m, Pow2(d));
  }

  /** The odd factor of a class is at most seven. */
  lemma ClassOdd(lgTiny: nat, lgQuantum: nat, size: nat)
    requires size > 0 && IsClass(lgTiny, lgQuantum, size)
    ensures Odd(size) <= 7
  {
    var m, d := ClassForm(lgTiny, lgQuantum, size);
    OddBound(size, m, d);
  }

  lemma FactorBound(o: nat, a: nat, m: nat, d: nat)
    requires o * a == m * d && 0 < d <= a
    ensures o <= m
  {
    if m < o {
      MulMonotone(d, m + 1, o);
      MulMonotone(o, d, a);
    }
  }

  /** What regions of class size fill exactly is the odd factor times a power of two that is at least the page. */
  lemma PerfectForm(lgPage: nat, regSize: nat) returns (k: nat)
    requires regSize > 0
    ensures k == Max(lgPage, Twos(regSize))
    ensures regSize * Pow2(Lacking(lgPage, regSize)) == Odd(regSize) * Pow2(k)
  {
    var t := Twos(regSize);
    k := Max(lgPage, t);
    OddTimes(regSize);
    Pow2Sum(t, Lacking(lgPage, regSize));
    Associate(Odd(regSize), Pow2(t), Pow2(Lacking(lgPage, regSize)));
  }

  /** Without redzones, or with the least ones, regions that fill pages exactly leave room for one. */
  lemma SmallFootprint(lgPage: nat, regSize: nat, redzones: bool, perfect: nat)
    requires regSize > 0 && 4 * REDZONE_MINSIZE <= Pow2(lgPage)
    requires perfect == regSize * Pow2(Lacking(lgPage, regSize))
    requires !redzones || Pow2(Twos(regSize)) <= REDZONE_MINSIZE
    ensures Footprint(regSize, redzones) <= perfect
  {
    MulMonotone(regSize, 1, Pow2(Lacking(lgPage, regSize)));
    if redzones {
      LackingFills(lgPage, regSize);
      PositiveProduct(regSize, Pow2(Lacking(lgPage, regSize)));
      DividesBelow(perfect, Pow2(lgPage));
      assert Pow2(2) == 4 && Pow2(4) == 16 && Pow2(6) == 64;
      Pow2Order(Twos(regSize), 4);
      Pow2Order(6, lgPage);
      Pow2Order(2, Lacking(lgPage, regSize));
      MulMonotone(regSize, 4, Pow2(Lacking(lgPage, regSize)));
    }
  }

  /** With larger ones, that can fail only for a power of two of half a page, and for whole pages. */
  lemma LargeFootprint(lgPage: nat, regSize: nat, perfect: nat)
    requires regSize > 0 && Pow2(Twos(regSize)) > REDZONE_MINSIZE
    requires perfect == regSize * Pow2(Lacking(lgPage, regSize)) && perfect < Footprint(regSize, true)
    ensures Twos(regSize) < lgPage ==> Twos(regSize) + 1 == lgPage && Odd(regSize) == 1
  {
    var l := Lacking(lgPage, regSize);
    OddTimes(regSize);
    if Twos(regSize) < lgPage {
      assert Pow2(0) == 1 && Pow2(1) == 2 && Pow2(2) == 4;
      Pow2Order(2, l);
      if l >= 2 || Odd(regSize) != 1 {
        RoomForOne(Odd(regSize), Pow2(Twos(regSize)), regSize, Pow2(l), perfect);
      }
    }
  }

  lemma RoomForOne(o: nat, align: nat, regSize: nat, q: nat, perfect: nat)
    requires o % 2 == 1 && regSize == o * align && perfect == regSize * q && (q >= 4 || (q == 2 && o != 1))
    ensures regSize + align + align / 2 <= perfect
  {
    if q >= 4 {
      MulMonotone(regSize, 4, q);
      MulMonotone(align, 1, o);
    } else {
      MulMonotone(align, 3, o);
    }
    Swap(align, o);
  }

  /** The factors of one to four. */
  lemma FewFactors(o: nat, j: nat)
    requires o % 2 == 1 && o * Pow2(j) <= 4
    ensures o * Pow2(j) == Pow2(j) == 1 || o * Pow2(j) == Pow2(j) == 2 || o * Pow2(j) == Pow2(j) == 4
         || (o * Pow2(j) == 3 && Pow2(j) == 1)
  {
    assert Pow2(0) == 1 && Pow2(1) == 2 && Pow2(2) == 4 && Pow2(3) == 8;
    MulMonotone(Pow2(j), 1, o);
    Pow2Order(3, j);
    if j >= 1 && o >= 3 {
      Pow2Order(1, j);
      MulMonotone(o, 2, Pow2(j));
    }
  }

  lemma PageFactors(lgPage: nat, regSize: nat) returns (j: nat)
    requires regSize > 0 && lgPage <= Twos(regSize)
    ensures regSize == (Odd(regSize) * Pow2(j)) * Pow2(lgPage) && Pow2(Twos(regSize)) == Pow2(j) * Pow2(lgPage)
  {
    j := Twos(regSize) - lgPage;
    OddTimes(regSize);
    Pow2Sum(j, lgPage);
    Associate(Odd(regSize), Pow2(j), Pow2(lgPage));
  }

  /** A region of whole pages, at most four, and its alignment. */
  lemma FewPages(lgPage: nat, regSize: nat)
    requires 0 < regSize <= 4 * Pow2(lgPage) && lgPage <= Twos(regSize)
    ensures Few(Pow2(lgPage), regSize, Pow2(Twos(regSize)))
  {
    var n, a := SmallFactors(lgPage, regSize);
    AtMost(n, 4, Pow2(lgPage), regSize);
    FewMultiples(n, a, Pow2(lgPage), regSize, Pow2(Twos(regSize)));
  }

  lemma SmallFactors(lgPage: nat, regSize: nat) returns (n: nat, a: nat)
    requires regSize > 0 && lgPage <= Twos(regSize)
    ensures regSize == n * Pow2(lgPage) && Pow2(Twos(regSize)) == a * Pow2(lgPage)
    ensures n <= 4 ==> n == a == 1 || n == a == 2 || n == a == 4 || (n == 3 && a == 1)
  {
    var j := PageFactors(lgPage, regSize);
    n, a := Odd(regSize) * Pow2(j), Pow2(j);
    if n <= 4 {
      FewFactors(Odd(regSize), j);
    }
  }

  predicate Few(page: nat, regSize: nat, align: nat)
  {
    || regSize == align == page || regSize == align == 2 * page
    || (regSize == 3 * page && align == page) || regSize == align == 4 * page
  }

  lemma FewMultiples(n: nat, a: nat, page: nat, regSize: nat, align: nat)
    requires regSize == n * page && align == a * page
    requires n == a == 1 || n == a == 2 || n == a == 4 || (n == 3 && a == 1)
    ensures Few(page, regSize, align)
  {
  }

  /** A region of whole pages, at most four, with its redzones takes up 3, 5 or 10 pages. */
  lemma PagesFootprint(lgPage: nat, regSize: nat) returns (m: nat, k: nat)
    requires 0 < regSize <= 4 * Pow2(lgPage) && lgPage <= Twos(regSize) && REDZONE_MINSIZE < Pow2(lgPage)
    ensures RoundUp(Footprint(regSize, true), Pow2(lgPage)) == m * Pow2(k) <= 10 * Pow2(lgPage)
    ensures 1 <= m <= 8 && lgPage <= k
  {
    var page := Pow2(lgPage);
    FewPages(lgPage, regSize);
    if regSize == page {
      PagesRoundUp(page, 3, Footprint(regSize, true));
      m, k := 3, lgPage;
    } else if regSize == 4 * page {
      PagesRoundUp(page, 10, Footprint(regSize, true));
      m, k := 5, lgPage + 1;
    } else {
      PagesRoundUp(page, 5, Footprint(regSize, true));
      m, k := 5, lgPage;
    }
  }

  lemma PagesRoundUp(page: nat, n: nat, size: nat)
    requires page > 0 && size <= n * page < size + page
    ensures RoundUp(size, page) == n * page
  {
    MultipleMod(n, page);
    RoundUpIs(size, page, n * page);
  }

  /** The ideal size of a run for a small class: up to eight times a power of two, and at most ten pages. */
  lemma IdealForm(lgPage: nat, lgTiny: nat, lgQuantum: nat, regSize: nat, redzones: bool, perfect: nat)
    returns (m: nat, k: nat)
    requires 4 * REDZONE_MINSIZE <= Pow2(lgPage) && 0 < regSize <= 4 * Pow2(lgPage)
    requires IsClass(lgTiny, lgQuantum, regSize) && perfect == regSize * Pow2(Lacking(lgPage, regSize))
    ensures IdealSize(Pow2(lgPage), perfect, regSize, redzones) == m * Pow2(k) <= 10 * Pow2(lgPage)
    ensures 1 <= m <= 8 && lgPage <= k
  {
    var page, f := Pow2(lgPage), Footprint(regSize, redzones);
    if f <= perfect {
      LackingFills(lgPage, regSize);
      RoundedBelow(f, page, perfect);
      m := Odd(regSize);
      k := PerfectForm(lgPage, regSize);
      ClassOdd(lgTiny, lgQuantum, regSize);
      PerfectBelow(lgPage, regSize, perfect);
    } else {
      m, k := IdealLarge(lgPage, regSize, redzones, perfect);
    }
  }

  lemma IdealLarge(lgPage: nat, regSize: nat, redzones: bool, perfect: nat) returns (m: nat, k: nat)
    requires 4 * REDZONE_MINSIZE <= Pow2(lgPage) && 0 < regSize <= 4 * Pow2(lgPage)
    requires perfect == regSize * Pow2(Lacking(lgPage, regSize)) && perfect < Footprint(regSize, redzones)
    ensures RoundUp(Footprint(regSize, redzones), Pow2(lgPage)) == m * Pow2(k) <= 10 * Pow2(lgPage)
    ensures 1 <= m <= 8 && lgPage <= k
  {
    if !redzones || Pow2(Twos(regSize)) <= REDZONE_MINSIZE {
      SmallFootprint(lgPage, regSize, redzones, perfect);
    }
    LargeFootprint(lgPage, regSize, perfect);
    if Twos(regSize) < lgPage {
      m, k := HalfPage(lgPage, regSize);
    } else {
      m, k := PagesFootprint(lgPage, regSize);
    }
  }

  lemma HalfPage(lgPage: nat, regSize: nat) returns (m: nat, k: nat)
    requires regSize > 0 && Twos(regSize) + 1 == lgPage && Odd(regSize) == 1 && Pow2(Twos(regSize)) > REDZONE_MINSIZE
    ensures RoundUp(Footprint(regSize, true), Pow2(lgPage)) == m * Pow2(k) <= 10 * Pow2(lgPage)
    ensures 1 <= m <= 8 && lgPage <= k
  {
    OddTimes(regSize);
    PagesRoundUp(Pow2(lgPage), 2, Footprint(regSize, true));
    m, k := 2, lgPage;
  }

  lemma PerfectBelow(lgPage: nat, regSize: nat, perfect: nat)
    requires 0 < regSize <= 4 * Pow2(lgPage) && Odd(regSize) <= 7
    requires perfect == regSize * Pow2(Lacking(lgPage, regSize))
    ensures perfect <= 10 * Pow2(lgPage)
  {
    var k := PerfectForm(lgPage, regSize);
    if Twos(regSize) <= lgPage {
      MulMonotone(Pow2(lgPage), Odd(regSize), 7);
      Swap(Pow2(lgPage), Odd(regSize));
    } else {
      assert Pow2(0) == 1;
      TimesOne(regSize);
    }
  }

  /** The assertion that the size of a run is a size class holds for the small classes, which are at most four pages, if
      the header leaves eleven pages. */
  lemma RunIsClass(lgPage: nat, lgTiny: nat, lgQuantum: nat, regSize: nat, redzones: bool, maxrun: nat, perfect: nat)
    requires 4 * REDZONE_MINSIZE <= Pow2(lgPage) && lgQuantum <= lgPage && 11 * Pow2(lgPage) <= maxrun
    requires 0 < regSize <= 4 * Pow2(lgPage) && IsClass(lgTiny, lgQuantum, regSize)
    requires perfect == regSize * Pow2(Lacking(lgPage, regSize))
    ensures var size := Min(IdealSize(Pow2(lgPage), perfect, regSize, redzones), Whole(maxrun, Pow2(lgPage)));
            size > 0 && IsClass(lgTiny, lgQuantum, size)
  {
    var m, k := IdealForm(lgPage, lgTiny, lgQuantum, regSize, redzones, perfect);
    FormIsClass(lgTiny, lgQuantum, m, k);
  }

  lemma TwosOfThree(n: nat, k: nat)
    requires n == 3 * Pow2(k)
    ensures n > 0 && Twos(n) == k
  {
    MultipleMod(3, Pow2(k));
    TwosAtLeast(n, k);
    DivisionUnique(n, Pow2(k + 1), 1, Pow2(k));
    TwosAtLeast(n, k + 1);
  }

  lemma LgBetween(n: nat, k: nat)
    requires Pow2(k) <= n < Pow2(k + 1)
    ensures LgFloor(n) == k
  {
    Pow2Order(k + 1, LgFloor(n));
    Pow2Order(LgFloor(n) + 1, k);
  }

  lemma FourMore(k: nat)
    ensures Pow2(k + 1) == 2 * Pow2(k) && Pow2(k + 4) == 16 * Pow2(k) && Pow2(k + 5) == 32 * Pow2(k)
  {
    assert Pow2(k + 2) == 2 * Pow2(k + 1);
    assert Pow2(k + 3) == 2 * Pow2(k + 2);
  }

  lemma NineDelta(lgPage: nat, lgQuantum: nat)
    requires lgQuantum <= lgPage
    ensures LgDelta(lgQuantum, 9 * Pow2(lgPage)) == lgPage + 1
  {
    FourMore(lgPage);
    LgBetween(2 * (9 * Pow2(lgPage)) - 1, lgPage + 4);
  }

  /** s2u makes nine pages ten. */
  lemma NinePages(lgPage: nat, lgTiny: nat, lgQuantum: nat)
    requires lgQuantum <= lgPage
    ensures S2u(lgTiny, lgQuantum, 9 * Pow2(lgPage)) == 10 * Pow2(lgPage)
  {
    NineDelta(lgPage, lgQuantum);
    Pow2Order(lgQuantum, lgPage);
    PagesRoundUp(Pow2(lgPage + 1), 5, 9 * Pow2(lgPage));
  }

  /** It is not so for larger ones: with redzones, a region of six pages, which is a size class, gets a run of nine
      pages, which is none. */
  lemma NoClass(lgPage: nat, lgTiny: nat, lgQuantum: nat)
    requires lgQuantum <= lgPage && REDZONE_MINSIZE < Pow2(lgPage)
    ensures var page, regSize := Pow2(lgPage), 6 * Pow2(lgPage);
            && IsClass(lgTiny, lgQuantum, regSize)
            && IdealSize(page, regSize * Pow2(Lacking(lgPage, regSize)), regSize, true) == 9 * page
            && !IsClass(lgTiny, lgQuantum, 9 * page)
  {
    var page, regSize := Pow2(lgPage), 6 * Pow2(lgPage);
    FormIsClass(lgTiny, lgQuantum, 6, lgPage);
    TwosOfThree(regSize, lgPage + 1);
    assert Pow2(0) == 1;
    TimesOne(regSize);
    PagesRoundUp(page, 9, Footprint(regSize, true));
    NinePages(lgPage, lgTiny, lgQuantum);
    assert Open(0);
  }
}
