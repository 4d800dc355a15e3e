/** Division, remainders and alignment. */
module Arith {

  function Pow2(n: nat): (r: nat)
    ensures 1 <= r
    ensures r == 1 <==> n == 0
  {
    if n == 0 then 1 else 2 * Pow2(n - 1)
  }

  lemma MulMonotone(d: nat, a: int, b: int)
    ensures a <= b ==> d * a <= d * b
  {
  }

  lemma DivisionUnique(n: int, d: nat, q: int, r: nat)
    requires 0 < d && n == d * q + r && r < d
    ensures n % d == r
  {
    var q' := n / d;
    MulMonotone(d, q' + 1, q);
    MulMonotone(d, q + 1, q');
  }

  lemma MultipleMod(q: nat, d: nat)
    requires 0 < d
    ensures (q * d) % d == 0
  {
    assert q * d == d * q + 0;
    DivisionUnique(q * d, d, q, 0);
  }

  /** How far above `addr` the next multiple of `alignment` lies. */
  function Lead(addr: nat, alignment: nat): (lead: nat)
    requires 0 < alignment
    ensures lead < alignment && (addr + lead) % alignment == 0
  {
    var q, m := addr / alignment, addr % alignment;
    if m == 0 then 0
    else
      assert addr + (alignment - m) == (q + 1) * alignment;
      MultipleMod(q + 1, alignment);
      alignment - m
  }

  lemma SumMod(a: nat, b: nat, d: nat)
    requires 0 < d && a % d == 0 && b % d == 0
    ensures (a + b) % d == 0
  {
    var i, j := a / d, b / d;
    assert a + b == (i + j) * d;
    MultipleMod(i + j, d);
  }

  lemma DifferenceMod(a: nat, b: nat, d: nat)
    requires 0 < d && a % d == 0 && b % d == 0 && b <= a
    ensures (a - b) % d == 0
  {
    var i, j := a / d, b / d;
    assert a == i * d && b == j * d;
    assert a - b == (i - j) * d;
    MulMonotone(d, i + 1, j);
    MultipleMod(i - j, d);
  }

  /** A multiple of a multiple. */
  lemma MultipleOfMultiple(a: nat, al: nat, d: nat)
    requires 0 < d && 0 < al && al % d == 0 && a % al == 0
    ensures a % d == 0
  {
    var i, j := a / al, al / d;
    assert a == i * al && al == j * d;
    assert a == (i * j) * d;
    MultipleMod(i * j, d);
  }

  /** From a chunk boundary to a coarser boundary is a whole number of chunks, and less than the coarser unit. */
  lemma LeadWhole(addr: nat, alignment: nat, d: nat)
    requires 0 < d && 0 < alignment && alignment % d == 0 && addr % d == 0
    ensures Lead(addr, alignment) % d == 0 && Lead(addr, alignment) + d <= alignment
  {
    var lead := Lead(addr, alignment);
    MultipleOfMultiple(addr + lead, alignment, d);
    DifferenceMod(addr + lead, addr, d);
    DifferenceMod(alignment, lead, d);
    StepOfMultiple(alignment - lead, d);
  }

  lemma StepOfMultiple(n: nat, d: nat)
    requires 0 < d && 0 < n && n % d == 0
    ensures d <= n
  {
  }
}
