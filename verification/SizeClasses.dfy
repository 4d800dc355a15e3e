/** Page size classes and the quantization that indexes free runs by size.

    Sizes are counted in pages.  A table `cs` lists the page size classes; `pad` is the
    padding that large runs carry (no page, or one page in cache-oblivious builds).
 */
module SizeClasses {

  /** A strictly increasing table whose smallest class is one page. */
  ghost predicate ValidClasses(cs: seq<nat>)
  {
    && |cs| > 0
    && cs[0] == 1
    && (forall i, j :: 0 <= i < j < |cs| ==> cs[i] < cs[j])
  }

  /** Index of the smallest class that is at least `size`; the table length if there is none. */
  function Psz2Ind(cs: seq<nat>, size: nat): (r: nat)
    ensures r <= |cs|
    ensures forall i :: 0 <= i < r ==> cs[i] < size
    ensures r < |cs| ==> size <= cs[r]
  {
    Psz2IndFrom(cs, size, 0)
  }

  function Psz2IndFrom(cs: seq<nat>, size: nat, from: nat): (r: nat)
    requires from <= |cs|
    requires forall i :: 0 <= i < from ==> cs[i] < size
    ensures from <= r <= |cs|
    ensures forall i :: 0 <= i < r ==> cs[i] < size
    ensures r < |cs| ==> size <= cs[r]
    decreases |cs| - from
  {
    if from == |cs| || size <= cs[from] then from else Psz2IndFrom(cs, size, from + 1)
  }

  function RunQuantizeFloor(cs: seq<nat>, pad: nat, size: nat): (r: nat)
    requires pad <= size
  {
    var pind := Psz2Ind(cs, size - pad + 1);
    if pind == 0 then size else cs[pind - 1] + pad
  }

  function RunQuantizeCeil(cs: seq<nat>, pad: nat, size: nat): (r: nat)
    requires pad <= 1 <= size
    requires ValidClasses(cs)
    requires RunQuantizeFloor(cs, pad, size) < size ==> size <= cs[|cs| - 1]
  {
    var floor := RunQuantizeFloor(cs, pad, size);
    if floor < size then
      FloorSpec(cs, pad, size);
      cs[Psz2Ind(cs, floor - pad + 1)] + pad
    else floor
  }

  /** The heap that holds free runs of `size` pages. */
  function RunIndex(cs: seq<nat>, pad: nat, size: nat): (r: nat)
    requires pad <= size
  {
    Psz2Ind(cs, RunQuantizeFloor(cs, pad, size))
  }

  /** The floor is the largest padded class that fits, except for a run that only holds the padding. */
  lemma FloorSpec(cs: seq<nat>, pad: nat, size: nat)
    requires ValidClasses(cs) && pad <= 1 <= size
    ensures 1 <= RunQuantizeFloor(cs, pad, size) <= size
    ensures size == pad ==> RunQuantizeFloor(cs, pad, size) == size
    ensures forall k :: 0 <= k < |cs| && cs[k] + pad <= size ==> cs[k] + pad <= RunQuantizeFloor(cs, pad, size)
    ensures pad < size ==> exists k :: 0 <= k < |cs| && RunQuantizeFloor(cs, pad, size) == cs[k] + pad
    ensures pad <= RunQuantizeFloor(cs, pad, size)
  {
    var pind := Psz2Ind(cs, size - pad + 1);
    if pad < size {
      assert cs[0] < size - pad + 1;
      assert pind > 0;
      assert RunQuantizeFloor(cs, pad, size) == cs[pind - 1] + pad;
    }
  }

  lemma IndexOfPaddedClass(cs: seq<nat>, pad: nat, k: nat)
    requires ValidClasses(cs) && pad <= 1 && k < |cs|
    ensures Psz2Ind(cs, cs[k] + pad) == k + pad
  {
    var r := Psz2Ind(cs, cs[k] + pad);
    assert k < r ==> cs[k] < cs[k] + pad;
    if pad == 1 && k + 1 < |cs| {
      assert cs[k] < cs[k + 1];
    }
  }

  lemma FloorIdempotent(cs: seq<nat>, pad: nat, size: nat)
    requires ValidClasses(cs) && pad <= 1 <= size
    ensures pad <= RunQuantizeFloor(cs, pad, size)
    ensures RunQuantizeFloor(cs, pad, RunQuantizeFloor(cs, pad, size)) == RunQuantizeFloor(cs, pad, size)
  {
    FloorSpec(cs, pad, size);
    var f := RunQuantizeFloor(cs, pad, size);
    FloorSpec(cs, pad, f);
    if pad < size {
      var k :| 0 <= k < |cs| && f == cs[k] + pad;
    }
  }

  lemma FloorMonotone(cs: seq<nat>, pad: nat, a: nat, b: nat)
    requires ValidClasses(cs) && pad <= 1 <= a <= b
    ensures RunQuantizeFloor(cs, pad, a) <= RunQuantizeFloor(cs, pad, b)
    ensures RunIndex(cs, pad, a) <= RunIndex(cs, pad, b)
  {
    FloorSpec(cs, pad, a);
    FloorSpec(cs, pad, b);
    if pad < a {
      var k :| 0 <= k < |cs| && RunQuantizeFloor(cs, pad, a) == cs[k] + pad;
      assert cs[k] + pad <= b;
    }
  }

  /** Quantizing up never rounds below the request, and always lands on a fixed point of the floor. */
  lemma CeilSpec(cs: seq<nat>, pad: nat, size: nat)
    requires ValidClasses(cs) && pad <= 1 <= size
    requires RunQuantizeFloor(cs, pad, size) < size ==> size <= cs[|cs| - 1]
    ensures size <= RunQuantizeCeil(cs, pad, size)
    ensures RunQuantizeFloor(cs, pad, size) == size ==> RunQuantizeCeil(cs, pad, size) == size
    ensures RunQuantizeFloor(cs, pad, RunQuantizeCeil(cs, pad, size)) == RunQuantizeCeil(cs, pad, size)
    ensures forall k :: 0 <= k < |cs| && size <= cs[k] + pad ==> RunQuantizeCeil(cs, pad, size) <= cs[k] + pad
  {
    FloorSpec(cs, pad, size);
    var f := RunQuantizeFloor(cs, pad, size);
    var c := RunQuantizeCeil(cs, pad, size);
    if f < size {
      var k :| 0 <= k < |cs| && f == cs[k] + pad;
      assert cs[k] + pad < size <= cs[|cs| - 1];
      var j := Psz2Ind(cs, f - pad + 1);
      assert j == k + 1;
      assert size < cs[j] + pad;
      FloorSpec(cs, pad, c);
    }
  }

  /** Strict order of sizes is visible in the heap index: floors that differ live in different heaps. */
  lemma IndexSeparates(cs: seq<nat>, pad: nat, a: nat, b: nat)
    requires ValidClasses(cs) && pad <= 1 <= a && 1 <= b
    requires RunQuantizeFloor(cs, pad, a) < RunQuantizeFloor(cs, pad, b)
    ensures RunIndex(cs, pad, a) < RunIndex(cs, pad, b)
  {
    FloorSpec(cs, pad, a);
    FloorSpec(cs, pad, b);
    assert pad < b;
    var kb :| 0 <= kb < |cs| && RunQuantizeFloor(cs, pad, b) == cs[kb] + pad;
    IndexOfPaddedClass(cs, pad, kb);
    if pad < a {
      var ka :| 0 <= ka < |cs| && RunQuantizeFloor(cs, pad, a) == cs[ka] + pad;
      IndexOfPaddedClass(cs, pad, ka);
      assert ka < kb;
    } else {
      assert Psz2Ind(cs, 1) == 0;
    }
  }

  /** Every run in a heap at or above the requested index is large enough. */
  lemma HeapIndexSound(cs: seq<nat>, pad: nat, size: nat, run: nat)
    requires ValidClasses(cs) && pad <= 1 <= size && 1 <= run
    requires RunQuantizeFloor(cs, pad, size) < size ==> size <= cs[|cs| - 1]
    requires Psz2Ind(cs, RunQuantizeCeil(cs, pad, size)) <= RunIndex(cs, pad, run)
    ensures size <= RunQuantizeCeil(cs, pad, size) <= RunQuantizeFloor(cs, pad, run) <= run
  {
    CeilSpec(cs, pad, size);
    FloorSpec(cs, pad, run);
    var c := RunQuantizeCeil(cs, pad, size);
    if RunQuantizeFloor(cs, pad, run) < c {
      IndexSeparates(cs, pad, run, c);
    }
  }

  /** The heaps searched for `size` contain every adequate run exactly when `size` quantizes to itself,
      that is, when it is a padded size class (or the bare padding). */
  lemma HeapIndexComplete(cs: seq<nat>, pad: nat, size: nat)
    requires ValidClasses(cs) && pad <= 1 <= size
    requires RunQuantizeFloor(cs, pad, size) < size ==> size <= cs[|cs| - 1]
    ensures RunQuantizeFloor(cs, pad, size) == size
       <==> (forall run: nat :: size <= run ==>
               Psz2Ind(cs, RunQuantizeCeil(cs, pad, size)) <= RunIndex(cs, pad, run))
  {
    var c := RunQuantizeCeil(cs, pad, size);
    CeilSpec(cs, pad, size);
    FloorSpec(cs, pad, size);
    if RunQuantizeFloor(cs, pad, size) == size {
      forall run: nat | size <= run
        ensures Psz2Ind(cs, c) <= RunIndex(cs, pad, run)
      {
        FloorMonotone(cs, pad, size, run);
      }
    } else {
      IndexSeparates(cs, pad, size, c);
      assert size <= size && !(Psz2Ind(cs, c) <= RunIndex(cs, pad, size));
    }
  }

  /** A run smaller than a chunk is indexed by a class no larger than a chunk. */
  lemma RunIndexInTable(cs: seq<nat>, pad: nat, size: nat, chunk: nat)
    requires ValidClasses(cs) && pad <= 1 <= size < chunk && chunk in cs
    ensures RunIndex(cs, pad, size) < |cs|
    ensures cs[RunIndex(cs, pad, size)] <= chunk
  {
    FloorSpec(cs, pad, size);
    var i :| 0 <= i < |cs| && cs[i] == chunk;
    assert RunIndex(cs, pad, size) <= i;
  }
}
