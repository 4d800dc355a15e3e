/** Free chunk extents (chunk.c, extent.c): each pool, of cached or of retained address space, keeps its extents
    in a tree ordered by address and in a tree ordered by quantized size, serial number and address.

    The address-ordered tree is a sequence, so that an update in place keeps its position; the other is a set
    with its comparison.  Sizes and addresses are in bytes.
 */
module Extents {
  import opened Basics
  import opened Arith

  datatype Extent = Extent(addr: nat, size: nat, sn: nat, zeroed: bool, committed: bool)
  {
    function End(): nat
    {
      addr + size
    }
  }

  // ---------------------------------------------------------------- the size-ordered tree

  /** A table of size classes. */
  ghost predicate IsTable(classes: seq<nat>)
  {
    |classes| > 0 && Increasing(classes)
  }

  /** size2index: the first class, from `from` on, that is at least `size`. */
  function Size2Index(classes: seq<nat>, size: nat, from: nat): (r: nat)
    requires from <= |classes|
    ensures from <= r <= |classes|
    decreases |classes| - from
  {
    if from == |classes| || size <= classes[from] then from else Size2Index(classes, size, from + 1)
  }

  lemma Size2IndexSpec(classes: seq<nat>, size: nat, from: nat)
    requires from <= |classes|
    ensures forall i :: from <= i < Size2Index(classes, size, from) ==> classes[i] < size
    ensures Size2Index(classes, size, from) < |classes| ==> size <= classes[Size2Index(classes, size, from)]
    decreases |classes| - from
  {
    if from < |classes| && classes[from] < size {
      Size2IndexSpec(classes, size, from + 1);
    }
  }

  /** extent_quantize: the largest size class that is at most `size`. */
  function Quantize(classes: seq<nat>, size: nat): (r: nat)
    requires |classes| > 0
  {
    var ind := Size2Index(classes, size + 1, 0);
    if ind == 0 then classes[0] else classes[ind - 1]
  }

  /** extent_szsnad_comp, as "strictly before". */
  predicate SzsnadBefore(classes: seq<nat>, a: Extent, b: Extent)
    requires |classes| > 0
  {
    var qa, qb := Quantize(classes, a.size), Quantize(classes, b.size);
    qa < qb || (qa == qb && (a.sn < b.sn || (a.sn == b.sn && a.addr < b.addr)))
  }

  /** What extent_tree_szsnad_nsearch returns for a key of this size: of the extents whose quantized size is no less,
      the one with the least quantized size, then the oldest, then the lowest. */
  ghost predicate IsFirstFit(classes: seq<nat>, tree: set<Extent>, size: nat, e: Extent)
    requires |classes| > 0
  {
    && e in tree && Quantize(classes, size) <= Quantize(classes, e.size)
    && (forall x :: x in tree && Quantize(classes, size) <= Quantize(classes, x.size) ==>
          && Quantize(classes, e.size) <= Quantize(classes, x.size)
          && (Quantize(classes, e.size) == Quantize(classes, x.size) ==>
                e.sn <= x.sn && (e.sn == x.sn ==> e.addr <= x.addr)))
  }

  lemma QuantizeSpec(classes: seq<nat>, size: nat)
    requires IsTable(classes) && classes[0] <= size
    ensures Quantize(classes, size) <= size && Quantize(classes, size) in classes
    ensures forall c :: c in classes && c <= size ==> c <= Quantize(classes, size)
    ensures Quantize(classes, size) == size <==> size in classes
  {
    var ind := Size2Index(classes, size + 1, 0);
    Size2IndexSpec(classes, size + 1, 0);
    assert classes[0] < size + 1;
    forall c | c in classes && c <= size
      ensures c <= Quantize(classes, size)
    {
      var i :| 0 <= i < |classes| && classes[i] == c;
    }
  }

  lemma QuantizeMonotone(classes: seq<nat>, a: nat, b: nat)
    requires IsTable(classes) && classes[0] <= a <= b
    ensures Quantize(classes, a) <= Quantize(classes, b)
  {
    QuantizeSpec(classes, a);
    QuantizeSpec(classes, b);
  }

  /** Every extent that best fit returns for a size is large enough, whatever is in the tree,
      exactly when the size is a size class. */
  lemma BestFitAdequateIff(classes: seq<nat>, size: nat)
    requires IsTable(classes) && classes[0] <= size
    ensures (forall tree, e :: IsFirstFit(classes, tree, size, e) && classes[0] <= e.size ==> size <= e.size) <==>
            size in classes
  {
    QuantizeSpec(classes, size);
    var q := Quantize(classes, size);
    if size in classes {
      forall tree, e | IsFirstFit(classes, tree, size, e) && classes[0] <= e.size
        ensures size <= e.size
      {
        QuantizeSpec(classes, e.size);
      }
    } else {
      var e := Extent(0, q, 0, false, false);
      QuantizeSpec(classes, q);
      assert IsFirstFit(classes, {e}, size, e);
    }
  }

  /** A concrete case: one extent of 8 MiB is offered for a request of 9 MiB when there is no class in between. */
  lemma BestFitTooSmall()
    ensures var classes, e := [8, 10], Extent(0, 8, 0, false, false);
            IsTable(classes) && IsFirstFit(classes, {e}, 9, e) && e.size < 9
  {
    var classes := [8, 10];
    assert Size2Index(classes, 10, 0) == 1 && Size2Index(classes, 9, 0) == 1;
  }

  // ---------------------------------------------------------------- the address-ordered tree

  predicate Within(addr: int, size: int, a: int)
  {
    addr <= a < addr + size
  }

  ghost function Range(addr: int, size: int): iset<int>
  {
    iset a | Within(addr, size, a)
  }

  /** The address space that a set of extents covers. */
  ghost function Space(tree: set<Extent>): iset<int>
  {
    iset e, a | e in tree && a in Range(e.addr, e.size) :: a
  }

  /** In address order and without overlap. */
  ghost predicate Ordered(ad: seq<Extent>)
  {
    && (forall i :: 0 <= i < |ad| ==> 0 < ad[i].size)
    && (forall i, j {:trigger ad[i], ad[j]} :: 0 <= i < j < |ad| ==> ad[i].End() <= ad[j].addr)
  }

  predicate Touch(a: Extent, b: Extent)
  {
    a.End() == b.addr && a.committed == b.committed
  }

  /** The extent at position `i` could be merged with the one before it. */
  predicate Joint(ad: seq<Extent>, i: nat)
  {
    0 < i < |ad| && Touch(ad[i - 1], ad[i])
  }

  /** No two neighbours could be merged, except perhaps at position `k`. */
  ghost predicate CoalescedBut(ad: seq<Extent>, k: nat)
  {
    forall i {:trigger Joint(ad, i)} :: Joint(ad, i) ==> i == k
  }

  /** No two neighbours could be merged. */
  ghost predicate Coalesced(ad: seq<Extent>)
  {
    CoalescedBut(ad, 0)
  }

  ghost function Elements(ad: seq<Extent>): set<Extent>
  {
    set e | e in ad
  }

  ghost function Sum(ad: seq<Extent>): nat
  {
    if ad == [] then 0 else ad[0].size + Sum(ad[1..])
  }

  lemma {:induction false} SumConcat(a: seq<Extent>, b: seq<Extent>)
    ensures Sum(a + b) == Sum(a) + Sum(b)
  {
    if a == [] {
      assert a + b == b;
    } else {
      assert (a + b)[1..] == a[1..] + b;
      SumConcat(a[1..], b);
    }
  }

  /** Replacing the extents from `i` up to `j` by `mid`. */
  function Splice(ad: seq<Extent>, i: nat, j: nat, mid: seq<Extent>): seq<Extent>
    requires i <= j <= |ad|
  {
    ad[..i] + mid + ad[j..]
  }

  lemma SumSplice(ad: seq<Extent>, i: nat, j: nat, mid: seq<Extent>)
    requires i <= j <= |ad|
    ensures Sum(Splice(ad, i, j, mid)) == Sum(ad) - Sum(ad[i..j]) + Sum(mid)
  {
    assert ad == ad[..i] + ad[i..j] + ad[j..];
    SumConcat(ad[..i] + ad[i..j], ad[j..]);
    SumConcat(ad[..i], ad[i..j]);
    SumConcat(ad[..i] + mid, ad[j..]);
    SumConcat(ad[..i], mid);
  }

  lemma OrderedSplice(ad: seq<Extent>, i: nat, j: nat, mid: seq<Extent>)
    requires i <= j <= |ad| && Ordered(ad) && Ordered(mid)
    requires forall a, m :: 0 <= a < i && 0 <= m < |mid| ==> ad[a].End() <= mid[m].addr
    requires forall b, m :: j <= b < |ad| && 0 <= m < |mid| ==> mid[m].End() <= ad[b].addr
    ensures Ordered(Splice(ad, i, j, mid))
  {
  }

  lemma SpaceUnion(a: set<Extent>, b: set<Extent>)
    ensures Space(a + b) == Space(a) + Space(b)
  {
  }

  lemma SpaceOne(e: Extent)
    ensures Space({e}) == Range(e.addr, e.size)
  {
    forall a | a in Range(e.addr, e.size) ensures a in Space({e}) { assert e in {e}; }
  }

  lemma ElementsSplice(ad: seq<Extent>, i: nat, j: nat, mid: seq<Extent>)
    requires i <= j <= |ad| && Ordered(ad)
    ensures Elements(Splice(ad, i, j, mid)) == Elements(ad) - Elements(ad[i..j]) + Elements(mid)
  {
    assert ad == ad[..i] + ad[i..j] + ad[j..];
    forall e | e in ad[i..j]
      ensures e !in ad[..i] && e !in ad[j..]
    {
    }
  }

  /** Replacing extents by others that also cover `extra`. */
  lemma SpaceGrows(all: set<Extent>, a: set<Extent>, b: set<Extent>, extra: iset<int>)
    requires a <= all && Space(b) == Space(a) + extra
    ensures Space(all - a + b) == Space(all) + extra
  {
    assert all == (all - a) + a;
    SpaceUnion(all - a, a);
    SpaceUnion(all - a, b);
  }

  /** Replacing extents by others that no longer cover `gone`. */
  lemma SpaceShrinks(all: set<Extent>, a: set<Extent>, b: set<Extent>, gone: iset<int>)
    requires a <= all && Space(a) == Space(b) + gone && Space(b) !! gone && Space(all - a) !! Space(a)
    ensures Space(all) == Space(all - a + b) + gone && Space(all - a + b) !! gone
  {
    assert all == (all - a) + a;
    SpaceUnion(all - a, a);
    SpaceUnion(all - a, b);
  }

  lemma OthersApart(ad: seq<Extent>, k: nat)
    requires Ordered(ad) && k < |ad|
    ensures Space(Elements(ad) - {ad[k]}) !! Space({ad[k]})
  {
    forall a | a in Space(Elements(ad) - {ad[k]})
      ensures a !in Space({ad[k]})
    {
      var e :| e in Elements(ad) - {ad[k]} && a in Range(e.addr, e.size);
      var i :| 0 <= i < |ad| && ad[i] == e;
      SpaceOne(ad[k]);
      assert Within(e.addr, e.size, a);
    }
  }

  /** An address range that overlaps no extent. */
  ghost predicate Apart(ad: seq<Extent>, addr: nat, size: nat)
  {
    forall i {:trigger ad[i]} :: 0 <= i < |ad| ==> ad[i].End() <= addr || addr + size <= ad[i].addr
  }

  lemma ApartFromSpace(ad: seq<Extent>, addr: nat, size: nat)
    requires Ordered(ad) && 0 < size && Range(addr, size) !! Space(Elements(ad))
    ensures Apart(ad, addr, size)
  {
    forall i | 0 <= i < |ad|
      ensures ad[i].End() <= addr || addr + size <= ad[i].addr
    {
      var a := if addr < ad[i].addr then ad[i].addr else addr;
      assert ad[i] in Elements(ad);
      assert Within(ad[i].addr, ad[i].size, a) ==> a in Range(ad[i].addr, ad[i].size);
      assert Within(addr, size, a) ==> a in Range(addr, size);
    }
  }

  /** `x` can stand where the extents from `i` up to `j` stood. */
  ghost predicate FitsAt(ad: seq<Extent>, i: nat, j: nat, x: Extent)
    requires i <= j <= |ad|
  {
    && 0 < x.size
    && (forall a :: 0 <= a < i ==> ad[a].End() <= x.addr)
    && (forall b :: j <= b < |ad| ==> x.End() <= ad[b].addr)
  }

  lemma ReplacedOrdered(ad: seq<Extent>, i: nat, j: nat, x: Extent)
    requires i <= j <= |ad| && Ordered(ad) && FitsAt(ad, i, j, x)
    ensures Ordered(Splice(ad, i, j, [x]))
  {
    OrderedSplice(ad, i, j, [x]);
  }

  lemma ReplacedElements(ad: seq<Extent>, i: nat, j: nat, x: Extent)
    requires i <= j <= |ad| && Ordered(ad)
    ensures Elements(Splice(ad, i, j, [x])) == Elements(ad) - Elements(ad[i..j]) + {x}
  {
    ElementsSplice(ad, i, j, [x]);
    assert Elements([x]) == {x};
  }

  lemma ReplacedSum(ad: seq<Extent>, i: nat, j: nat, x: Extent)
    requires i <= j <= |ad|
    ensures Sum(Splice(ad, i, j, [x])) == Sum(ad) - Sum(ad[i..j]) + x.size
  {
    SumSplice(ad, i, j, [x]);
    SumOne(x);
  }

  lemma SumOne(x: Extent)
    ensures Sum([x]) == x.size
  {
    assert [x][1..] == [];
  }

  lemma ReplacedSpace(ad: seq<Extent>, i: nat, j: nat, x: Extent, extra: iset<int>)
    requires i <= j <= |ad|
    requires Range(x.addr, x.size) == Space(Elements(ad[i..j])) + extra
    ensures Space(Elements(ad) - Elements(ad[i..j]) + {x}) == Space(Elements(ad)) + extra
  {
    SpaceOne(x);
    SpaceGrows(Elements(ad), Elements(ad[i..j]), {x}, extra);
  }

  /** size_t has 64 bits. */
  const WORD: nat := 0x1_0000_0000_0000_0000

  /** What the chunk hooks and the node allocator answer during chunk_recycle and, if it has to undo, chunk_record. */
  datatype RecycleHooks = RecycleHooks(leadSplitFails: bool, trailSplitFails: bool, nodeFails: bool, commitFails: bool,
                                       undo: RecordHooks)
  {
    predicate Agreeable()
    {
      !leadSplitFails && !trailSplitFails && !nodeFails && !commitFails
    }
  }

  datatype Recycled =
    | NoExtent
    | Got(addr: nat, sn: nat, zeroed: bool, committed: bool)
    | Broken                       // the assertion that the extent is large enough fails

  /** A hook stands in the way of taking `size` bytes out of the extent, `lead` bytes in: a split that is needed fails,
      or there is no node for the second piece that is left, or memory that is not committed cannot be. */
  predicate HooksRefuse(e: Extent, lead: nat, size: nat, hooks: RecycleHooks)
  {
    || (0 < lead && hooks.leadSplitFails)
    || (lead + size < e.size && hooks.trailSplitFails)
    || (0 < lead && lead + size < e.size && hooks.nodeFails)
    || (!e.committed && hooks.commitFails)
  }

  /** The extent that is handed out. */
  ghost function Handed(r: Recycled, size: nat): Extent
    requires r.Got?
  {
    Extent(r.addr, size, r.sn, r.zeroed, r.committed)
  }

  datatype RecordHooks = RecordHooks(nextMergeFails: bool, nodeFails: bool, prevMergeFails: bool)

  datatype Config = Config(classes: seq<nat>, chunksize: nat, cache: bool)

  ghost predicate ValidConfig(cfg: Config)
  {
    IsTable(cfg.classes) && 0 < cfg.chunksize && cfg.classes[0] <= cfg.chunksize
  }

  /** An extent that this pool may hold: whole chunks, and never known to be zeroed in the cache. */
  ghost predicate Whole(cfg: Config, e: Extent)
  {
    && 0 < cfg.chunksize && e.addr % cfg.chunksize == 0 && e.size % cfg.chunksize == 0 && cfg.chunksize <= e.size
    && (cfg.cache ==> !e.zeroed)
  }

  ghost predicate AllWhole(cfg: Config, tree: set<Extent>)
  {
    forall e {:trigger e in tree} :: e in tree ==> Whole(cfg, e)
  }

  /** The two trees hold the same extents, in order and apart, and the counter is their total. */
  ghost predicate Agree(cfg: Config, ad: seq<Extent>, szsnad: set<Extent>, total: int)
  {
    forall key {:trigger Open(key)} :: Open(key) ==>
      Ordered(ad) && szsnad == Elements(ad) && total == Sum(ad) && AllWhole(cfg, szsnad)
  }

  lemma ReplacedAgree(cfg: Config, ad: seq<Extent>, szsnad: set<Extent>, total: int, i: nat, j: nat, x: Extent)
    requires Agree(cfg, ad, szsnad, total) && i <= j <= |ad| && FitsAt(ad, i, j, x) && Whole(cfg, x)
    ensures Agree(cfg, Splice(ad, i, j, [x]), szsnad - Elements(ad[i..j]) + {x}, total - Sum(ad[i..j]) + x.size)
  {
    assert Open(0);
    ReplacedOrdered(ad, i, j, x);
    ReplacedElements(ad, i, j, x);
    ReplacedSum(ad, i, j, x);
  }

  lemma ReplacedCovers(cfg: Config, ad: seq<Extent>, szsnad: set<Extent>, total: int, i: nat, j: nat, x: Extent,
                       extra: iset<int>)
    requires Agree(cfg, ad, szsnad, total) && i <= j <= |ad|
    requires Range(x.addr, x.size) == Space(Elements(ad[i..j])) + extra
    ensures Space(szsnad - Elements(ad[i..j]) + {x}) == Space(szsnad) + extra
  {
    assert szsnad == Elements(ad) by { assert Open(0); }
    ReplacedSpace(ad, i, j, x, extra);
  }

  /** Where a range that is being recorded goes. */
  lemma RecordPosition(cfg: Config, ad: seq<Extent>, szsnad: set<Extent>, total: int, chunk: nat, size: nat, k: nat)
    requires Agree(cfg, ad, szsnad, total) && 0 < size && Range(chunk, size) !! Space(szsnad)
    requires k <= |ad| && (forall i :: 0 <= i < k ==> ad[i].addr < chunk + size)
             && (k < |ad| ==> chunk + size <= ad[k].addr)
    ensures forall i :: 0 <= i < k ==> ad[i].End() <= chunk
    ensures forall i :: k <= i < |ad| ==> chunk + size <= ad[i].addr
    ensures forall i :: 0 <= i < |ad| ==> Whole(cfg, ad[i])
  {
    assert Open(0);
    ApartFromSpace(ad, chunk, size);
    assert forall i :: 0 <= i < |ad| ==> ad[i] in szsnad;
  }

  /** Two neighbours as one: the older serial number, zeroed only if both are. */
  function Merged(a: Extent, b: Extent): Extent
  {
    Extent(a.addr, a.size + b.size, Min(a.sn, b.sn), a.zeroed && b.zeroed, b.committed)
  }

  lemma MergedWhole(cfg: Config, a: Extent, b: Extent)
    requires Whole(cfg, a) && Whole(cfg, b)
    ensures Whole(cfg, Merged(a, b))
  {
    SumMod(a.size, b.size, cfg.chunksize);
  }

  lemma MergedCovers(a: Extent, b: Extent)
    requires a.End() == b.addr
    ensures Range(Merged(a, b).addr, Merged(a, b).size) == Range(a.addr, a.size) + Range(b.addr, b.size)
  {
  }

  // ---------------------------------------------------------------- what the flags and serial numbers mean

  /** The addresses that a set of extents says are zeroed. */
  ghost function Zeroed(tree: set<Extent>): iset<int>
  {
    Space(set e | e in tree && e.zeroed)
  }

  /** The addresses that a set of extents says are committed. */
  ghost function Committed(tree: set<Extent>): iset<int>
  {
    Space(set e | e in tree && e.committed)
  }

  lemma ZeroedUnion(a: set<Extent>, b: set<Extent>)
    ensures Zeroed(a + b) == Zeroed(a) + Zeroed(b)
  {
    SpaceUnion(set e | e in a && e.zeroed, set e | e in b && e.zeroed);
    assert (set e | e in a + b && e.zeroed) == (set e | e in a && e.zeroed) + (set e | e in b && e.zeroed);
  }

  lemma CommittedUnion(a: set<Extent>, b: set<Extent>)
    ensures Committed(a + b) == Committed(a) + Committed(b)
  {
    SpaceUnion(set e | e in a && e.committed, set e | e in b && e.committed);
    assert (set e | e in a + b && e.committed) == (set e | e in a && e.committed) + (set e | e in b && e.committed);
  }

  lemma ZeroedAlike(a: set<Extent>, zeroed: bool)
    requires forall e :: e in a ==> e.zeroed == zeroed
    ensures Zeroed(a) == if zeroed then Space(a) else iset{}
  {
    assert (set e | e in a && e.zeroed) == if zeroed then a else {};
  }

  lemma CommittedAlike(a: set<Extent>, committed: bool)
    requires forall e :: e in a ==> e.committed == committed
    ensures Committed(a) == if committed then Space(a) else iset{}
  {
    assert (set e | e in a && e.committed) == if committed then a else {};
  }

  /** `e` is these extents as one: it covers what they cover, has the least of their serial numbers, is committed as
      they all are, and is zeroed exactly if all of them are. */
  ghost predicate MadeOf(e: Extent, parts: set<Extent>)
  {
    && Range(e.addr, e.size) == Space(parts)
    && (forall p :: p in parts ==> e.sn <= p.sn && e.committed == p.committed && (e.zeroed ==> p.zeroed))
    && (exists p :: p in parts && e.sn == p.sn)
    && (e.zeroed || exists p :: p in parts && !p.zeroed)
  }

  /** The extents that a recorded range becomes one with: those next to it, committed as it is, unless a hook
      refuses. */
  ghost function Partners(before: set<Extent>, x: Extent, hooks: RecordHooks): set<Extent>
  {
    set p | p in before && ((Touch(x, p) && !hooks.nextMergeFails) || (Touch(p, x) && !hooks.prevMergeFails))
  }

  /** The range and its partners became the one extent `e`; the rest is as before. */
  ghost predicate Recorded(before: set<Extent>, after: set<Extent>, x: Extent, hooks: RecordHooks, e: Extent)
  {
    && MadeOf(e, Partners(before, x, hooks) + {x})
    && after == before - Partners(before, x, hooks) + {e}
  }

  /** Recording says no address is zeroed that was not, and keeps what is committed. */
  lemma RecordedFlags(before: set<Extent>, after: set<Extent>, x: Extent, hooks: RecordHooks, e: Extent)
    requires Recorded(before, after, x, hooks, e)
    ensures Zeroed(after) <= Zeroed(before + {x}) && Committed(after) == Committed(before + {x})
  {
    var parts := Partners(before, x, hooks);
    var rest := before - parts;
    assert before + {x} == rest + (parts + {x}) && after == rest + {e};
    SpaceOne(e);
    ZeroedUnion(rest, parts + {x});
    ZeroedUnion(rest, {e});
    ZeroedAlike({e}, e.zeroed);
    if e.zeroed {
      ZeroedAlike(parts + {x}, true);
    }
    CommittedUnion(rest, parts + {x});
    CommittedUnion(rest, {e});
    CommittedAlike({e}, e.committed);
    CommittedAlike(parts + {x}, e.committed);
  }

  /** Merging forward and then backward. */
  lemma RecordedBoth(before: set<Extent>, mid: set<Extent>, after: set<Extent>, x: Extent, hooks: RecordHooks,
                     node: Extent, e: Extent)
    requires 0 < x.size && Range(x.addr, x.size) !! Space(before)
    requires Recorded(before, mid, x, hooks.(prevMergeFails := true), node)
    requires node.addr == x.addr && Recorded(mid - {node}, after, node, hooks.(nextMergeFails := true), e)
    ensures Recorded(before, after, x, hooks, e)
  {
    var ahead := Partners(before, x, hooks.(prevMergeFails := true));
    var behind := Partners(mid - {node}, node, hooks.(nextMergeFails := true));
    assert Within(x.addr, x.size, x.addr);
    assert x.addr in Range(x.addr, x.size) && x.addr in Space(ahead + {x});
    assert node !in before;
    assert mid - {node} == before - ahead;
    assert x in ahead + {x} && node.committed == x.committed;
    assert forall p :: p in ahead ==> !Touch(p, x);
    assert Partners(before, x, hooks) == ahead + behind;
    MadeOfMade(e, node, behind, ahead + {x});
    assert behind + (ahead + {x}) == Partners(before, x, hooks) + {x};
  }

  lemma MadeOfMade(e: Extent, node: Extent, others: set<Extent>, parts: set<Extent>)
    requires MadeOf(e, others + {node}) && MadeOf(node, parts)
    ensures MadeOf(e, others + parts)
  {
    SpaceUnion(others, {node});
    SpaceUnion(others, parts);
    SpaceOne(node);
    assert node in others + {node};
    var least :| least in others + {node} && e.sn == least.sn;
    if least == node {
      var p :| p in parts && node.sn == p.sn;
      assert p in others + parts;
    } else {
      assert least in others + parts;
    }
    if !e.zeroed {
      var dirty :| dirty in others + {node} && !dirty.zeroed;
      if dirty == node {
        var p :| p in parts && !p.zeroed;
        assert p in others + parts;
      } else {
        assert dirty in others + parts;
      }
    }
  }

  lemma MadeOfTwo(a: Extent, b: Extent)
    requires Touch(a, b)
    ensures MadeOf(Merged(a, b), {a} + {b})
  {
    MergedCovers(a, b);
    SpaceOne(a);
    SpaceOne(b);
    SpaceUnion({a}, {b});
    assert a in {a} + {b} && b in {a} + {b};
  }

  /** A part of an extent, with what is known of the extent. */
  ghost predicate PieceOf(q: Extent, e: Extent)
  {
    && e.addr <= q.addr && q.End() <= e.End()
    && q.sn == e.sn && q.zeroed == e.zeroed && q.committed == e.committed
  }

  /** `taken` was cut from `e`: pieces of it remain, and the rest is as before. */
  ghost predicate Cut(before: set<Extent>, after: set<Extent>, e: Extent, taken: Extent)
  {
    && e in before && PieceOf(taken, e) && before - {e} <= after
    && (forall q :: q in after ==> q in before - {e} || PieceOf(q, e))
    && Space(before) == Space(after) + Range(taken.addr, taken.size) && Space(after) !! Range(taken.addr, taken.size)
  }

  /** The flags of every address that is left are as before, but zeroed memory may count as not zeroed. */
  ghost predicate FlagsKept(before: set<Extent>, after: set<Extent>)
  {
    Zeroed(after) <= Zeroed(before) && Committed(after) == Committed(before) * Space(after)
  }

  lemma CutFlags(before: set<Extent>, after: set<Extent>, e: Extent, taken: Extent)
    requires Cut(before, after, e, taken) && Space(before - {e}) !! Range(e.addr, e.size)
    ensures FlagsKept(before, after)
    ensures Zeroed(before) == Zeroed(after + {taken}) && Committed(before) == Committed(after + {taken})
    ensures taken.zeroed ==> Range(taken.addr, taken.size) <= Zeroed(before)
  {
    var rest := before - {e};
    var left := after - rest;
    assert before == rest + {e} && after == rest + left && after + {taken} == rest + (left + {taken});
    SpaceOne(e);
    SpaceOne(taken);
    SpaceUnion(rest, {e});
    SpaceUnion(rest, left);
    SpaceUnion(left, {taken});
    PiecesInside(left + {taken}, e);
    assert Space(left + {taken}) == Range(e.addr, e.size);
    ZeroedUnion(rest, {e});
    ZeroedUnion(rest, left);
    ZeroedUnion(rest, left + {taken});
    ZeroedAlike({e}, e.zeroed);
    ZeroedAlike(left, e.zeroed);
    ZeroedAlike(left + {taken}, e.zeroed);
    CommittedUnion(rest, {e});
    CommittedUnion(rest, left);
    CommittedUnion(rest, left + {taken});
    CommittedAlike({e}, e.committed);
    CommittedAlike(left, e.committed);
    CommittedAlike(left + {taken}, e.committed);
    CommittedInside(rest);
  }

  lemma PiecesInside(pieces: set<Extent>, e: Extent)
    requires forall q :: q in pieces ==> PieceOf(q, e)
    ensures Space(pieces) <= Range(e.addr, e.size)
  {
    forall a | a in Space(pieces)
      ensures a in Range(e.addr, e.size)
    {
      var q :| q in pieces && a in Range(q.addr, q.size);
      assert Within(q.addr, q.size, a) && Within(e.addr, e.size, a);
    }
  }

  lemma CommittedInside(tree: set<Extent>)
    ensures Committed(tree) <= Space(tree)
  {
    var some := set e | e in tree && e.committed;
    assert tree == some + tree;
    SpaceUnion(some, tree);
  }

  /** Which extent a range merges forward with. */
  lemma OnePartner(ad: seq<Extent>, x: Extent, k: nat, hooks: RecordHooks)
    requires Ordered(ad) && k <= |ad| && hooks.prevMergeFails
    requires (forall i :: 0 <= i < k ==> ad[i].addr < x.End()) && (k < |ad| ==> x.End() <= ad[k].addr)
    ensures Partners(Elements(ad), x, hooks) ==
            if k < |ad| && Touch(x, ad[k]) && !hooks.nextMergeFails then {ad[k]} else {}
  {
    forall p | p in Elements(ad) && Touch(x, p)
      ensures k < |ad| && p == ad[k]
    {
      var i :| 0 <= i < |ad| && ad[i] == p;
    }
  }

  /** Which extent a range merges backward with. */
  lemma OnePredecessor(ad: seq<Extent>, k: nat, hooks: RecordHooks)
    requires Ordered(ad) && k < |ad| && hooks.nextMergeFails
    ensures Partners(Elements(ad) - {ad[k]}, ad[k], hooks) ==
            if 0 < k && Touch(ad[k - 1], ad[k]) && !hooks.prevMergeFails then {ad[k - 1]} else {}
  {
    forall p | p in Elements(ad) && Touch(p, ad[k])
      ensures 0 < k && p == ad[k - 1]
    {
      var i :| 0 <= i < |ad| && ad[i] == p;
    }
    assert 0 < k ==> ad[k - 1] in Elements(ad) && ad[k - 1] != ad[k];
  }

  lemma BackwardRecorded(ad: seq<Extent>, after: set<Extent>, k: nat, hooks: RecordHooks, e: Extent)
    requires Ordered(ad) && k < |ad| && hooks.nextMergeFails
    requires if 0 < k && Touch(ad[k - 1], ad[k]) && !hooks.prevMergeFails
             then MadeOf(e, {ad[k - 1]} + {ad[k]}) && after == Elements(ad) - {ad[k - 1]} - {ad[k]} + {e}
             else e == ad[k] && after == Elements(ad)
    ensures Recorded(Elements(ad) - {ad[k]}, after, ad[k], hooks, e)
  {
    OnePredecessor(ad, k, hooks);
    MadeOfOne(ad[k]);
    assert ad[k] in Elements(ad);
  }

  lemma ForwardRecorded(ad: seq<Extent>, after: set<Extent>, x: Extent, k: nat, hooks: RecordHooks, e: Extent)
    requires Ordered(ad) && k <= |ad| && hooks.prevMergeFails
    requires (forall i :: 0 <= i < k ==> ad[i].addr < x.End()) && (k < |ad| ==> x.End() <= ad[k].addr)
    requires if k < |ad| && Touch(x, ad[k]) && !hooks.nextMergeFails
             then MadeOf(e, {x} + {ad[k]}) && after == Elements(ad) - {ad[k]} + {e}
             else e == x && after == Elements(ad) + {x}
    ensures Recorded(Elements(ad), after, x, hooks, e)
  {
    OnePartner(ad, x, k, hooks);
    MadeOfOne(x);
    if k < |ad| && Touch(x, ad[k]) && !hooks.nextMergeFails {
      assert {x} + {ad[k]} == Partners(Elements(ad), x, hooks) + {x};
    }
  }

  lemma MadeOfOne(x: Extent)
    ensures MadeOf(x, {} + {x})
  {
    assert {} + {x} == {x};
    SpaceOne(x);
    assert x in {x};
  }

  /** The joints of a splice are those of its parts and the two seams. */
  lemma SpliceJoint(ad: seq<Extent>, i: nat, j: nat, mid: seq<Extent>, p: nat)
    requires i <= j <= |ad| && 0 < |mid|
    ensures Joint(Splice(ad, i, j, mid), p) <==>
              || (p < i && Joint(ad, p))
              || (p == i && 0 < i && Touch(ad[i - 1], mid[0]))
              || (i < p < i + |mid| && Joint(mid, p - i))
              || (p == i + |mid| && j < |ad| && Touch(mid[|mid| - 1], ad[j]))
              || (i + |mid| < p && Joint(ad, p - |mid| - i + j))
  {
  }

  lemma CoalescedForward(ad: seq<Extent>, k: nat, x: Extent)
    requires Coalesced(ad) && k < |ad| && x.End() == ad[k].End() && x.committed == ad[k].committed
    ensures CoalescedBut(Splice(ad, k, k + 1, [x]), k)
  {
    var ad' := Splice(ad, k, k + 1, [x]);
    forall p: nat
      ensures Joint(ad', p) ==> p == k
    {
      SpliceJoint(ad, k, k + 1, [x], p);
      assert !Joint(ad, p);
    }
  }

  lemma CoalescedInsert(ad: seq<Extent>, k: nat, x: Extent)
    requires Coalesced(ad) && k <= |ad| && (k < |ad| ==> !Touch(x, ad[k]))
    ensures CoalescedBut(Splice(ad, k, k, [x]), k)
  {
    var ad' := Splice(ad, k, k, [x]);
    forall p: nat
      ensures Joint(ad', p) ==> p == k
    {
      SpliceJoint(ad, k, k, [x], p);
      assert !Joint(ad, p);
      assert p > 0 ==> !Joint(ad, p - 1);
    }
  }

  lemma CoalescedBackward(ad: seq<Extent>, k: nat, x: Extent)
    requires CoalescedBut(ad, k) && 0 < k < |ad| && x.addr == ad[k - 1].addr && x.End() == ad[k].End()
    requires x.committed == ad[k - 1].committed == ad[k].committed
    ensures Coalesced(Splice(ad, k - 1, k + 1, [x]))
  {
    var ad' := Splice(ad, k - 1, k + 1, [x]);
    forall p: nat
      ensures Joint(ad', p) ==> p == 0
    {
      SpliceJoint(ad, k - 1, k + 1, [x], p);
      assert p != k ==> !Joint(ad, p);
      assert p + 1 != k ==> !Joint(ad, p + 1);
    }
  }

  lemma PairCovers(prev: Extent, node: Extent)
    requires prev.End() == node.addr
    ensures Range(Merged(prev, node).addr, Merged(prev, node).size) == Space(Elements([prev, node])) + iset{}
    ensures Sum([prev, node]) == prev.size + node.size
  {
    MergedCovers(prev, node);
    SpaceOne(prev);
    SpaceOne(node);
    SpaceUnion({prev}, {node});
    SumConcat([prev], [node]);
    SumOne(prev);
    SumOne(node);
    assert [prev, node] == [prev] + [node] && Elements([prev, node]) == {prev} + {node};
  }

  /** Two neighbours can be replaced by one extent. */
  lemma PairMerges(cfg: Config, ad: seq<Extent>, szsnad: set<Extent>, total: int, k: nat)
    requires Agree(cfg, ad, szsnad, total) && 0 < k < |ad| && ad[k - 1].End() == ad[k].addr
    ensures Whole(cfg, Merged(ad[k - 1], ad[k])) && FitsAt(ad, k - 1, k + 1, Merged(ad[k - 1], ad[k]))
    ensures ad[k - 1..k + 1] == [ad[k - 1], ad[k]]
  {
    assert Open(0);
    assert ad[k - 1] in szsnad && ad[k] in szsnad;
    MergedWhole(cfg, ad[k - 1], ad[k]);
  }

  /** What is left of an extent after `size` bytes are taken from it, `lead` bytes in. */
  function Pieces(e: Extent, lead: nat, size: nat): seq<Extent>
    requires lead + size <= e.size
  {
    (if lead == 0 then [] else [e.(size := lead)])
    + (if lead + size == e.size then [] else [e.(addr := e.addr + lead + size, size := e.size - lead - size)])
  }

  /** What is taken from it. */
  ghost function Part(e: Extent, lead: nat, size: nat): Extent
  {
    e.(addr := e.addr + lead, size := size)
  }

  lemma PiecesCover(e: Extent, lead: nat, size: nat)
    requires 0 < size && lead + size <= e.size
    ensures Ordered(Pieces(e, lead, size)) && Sum(Pieces(e, lead, size)) == e.size - size
    ensures Range(e.addr, e.size) == Space(Elements(Pieces(e, lead, size))) + Range(e.addr + lead, size)
    ensures Space(Elements(Pieces(e, lead, size))) !! Range(e.addr + lead, size)
  {
    var a: seq<Extent> := if lead == 0 then [] else [e.(size := lead)];
    var b: seq<Extent> := if lead + size == e.size then []
      else [e.(addr := e.addr + lead + size, size := e.size - lead - size)];
    SumConcat(a, b);
    SumOne(e.(size := lead));
    SumOne(e.(addr := e.addr + lead + size, size := e.size - lead - size));
    assert Elements(a + b) == Elements(a) + Elements(b);
    SpaceUnion(Elements(a), Elements(b));
    SpaceOne(e.(size := lead));
    SpaceOne(e.(addr := e.addr + lead + size, size := e.size - lead - size));
    assert Elements(a) == if lead == 0 then {} else {e.(size := lead)};
    assert Elements(b) == if lead + size == e.size then {}
           else {e.(addr := e.addr + lead + size, size := e.size - lead - size)};
  }

  lemma PiecesWhole(cfg: Config, e: Extent, lead: nat, size: nat)
    requires Whole(cfg, e) && 0 < size && lead + size <= e.size
    requires lead % cfg.chunksize == 0 && size % cfg.chunksize == 0
    ensures AllWhole(cfg, Elements(Pieces(e, lead, size)))
  {
    var cs := cfg.chunksize;
    SumMod(lead, size, cs);
    SumMod(e.addr, lead + size, cs);
    DifferenceMod(e.size, lead + size, cs);
    if lead > 0 {
      StepOfMultiple(lead, cs);
    }
    if lead + size < e.size {
      StepOfMultiple(e.size - lead - size, cs);
    }
  }

  lemma PiecesOrdered(ad: seq<Extent>, k: nat, lead: nat, size: nat)
    requires Ordered(ad) && k < |ad| && 0 < size && lead + size <= ad[k].size
    ensures Ordered(Splice(ad, k, k + 1, Pieces(ad[k], lead, size)))
  {
    PiecesCover(ad[k], lead, size);
    OrderedSplice(ad, k, k + 1, Pieces(ad[k], lead, size));
  }

  lemma CarvedAgree(cfg: Config, ad: seq<Extent>, szsnad: set<Extent>, total: int, k: nat, lead: nat, size: nat)
    requires Agree(cfg, ad, szsnad, total) && k < |ad| && 0 < size && lead + size <= ad[k].size
    requires 0 < cfg.chunksize && lead % cfg.chunksize == 0 && size % cfg.chunksize == 0
    ensures Agree(cfg, Splice(ad, k, k + 1, Pieces(ad[k], lead, size)),
                  szsnad - {ad[k]} + Elements(Pieces(ad[k], lead, size)), total - size)
  {
    assert Open(0);
    var mid := Pieces(ad[k], lead, size);
    assert ad[k] in szsnad;
    PiecesWhole(cfg, ad[k], lead, size);
    PiecesOrdered(ad, k, lead, size);
    assert ad[k..k + 1] == [ad[k]] && Elements([ad[k]]) == {ad[k]};
    ElementsSplice(ad, k, k + 1, mid);
    SumSplice(ad, k, k + 1, mid);
    SumOne(ad[k]);
    assert Sum(mid) == ad[k].size - size by { PiecesCover(ad[k], lead, size); }
  }

  lemma CarvedSpace(cfg: Config, ad: seq<Extent>, szsnad: set<Extent>, total: int, k: nat, lead: nat, size: nat)
    requires Agree(cfg, ad, szsnad, total) && k < |ad| && 0 < size && lead + size <= ad[k].size
    ensures Space(szsnad) == Space(szsnad - {ad[k]} + Elements(Pieces(ad[k], lead, size)))
            + Range(ad[k].addr + lead, size)
    ensures Space(szsnad - {ad[k]} + Elements(Pieces(ad[k], lead, size))) !! Range(ad[k].addr + lead, size)
  {
    assert Ordered(ad) && szsnad == Elements(ad) by { assert Open(0); }
    PiecesCover(ad[k], lead, size);
    SpaceOne(ad[k]);
    OthersApart(ad, k);
    SpaceShrinks(szsnad, {ad[k]}, Elements(Pieces(ad[k], lead, size)), Range(ad[k].addr + lead, size));
  }

  lemma CarvedCoalesced(ad: seq<Extent>, k: nat, lead: nat, size: nat)
    requires Ordered(ad) && Coalesced(ad) && k < |ad| && 0 < size && lead + size <= ad[k].size
    ensures Coalesced(Splice(ad, k, k + 1, Pieces(ad[k], lead, size)))
  {
    var mid := Pieces(ad[k], lead, size);
    var ad' := Splice(ad, k, k + 1, mid);
    forall p: nat
      ensures Joint(ad', p) ==> p == 0
    {
      if mid == [] {
        assert !Joint(ad, p) && !Joint(ad, p + 1);
      } else {
        SpliceJoint(ad, k, k + 1, mid, p);
        assert !Joint(ad, p) && !Joint(ad, k) && !Joint(ad, k + 1);
        assert k + |mid| < p ==> !Joint(ad, p - |mid| + 1);
      }
    }
  }

  lemma PiecesAre(e: Extent, lead: nat, size: nat)
    requires 0 < size && lead + size <= e.size
    ensures forall q :: q in Elements(Pieces(e, lead, size)) ==> PieceOf(q, e)
  {
  }

  lemma CarvedCut(cfg: Config, ad: seq<Extent>, szsnad: set<Extent>, total: int, k: nat, lead: nat, size: nat)
    requires Agree(cfg, ad, szsnad, total) && k < |ad| && 0 < size && lead + size <= ad[k].size
    ensures Cut(szsnad, szsnad - {ad[k]} + Elements(Pieces(ad[k], lead, size)), ad[k], Part(ad[k], lead, size))
    ensures Space(szsnad - {ad[k]}) !! Range(ad[k].addr, ad[k].size)
  {
    CarvedSpace(cfg, ad, szsnad, total, k, lead, size);
    assert Ordered(ad) && szsnad == Elements(ad) by { assert Open(0); }
    PiecesAre(ad[k], lead, size);
    OthersApart(ad, k);
    SpaceOne(ad[k]);
  }

  /** Having cut from an extent and recorded again what was cut. */
  lemma FlagsRestored(before: set<Extent>, mid: set<Extent>, after: set<Extent>, e: Extent, taken: Extent)
    requires Cut(before, mid, e, taken) && Space(before - {e}) !! Range(e.addr, e.size)
    requires Space(after) == Space(mid) + Range(taken.addr, taken.size)
    requires Zeroed(after) <= Zeroed(mid + {taken}) && Committed(after) == Committed(mid + {taken})
    ensures FlagsKept(before, after)
  {
    CutFlags(before, mid, e, taken);
    CommittedInside(before);
  }

  lemma WholeAt(cfg: Config, ad: seq<Extent>, szsnad: set<Extent>, total: int, k: nat)
    requires Agree(cfg, ad, szsnad, total) && k < |ad|
    ensures Whole(cfg, ad[k])
  {
    assert Open(0);
    assert ad[k] in szsnad;
  }

  /** The request is a size class, and some extent is as large. */
  ghost predicate Serves(cfg: Config, tree: set<Extent>, size: nat)
  {
    size in cfg.classes && size < WORD && exists e :: e in tree && size <= e.size
  }

  /** Best fit finds an extent that is large enough, if there is one and the size is a size class. */
  lemma FitIsAdequate(cfg: Config, size: nat, e: Extent)
    requires ValidConfig(cfg) && Whole(cfg, e) && cfg.chunksize <= size
    ensures size in cfg.classes && Quantize(cfg.classes, size) <= Quantize(cfg.classes, e.size) ==> size <= e.size
    ensures size <= e.size ==> Quantize(cfg.classes, size) <= Quantize(cfg.classes, e.size)
  {
    QuantizeSpec(cfg.classes, size);
    QuantizeSpec(cfg.classes, e.size);
    if size <= e.size {
      QuantizeMonotone(cfg.classes, size, e.size);
    }
  }

  /** One pool: chunks_szsnad_cached and chunks_ad_cached, or their retained counterparts. */
  class Pool {
    const cfg: Config
    var ad: seq<Extent>
    var szsnad: set<Extent>
    var total: int          // for the cache, what these extents add to the arena's dirty bytes

    ghost predicate Valid()
      reads this
    {
      ValidConfig(cfg) && Agree(cfg, ad, szsnad, total)
    }

    constructor (config: Config)
      requires ValidConfig(config)
      ensures Valid() && szsnad == {} && cfg == config
    {
      cfg := config;
      ad, szsnad, total := [], {}, 0;
    }

    /** extent_tree_ad_nsearch: the position of the first extent at or above an address. */
    method AdNsearch(addr: nat) returns (k: nat)
      ensures k <= |ad|
      ensures forall i :: 0 <= i < k ==> ad[i].addr < addr
      ensures k < |ad| ==> addr <= ad[k].addr
    {
      k := 0;
      while k < |ad| && ad[k].addr < addr
        invariant k <= |ad|
        invariant forall i :: 0 <= i < k ==> ad[i].addr < addr
      {
        k := k + 1;
      }
    }

    /** Take the extents from position `i` up to `j`, of `gone` bytes, out of both trees and put `x` in their place. */
    method Replace(i: nat, j: nat, gone: nat, x: Extent, ghost extra: iset<int>)
      requires Valid() && i <= j <= |ad| && FitsAt(ad, i, j, x) && Whole(cfg, x)
      requires Range(x.addr, x.size) == Space(Elements(ad[i..j])) + extra && gone == Sum(ad[i..j])
      modifies this
      ensures Valid() && ad == Splice(old(ad), i, j, [x])
      ensures szsnad == old(szsnad) - Elements(old(ad)[i..j]) + {x}
      ensures Space(szsnad) == Space(old(szsnad)) + extra
      ensures total == old(total) - gone + x.size
    {
      ReplacedAgree(cfg, ad, szsnad, total, i, j, x);
      ReplacedCovers(cfg, ad, szsnad, total, i, j, x, extra);
      szsnad := szsnad - (set e | e in ad[i..j]) + {x};
      ad := Splice(ad, i, j, [x]);
      total := total - gone + x.size;
    }

    /** The range becomes part of the extent that follows it. */
    method MergeNext(x: Extent, k: nat)
      requires Valid() && Whole(cfg, x) && k < |ad| && ad[k].addr == x.End() && ad[k].committed == x.committed
      requires Whole(cfg, ad[k]) && FitsAt(ad, k, k + 1, Merged(x, ad[k]))
      modifies this
      ensures Valid() && k < |ad| && ad[k].addr == x.addr && ad[k].committed == x.committed
      ensures szsnad == old(szsnad) - {old(ad[k])} + {ad[k]} && MadeOf(ad[k], {x} + {old(ad[k])})
      ensures Space(szsnad) == old(Space(szsnad)) + Range(x.addr, x.size) && total == old(total) + x.size
      ensures old(Coalesced(ad)) ==> CoalescedBut(ad, k)
    {
      var node := ad[k];
      MadeOfTwo(x, node);
      MergedWhole(cfg, x, node);
      MergedCovers(x, node);
      SpaceOne(node);
      SumOne(node);
      assert ad[k..k + 1] == [node] && Elements([node]) == {node};
      if Coalesced(ad) {
        CoalescedForward(ad, k, Merged(x, node));
      }
      Replace(k, k + 1, node.size, Merged(x, node), Range(x.addr, x.size));
    }

    /** The range becomes an extent of its own. */
    method InsertAt(x: Extent, k: nat, nextMergeFails: bool)
      requires Valid() && Whole(cfg, x) && k <= |ad| && FitsAt(ad, k, k, x)
      requires !nextMergeFails && k < |ad| ==> !Touch(x, ad[k])
      modifies this
      ensures Valid() && k < |ad| && ad[k] == x && szsnad == old(szsnad) + {x}
      ensures Space(szsnad) == old(Space(szsnad)) + Range(x.addr, x.size) && total == old(total) + x.size
      ensures old(Coalesced(ad)) && !nextMergeFails ==> CoalescedBut(ad, k)
    {
      assert ad[k..k] == [] && Space(Elements([])) == iset{};
      if Coalesced(ad) && !nextMergeFails {
        CoalescedInsert(ad, k, x);
      }
      Replace(k, k, 0, x, Range(x.addr, x.size));
    }

    /** The first half of chunk_record: merge with the following extent, or insert. */
    method RecordForward(x: Extent, hooks: RecordHooks) returns (recorded: bool, k: nat)
      requires Valid() && Whole(cfg, x) && Range(x.addr, x.size) !! Space(szsnad)
      modifies this
      ensures Valid()
      ensures !recorded ==> ad == old(ad) && szsnad == old(szsnad) && total == old(total)
      ensures recorded <==> !hooks.nodeFails || Partners(old(szsnad), x, hooks.(prevMergeFails := true)) != {}
      ensures recorded ==> Space(szsnad) == old(Space(szsnad)) + Range(x.addr, x.size) && total == old(total) + x.size
      ensures recorded ==> k < |ad| && ad[k].addr == x.addr && ad[k].committed == x.committed
      ensures recorded ==> Recorded(old(szsnad), szsnad, x, hooks.(prevMergeFails := true), ad[k])
      ensures recorded && old(Coalesced(ad)) && !hooks.nextMergeFails ==> CoalescedBut(ad, k)
    {
      k := AdNsearch(x.End());
      RecordPosition(cfg, ad, szsnad, total, x.addr, x.size, k);
      assert Ordered(ad) && szsnad == Elements(ad) by { assert Open(0); }
      OnePartner(ad, x, k, hooks.(prevMergeFails := true));
      if k < |ad| && ad[k].addr == x.End() && ad[k].committed == x.committed && !hooks.nextMergeFails {
        assert FitsAt(ad, k, k + 1, Merged(x, ad[k])) by { assert Open(0); }
        MergeNext(x, k);
      } else {
        if hooks.nodeFails {
          return false, k;
        }
        InsertAt(x, k, hooks.nextMergeFails);
      }
      ForwardRecorded(old(ad), szsnad, x, k, hooks.(prevMergeFails := true), ad[k]);
      recorded := true;
    }

    /** Two neighbours become one extent. */
    method MergePair(k: nat) returns (e: Extent)
      requires Valid() && 0 < k < |ad| && ad[k - 1].End() == ad[k].addr && ad[k - 1].committed == ad[k].committed
      modifies this
      ensures Valid() && Space(szsnad) == old(Space(szsnad)) && total == old(total)
      ensures ad == Splice(old(ad), k - 1, k + 1, [e])
      ensures e.addr == old(ad[k - 1]).addr && e.End() == old(ad[k]).End() && e.committed == old(ad[k]).committed
      ensures MadeOf(e, {old(ad[k - 1])} + {old(ad[k])})
      ensures szsnad == old(szsnad) - {old(ad[k - 1])} - {old(ad[k])} + {e}
    {
      var prev, node := ad[k - 1], ad[k];
      e := Merged(prev, node);
      PairMerges(cfg, ad, szsnad, total, k);
      PairCovers(prev, node);
      MadeOfTwo(prev, node);
      assert Elements([prev, node]) == {prev} + {node};
      Replace(k - 1, k + 1, prev.size + node.size, Merged(prev, node), iset{});
    }

    /** The second half of chunk_record: merge with the preceding extent. */
    method RecordBackward(x: Extent, k: nat, hooks: RecordHooks) returns (e: Extent)
      requires Valid() && k < |ad| && ad[k].addr == x.addr && ad[k].committed == x.committed
      modifies this
      ensures Valid() && Space(szsnad) == old(Space(szsnad)) && total == old(total)
      ensures Recorded(old(szsnad) - {old(ad[k])}, szsnad, old(ad[k]), hooks.(nextMergeFails := true), e)
      ensures old(CoalescedBut(ad, k)) && !hooks.prevMergeFails ==> Coalesced(ad)
    {
      assert Ordered(ad) && szsnad == Elements(ad) by { assert Open(0); }
      if 0 < k && ad[k - 1].End() == x.addr && ad[k - 1].committed == x.committed && !hooks.prevMergeFails {
        e := MergePair(k);
        if CoalescedBut(old(ad), k) {
          CoalescedBackward(old(ad), k, e);
        }
      } else {
        e := ad[k];
      }
      BackwardRecorded(old(ad), szsnad, k, hooks.(nextMergeFails := true), e);
    }

    /** chunk_record: an address range joins the pool; only a failure to get a node can lose it. */
    method Record(x: Extent, hooks: RecordHooks) returns (recorded: bool, ghost e: Extent)
      requires Valid() && Whole(cfg, x) && Range(x.addr, x.size) !! Space(szsnad)
      modifies this
      ensures Valid()
      ensures !recorded ==> ad == old(ad) && szsnad == old(szsnad) && total == old(total)
      ensures recorded <==> !hooks.nodeFails || Partners(old(szsnad), x, hooks.(prevMergeFails := true)) != {}
      ensures recorded ==> Space(szsnad) == old(Space(szsnad)) + Range(x.addr, x.size) && total == old(total) + x.size
      ensures recorded ==> Recorded(old(szsnad), szsnad, x, hooks, e)
      ensures recorded ==>
              Zeroed(szsnad) <= Zeroed(old(szsnad) + {x}) && Committed(szsnad) == Committed(old(szsnad) + {x})
      ensures old(Coalesced(ad)) && !hooks.nextMergeFails && !hooks.prevMergeFails ==> Coalesced(ad)
    {
      var k;
      recorded, k := RecordForward(x, hooks);
      if recorded {
        ghost var mid, node := szsnad, ad[k];
        e := RecordBackward(x, k, hooks);
        RecordedBoth(old(szsnad), mid, szsnad, x, hooks, node, e);
        RecordedFlags(old(szsnad), szsnad, x, hooks, e);
      } else {
        e := x;
      }
    }

    /** Take `size` bytes out of the extent at position `k`, and keep what is before and after them. */
    method Carve(k: nat, lead: nat, size: nat)
      requires Valid() && k < |ad| && 0 < size && lead + size <= ad[k].size
      requires lead % cfg.chunksize == 0 && size % cfg.chunksize == 0
      modifies this
      ensures Valid() && total == old(total) - size
      ensures Cut(old(szsnad), szsnad, old(ad[k]), Part(old(ad[k]), lead, size))
      ensures Space(old(szsnad) - {old(ad[k])}) !! Range(old(ad[k]).addr, old(ad[k]).size)
      ensures old(Coalesced(ad)) ==> Coalesced(ad)
    {
      CarvedAgree(cfg, ad, szsnad, total, k, lead, size);
      CarvedCut(cfg, ad, szsnad, total, k, lead, size);
      if Coalesced(ad) {
        assert Ordered(ad) by { assert Open(0); }
        CarvedCoalesced(ad, k, lead, size);
      }
      var e := ad[k];
      var mid := Pieces(e, lead, size);
      szsnad := szsnad - {e} + (set x | x in mid);
      ad := Splice(ad, k, k + 1, mid);
      total := total - size;
    }

    /** chunk_first_best_fit: the first extent, by size, serial number and address, not before the key. */
    method FirstBestFit(size: nat) returns (found: bool, k: nat)
      requires Valid()
      ensures found ==> k < |ad| && IsFirstFit(cfg.classes, szsnad, size, ad[k])
      ensures !found ==> forall e :: e in szsnad ==> Quantize(cfg.classes, e.size) < Quantize(cfg.classes, size)
    {
      assert Ordered(ad) && szsnad == Elements(ad) by { assert Open(0); }
      found, k := false, 0;
      var i := 0;
      while i < |ad|
        invariant i <= |ad| && (found ==> k < i && Quantize(cfg.classes, size) <= Quantize(cfg.classes, ad[k].size))
        invariant !found ==> forall j :: 0 <= j < i ==> Quantize(cfg.classes, ad[j].size) < Quantize(cfg.classes, size)
        invariant found ==>
              forall j :: 0 <= j < i && j != k && Quantize(cfg.classes, size) <= Quantize(cfg.classes, ad[j].size) ==>
                SzsnadBefore(cfg.classes, ad[k], ad[j])
      {
        if Quantize(cfg.classes, size) <= Quantize(cfg.classes, ad[i].size)
           && (!found || SzsnadBefore(cfg.classes, ad[i], ad[k])) {
          found, k := true, i;
        }
        i := i + 1;
      }
    }

    /** Which extent chunk_recycle works on: the one at the given address, or the first best fit. */
    method Locate(newAddr: Option<nat>, size: nat, allocSize: nat) returns (found: bool, k: nat)
      requires Valid() && cfg.chunksize <= size <= allocSize
      ensures found ==> k < |ad| && Chosen(cfg, szsnad, newAddr, size, allocSize, ad[k])
      ensures !found ==> forall e :: e in szsnad ==> !Chosen(cfg, szsnad, newAddr, size, allocSize, e)
      ensures !found && newAddr.None? ==> forall e :: e in szsnad ==> e.size < allocSize
    {
      assert Ordered(ad) && szsnad == Elements(ad) by { assert Open(0); }
      if newAddr.Some? {
        k := AdNsearch(newAddr.value);
        found := k < |ad| && ad[k].addr == newAddr.value && size <= ad[k].size;
      } else {
        found, k := FirstBestFit(allocSize);
        if !found {
          forall e | e in szsnad
            ensures e.size < allocSize
          {
            assert Whole(cfg, e) by { assert Open(0); }
            FitIsAdequate(cfg, allocSize, e);
          }
        }
      }
    }

    /** The part of chunk_recycle after an adequate extent is found, up to where chunks_mtx is dropped.  When it gives
        up, `pending` is what has been taken out of the pool and is to be recorded again. */
    method TakeOut(k: nat, lead: nat, size: nat, hooks: RecycleHooks) returns (r: Recycled, pending: Option<Extent>)
      requires Valid() && k < |ad| && 0 < size && lead + size <= ad[k].size
      requires lead % cfg.chunksize == 0 && size % cfg.chunksize == 0
      modifies this
      ensures Valid() && !r.Broken? && (pending.Some? ==> r.NoExtent?)
      ensures r.Got? ==> r.addr == old(ad[k]).addr + lead && total == old(total) - size && (cfg.cache ==> !r.zeroed)
      ensures r.Got? ==> Cut(old(szsnad), szsnad, old(ad[k]), Handed(r, size))
      ensures r.NoExtent? && pending.None? ==> ad == old(ad) && szsnad == old(szsnad) && total == old(total)
      ensures pending.Some? ==>
                var x := pending.value;
                && Whole(cfg, x) && total == old(total) - x.size
                && Cut(old(szsnad), szsnad, old(ad[k]), x)
      ensures r.Got? || pending.Some? ==> Space(old(szsnad) - {old(ad[k])}) !! Range(old(ad[k]).addr, old(ad[k]).size)
      ensures old(Coalesced(ad)) ==> Coalesced(ad)
      ensures r.Got? <==> !HooksRefuse(old(ad[k]), lead, size, hooks)
    {
      var e := ad[k];
      WholeAt(cfg, ad, szsnad, total, k);
      SumMod(e.addr, lead, cfg.chunksize);
      var trail := e.size - lead - size;
      if lead != 0 && hooks.leadSplitFails {
        return NoExtent, None;
      }
      if trail != 0 && (hooks.trailSplitFails || (lead != 0 && hooks.nodeFails)) {
        var x := Extent(e.addr + lead, size + trail, e.sn, e.zeroed, e.committed);
        DifferenceMod(e.size, lead, cfg.chunksize);
        StepOfMultiple(x.size, cfg.chunksize);
        Carve(k, lead, size + trail);
        return NoExtent, Some(x);
      }
      Carve(k, lead, size);
      if !e.committed && hooks.commitFails {
        StepOfMultiple(size, cfg.chunksize);
        return NoExtent, Some(Extent(e.addr + lead, size, e.sn, e.zeroed, e.committed));
      }
      return Got(e.addr + lead, e.sn, e.zeroed, e.committed), None;
    }

    /** The same with the undo.  Other threads may come between the two steps: the pending range is not in the pool, and
        not theirs. */
    method TakeFrom(k: nat, lead: nat, size: nat, hooks: RecycleHooks) returns (r: Recycled, ghost lost: iset<int>)
      requires Valid() && k < |ad| && 0 < size && lead + size <= ad[k].size
      requires lead % cfg.chunksize == 0 && size % cfg.chunksize == 0
      modifies this
      ensures Valid() && !r.Broken?
      ensures r.Got? ==> r.addr == old(ad[k]).addr + lead && total == old(total) - size && (cfg.cache ==> !r.zeroed)
      ensures r.Got? ==> Cut(old(szsnad), szsnad, old(ad[k]), Handed(r, size))
      ensures r.Got? && r.zeroed ==> Range(r.addr, size) <= Zeroed(old(szsnad))
      ensures FlagsKept(old(szsnad), szsnad)
      ensures r.NoExtent? ==> Space(old(szsnad)) == Space(szsnad) + lost && Space(szsnad) !! lost
      ensures r.NoExtent? && !hooks.undo.nodeFails ==> lost == iset{} && total == old(total)
      ensures old(Coalesced(ad)) && !hooks.undo.nextMergeFails && !hooks.undo.prevMergeFails ==> Coalesced(ad)
      ensures r.Got? <==> !HooksRefuse(old(ad[k]), lead, size, hooks)
    {
      lost := iset{};
      var pending;
      ghost var e := ad[k];
      r, pending := TakeOut(k, lead, size, hooks);
      ghost var mid := szsnad;
      if pending.Some? {
        CutFlags(old(szsnad), mid, e, pending.value);
        var recorded, _ := Record(pending.value, hooks.undo);
        if recorded {
          FlagsRestored(old(szsnad), mid, szsnad, e, pending.value);
        } else {
          lost := Range(pending.value.addr, pending.value.size);
        }
      } else if r.Got? {
        CutFlags(old(szsnad), mid, e, Handed(r, size));
      } else {
        CommittedInside(szsnad);
      }
    }

    /** chunk_recycle, once an extent is chosen: its assertion fails exactly if the extent is too small. */
    method RecycleAt(k: nat, size: nat, alignment: nat, hooks: RecycleHooks)
      returns (r: Recycled, ghost lost: iset<int>)
      requires Valid() && k < |ad| && 0 < size && size % cfg.chunksize == 0
      requires 0 < alignment && alignment % cfg.chunksize == 0
      modifies this
      ensures Valid()
      ensures r.Got? ==> r.addr % alignment == 0 && r.addr == old(ad[k]).addr + Lead(old(ad[k]).addr, alignment)
      ensures r.Got? ==> total == old(total) - size && (cfg.cache ==> !r.zeroed)
      ensures r.Got? ==> Cut(old(szsnad), szsnad, old(ad[k]), Handed(r, size))
      ensures r.Got? && r.zeroed ==> Range(r.addr, size) <= Zeroed(old(szsnad))
      ensures FlagsKept(old(szsnad), szsnad)
      ensures !r.Got? ==> Space(old(szsnad)) == Space(szsnad) + lost && Space(szsnad) !! lost
      ensures !r.Got? && !hooks.undo.nodeFails ==> lost == iset{} && total == old(total)
      ensures old(Coalesced(ad)) && !hooks.undo.nextMergeFails && !hooks.undo.prevMergeFails ==> Coalesced(ad)
      ensures r.Broken? <==> TooSmall(old(ad[k]), size, alignment)
      ensures r.Got? <==> !r.Broken? && !HooksRefuse(old(ad[k]), Lead(old(ad[k]).addr, alignment), size, hooks)
    {
      WholeAt(cfg, ad, szsnad, total, k);
      var lead := Lead(ad[k].addr, alignment);
      LeadWhole(ad[k].addr, alignment, cfg.chunksize);
      if ad[k].size < lead + size {
        CommittedInside(szsnad);
        return Broken, iset{};
      }
      r, lost := TakeFrom(k, lead, size, hooks);
    }

    /** The search of chunk_recycle; the size that it looks for may wrap around. */
    method Search(newAddr: Option<nat>, size: nat, alignment: nat) returns (found: bool, k: nat)
      requires Valid() && 0 < size && size % cfg.chunksize == 0 && 0 < alignment && alignment % cfg.chunksize == 0
      ensures cfg.chunksize <= alignment
      ensures found ==> k < |ad| && OnlyCandidate(cfg, szsnad, newAddr, size, alignment, ad[k])
      ensures !found ==> NoCandidate(cfg, szsnad, newAddr, size, alignment)
      ensures newAddr.None? && Serves(cfg, szsnad, size + alignment - cfg.chunksize) ==> found
    {
      StepOfMultiple(alignment, cfg.chunksize);
      StepOfMultiple(size, cfg.chunksize);
      var allocSize := (size + alignment - cfg.chunksize) % WORD;
      found, k := false, 0;
      if size <= allocSize {
        found, k := Locate(newAddr, size, allocSize);
        if found {
          OneCandidate(cfg, ad, szsnad, total, newAddr, size, alignment, k);
        } else {
          NoneChosen(cfg, szsnad, newAddr, size, alignment);
          if newAddr.None? {
            NoneServes(cfg, szsnad, size, alignment);
          }
        }
      } else {
        TooLarge(cfg, szsnad, newAddr, size, alignment);
        TooLargeServes(cfg, szsnad, size, alignment);
      }
    }

    /** chunk_recycle. */
    method Recycle(newAddr: Option<nat>, size: nat, alignment: nat, hooks: RecycleHooks)
      returns (r: Recycled, ghost lost: iset<int>, ghost e: Option<Extent>)
      requires Valid() && 0 < size < WORD && size % cfg.chunksize == 0
      requires cfg.chunksize <= alignment < WORD && alignment % cfg.chunksize == 0
      requires newAddr.Some? ==> alignment == cfg.chunksize
      modifies this
      ensures Valid()
      ensures r.Got? ==> r.addr % alignment == 0 && (newAddr.Some? ==> r.addr == newAddr.value)
      ensures r.Got? ==> total == old(total) - size && (cfg.cache ==> !r.zeroed)
      ensures e.None? <==> NoCandidate(cfg, old(szsnad), newAddr, size, alignment)
      ensures e.Some? ==> OnlyCandidate(cfg, old(szsnad), newAddr, size, alignment, e.value)
      ensures r.Got? <==> e.Some? && !TooSmall(e.value, size, alignment)
                          && !HooksRefuse(e.value, Lead(e.value.addr, alignment), size, hooks)
      ensures r.Got? ==> Cut(old(szsnad), szsnad, e.value, Handed(r, size))
      ensures r.Got? ==> r.addr == e.value.addr + Lead(e.value.addr, alignment)
      ensures r.Got? && r.zeroed ==> Range(r.addr, size) <= Zeroed(old(szsnad))
      ensures FlagsKept(old(szsnad), szsnad)
      ensures !r.Got? ==> Space(old(szsnad)) == Space(szsnad) + lost && Space(szsnad) !! lost
      ensures !r.Got? && !hooks.undo.nodeFails ==> lost == iset{} && total == old(total)
      ensures old(Coalesced(ad)) && !hooks.undo.nextMergeFails && !hooks.undo.prevMergeFails ==> Coalesced(ad)
      ensures r.Broken? <==> Breaks(cfg, old(szsnad), newAddr, size, alignment)
      ensures hooks.Agreeable() ==> (r.NoExtent? <==> NoCandidate(cfg, old(szsnad), newAddr, size, alignment))
      ensures r.Broken? ==> newAddr.None? && size + alignment - cfg.chunksize !in cfg.classes
      ensures newAddr.None? && hooks.Agreeable() && Serves(cfg, old(szsnad), size + alignment - cfg.chunksize) ==>
              r.Got?
    {
      var found, k := Search(newAddr, size, alignment);
      if !found {
        NoneBreaks(cfg, szsnad, newAddr, size, alignment);
        CommittedInside(szsnad);
        return NoExtent, iset{}, None;
      }
      OnlyBreaks(cfg, szsnad, newAddr, size, alignment, ad[k]);
      AtAddress(cfg, ad, szsnad, total, k);
      ClassFits(cfg, ad, szsnad, total, newAddr, size, alignment, k);
      e := Some(ad[k]);
      r, lost := RecycleAt(k, size, alignment, hooks);
    }
  }

  /** The extent does not hold `size` aligned bytes. */
  predicate TooSmall(e: Extent, size: nat, alignment: nat)
    requires 0 < alignment
  {
    e.size < Lead(e.addr, alignment) + size
  }

  /** The chosen extent is too small, and the assertion of chunk_recycle fails. */
  ghost predicate Breaks(cfg: Config, tree: set<Extent>, newAddr: Option<nat>, size: nat, alignment: nat)
    requires |cfg.classes| > 0 && 0 < cfg.chunksize <= alignment
  {
    exists e :: Candidate(cfg, tree, newAddr, size, alignment, e) && TooSmall(e, size, alignment)
  }

  ghost predicate NoCandidate(cfg: Config, tree: set<Extent>, newAddr: Option<nat>, size: nat, alignment: nat)
    requires |cfg.classes| > 0 && cfg.chunksize <= alignment
  {
    forall e :: !Candidate(cfg, tree, newAddr, size, alignment, e)
  }

  ghost predicate OnlyCandidate(cfg: Config, tree: set<Extent>, newAddr: Option<nat>, size: nat, alignment: nat,
                                e: Extent)
    requires |cfg.classes| > 0 && cfg.chunksize <= alignment
  {
    && Candidate(cfg, tree, newAddr, size, alignment, e)
    && forall x :: Candidate(cfg, tree, newAddr, size, alignment, x) ==> x == e
  }

  lemma NoneChosen(cfg: Config, tree: set<Extent>, newAddr: Option<nat>, size: nat, alignment: nat)
    requires |cfg.classes| > 0 && cfg.chunksize <= alignment
    requires var allocSize := (size + alignment - cfg.chunksize) % WORD;
             forall e :: e in tree ==> !Chosen(cfg, tree, newAddr, size, allocSize, e)
    ensures NoCandidate(cfg, tree, newAddr, size, alignment)
  {
  }

  lemma TooLarge(cfg: Config, tree: set<Extent>, newAddr: Option<nat>, size: nat, alignment: nat)
    requires |cfg.classes| > 0 && cfg.chunksize <= alignment && (size + alignment - cfg.chunksize) % WORD < size
    ensures NoCandidate(cfg, tree, newAddr, size, alignment)
  {
  }

  lemma NoneServes(cfg: Config, tree: set<Extent>, size: nat, alignment: nat)
    requires 0 < cfg.chunksize <= alignment
    requires forall e :: e in tree ==> e.size < (size + alignment - cfg.chunksize) % WORD
    ensures !Serves(cfg, tree, size + alignment - cfg.chunksize)
  {
  }

  lemma TooLargeServes(cfg: Config, tree: set<Extent>, size: nat, alignment: nat)
    requires 0 < cfg.chunksize <= alignment && (size + alignment - cfg.chunksize) % WORD < size
    ensures !Serves(cfg, tree, size + alignment - cfg.chunksize)
  {
  }

  lemma NoneBreaks(cfg: Config, tree: set<Extent>, newAddr: Option<nat>, size: nat, alignment: nat)
    requires |cfg.classes| > 0 && 0 < cfg.chunksize <= alignment && NoCandidate(cfg, tree, newAddr, size, alignment)
    ensures !Breaks(cfg, tree, newAddr, size, alignment)
  {
  }

  lemma OnlyBreaks(cfg: Config, tree: set<Extent>, newAddr: Option<nat>, size: nat, alignment: nat, e: Extent)
    requires |cfg.classes| > 0 && 0 < cfg.chunksize <= alignment
             && OnlyCandidate(cfg, tree, newAddr, size, alignment, e)
    ensures Breaks(cfg, tree, newAddr, size, alignment) <==> TooSmall(e, size, alignment)
    ensures !NoCandidate(cfg, tree, newAddr, size, alignment)
    ensures newAddr.Some? ==> e.addr == newAddr.value
  {
  }

  /** The extent at the given address, or the first best fit. */
  ghost predicate Chosen(cfg: Config, tree: set<Extent>, newAddr: Option<nat>, size: nat, allocSize: nat, e: Extent)
    requires |cfg.classes| > 0
  {
    if newAddr.Some? then e in tree && e.addr == newAddr.value && size <= e.size
    else IsFirstFit(cfg.classes, tree, allocSize, e)
  }

  /** The extent that chunk_recycle works on: the size it looks for must not wrap around. */
  ghost predicate Candidate(cfg: Config, tree: set<Extent>, newAddr: Option<nat>, size: nat, alignment: nat, e: Extent)
    requires |cfg.classes| > 0 && cfg.chunksize <= alignment
  {
    var allocSize := (size + alignment - cfg.chunksize) % WORD;
    size <= allocSize && Chosen(cfg, tree, newAddr, size, allocSize, e)
  }

  lemma OneCandidate(cfg: Config, ad: seq<Extent>, szsnad: set<Extent>, total: int, newAddr: Option<nat>, size: nat,
                     alignment: nat, k: nat)
    requires ValidConfig(cfg) && Agree(cfg, ad, szsnad, total) && k < |ad| && cfg.chunksize <= alignment
    requires Candidate(cfg, szsnad, newAddr, size, alignment, ad[k])
    ensures OnlyCandidate(cfg, szsnad, newAddr, size, alignment, ad[k])
  {
    assert Ordered(ad) && szsnad == Elements(ad) by { assert Open(0); }
    forall e | Candidate(cfg, szsnad, newAddr, size, alignment, e)
      ensures e == ad[k]
    {
      var i :| 0 <= i < |ad| && ad[i] == e;
      if newAddr.Some? {
        assert i == k by { SameAddress(ad, i, k); }
      }
    }
  }

  lemma SameAddress(ad: seq<Extent>, i: nat, k: nat)
    requires Ordered(ad) && i < |ad| && k < |ad| && ad[i].addr == ad[k].addr
    ensures i == k
  {
  }

  /** Only a request that is not a size class gets an extent that is too small. */
  lemma ClassFits(cfg: Config, ad: seq<Extent>, szsnad: set<Extent>, total: int, newAddr: Option<nat>, size: nat,
                  alignment: nat, k: nat)
    requires ValidConfig(cfg) && Agree(cfg, ad, szsnad, total) && k < |ad|
    requires 0 < size < WORD && size % cfg.chunksize == 0 && cfg.chunksize <= alignment < WORD
             && alignment % cfg.chunksize == 0
    requires newAddr.Some? ==> alignment == cfg.chunksize
    requires Candidate(cfg, szsnad, newAddr, size, alignment, ad[k])
    ensures TooSmall(ad[k], size, alignment) ==> newAddr.None? && size + alignment - cfg.chunksize !in cfg.classes
  {
    var allocSize := (size + alignment - cfg.chunksize) % WORD;
    WholeAt(cfg, ad, szsnad, total, k);
    AtAddress(cfg, ad, szsnad, total, k);
    LeadWhole(ad[k].addr, alignment, cfg.chunksize);
    NoWrap(size, alignment, cfg.chunksize);
    StepOfMultiple(size, cfg.chunksize);
    FitIsAdequate(cfg, allocSize, ad[k]);
  }

  lemma NoWrap(size: nat, alignment: nat, chunksize: nat)
    requires 0 < size < WORD && 0 < chunksize <= alignment < WORD && size <= (size + alignment - chunksize) % WORD
    ensures (size + alignment - chunksize) % WORD == size + alignment - chunksize
  {
  }

  /** An extent at a multiple of the chunk size needs no lead for that alignment. */
  lemma AtAddress(cfg: Config, ad: seq<Extent>, szsnad: set<Extent>, total: int, k: nat)
    requires ValidConfig(cfg) && Agree(cfg, ad, szsnad, total) && k < |ad|
    ensures Lead(ad[k].addr, cfg.chunksize) == 0
  {
    WholeAt(cfg, ad, szsnad, total, k);
  }
}
