/** The cuckoo hash table of ckh.c: two candidate buckets per key, insertion by eviction and relocation,
    and growing and shrinking by rebuilding into a fresh table.

    Keys are modelled up to the table's key comparison, so two keys are equal exactly when keycomp says so.
    The pseudo-random generator is a stream of draws and a position in it.  The eviction loop of the source
    has no bound of its own: `fuel` is how many evictions one call may make, and running out of it is the
    separate outcome `Running`, which still says what the table and the item in hand are at that point.
 */
module Ckh {
  import opened Basics
  import opened Arith

  const LG_BUCKET_CELLS := 2
  const BUCKET_CELLS := 4

  datatype Item = Item(key: int, data: int)
  datatype Cell = Empty | Full(item: Item)

  /** The two hash functions. */
  datatype Hash = Hash(h0: int -> nat, h1: int -> nat)

  /** The random draws still to come, each reduced to a cell number. */
  datatype Draws = Draws(stream: nat -> nat, pos: nat)
  {
    function Head(): (r: nat)
      ensures r < BUCKET_CELLS
    {
      stream(pos) % BUCKET_CELLS
    }

    function Tail(): Draws
    {
      Draws(stream, pos + 1)
    }
  }

  datatype Attempt =
    | Placed                              // the item is in the table
    | Cycle(item: Item)                   // an eviction cycle: this item is left over
    | Running(item: Item, bucket: nat)    // still evicting: this item is in hand, bound for this bucket

  function Bucket0(h: Hash, lg: nat, key: int): (b: nat)
    ensures b < Pow2(lg)
  {
    h.h0(key) % Pow2(lg)
  }

  function Bucket1(h: Hash, lg: nat, key: int): (b: nat)
    ensures b < Pow2(lg)
  {
    h.h1(key) % Pow2(lg)
  }

  predicate Belongs(h: Hash, lg: nat, key: int, b: nat)
  {
    b == Bucket0(h, lg, key) || b == Bucket1(h, lg, key)
  }

  // ---------------------------------------------------------------- what a table holds

  /** The occupied cells, with their multiplicity. */
  ghost function Items(s: seq<Cell>): multiset<Cell>
  {
    multiset(s)[Empty := 0]
  }

  /** Every stored key is in one of its two buckets. */
  ghost predicate Housed(h: Hash, lg: nat, s: seq<Cell>)
  {
    forall i {:trigger s[i]} :: 0 <= i < |s| && s[i].Full? ==> Belongs(h, lg, s[i].item.key, i / BUCKET_CELLS)
  }

  /** No key occurs twice. */
  ghost predicate Distinct(ms: multiset<Cell>)
  {
    forall a, b {:trigger ms[Full(a)], ms[Full(b)]} ::
      Full(a) in ms && Full(b) in ms && a.key == b.key ==> a == b && ms[Full(a)] == 1
  }

  lemma ItemsUpdate(s: seq<Cell>, i: nat, c: Cell)
    requires i < |s|
    ensures Items(s[i := c]) + Items([s[i]]) == Items(s) + Items([c])
  {
    assert multiset(s[i := c]) == multiset(s) - multiset{s[i]} + multiset{c};
  }

  lemma KeysApart(s: seq<Cell>, i: nat, j: nat)
    requires Distinct(Items(s)) && i < j < |s| && s[i].Full? && s[j].Full?
    ensures s[i].item.key != s[j].item.key
  {
    assert s == s[..j] + [s[j]] + s[j + 1..];
    assert multiset(s) == multiset(s[..j]) + multiset{s[j]} + multiset(s[j + 1..]);
    assert s[..j][i] == s[i];
    assert Items(s)[Full(s[i].item)] >= 1 && Items(s)[Full(s[j].item)] >= 1;
  }

  lemma {:induction false} ItemsNone(s: seq<Cell>)
    requires forall i :: 0 <= i < |s| ==> s[i] == Empty
    ensures Items(s) == multiset{}
  {
    forall c | c in multiset(s) ensures c == Empty { assert c in s; }
  }

  // ---------------------------------------------------------------- one bucket

  /** ckh_bucket_search. */
  method BucketSearch(tab: array<Cell>, bucket: nat, key: int) returns (found: bool, cell: nat)
    requires BUCKET_CELLS * bucket + BUCKET_CELLS <= tab.Length
    ensures found ==> cell < tab.Length && cell / BUCKET_CELLS == bucket && tab[cell].Full? && tab[cell].item.key == key
    ensures !found ==> forall i :: BUCKET_CELLS * bucket <= i < BUCKET_CELLS * bucket + BUCKET_CELLS && tab[i].Full? ==>
                                     tab[i].item.key != key
  {
    var i := 0;
    while i < BUCKET_CELLS
      invariant 0 <= i <= BUCKET_CELLS
      invariant forall j :: BUCKET_CELLS * bucket <= j < BUCKET_CELLS * bucket + i && tab[j].Full? ==>
                tab[j].item.key != key
    {
      cell := BUCKET_CELLS * bucket + i;
      if tab[cell].Full? && tab[cell].item.key == key {
        return true, cell;
      }
      i := i + 1;
    }
    return false, 0;
  }

  ghost predicate BucketFull(s: seq<Cell>, bucket: nat)
    requires BUCKET_CELLS * bucket + BUCKET_CELLS <= |s|
  {
    forall i :: BUCKET_CELLS * bucket <= i < BUCKET_CELLS * bucket + BUCKET_CELLS ==> s[i].Full?
  }

  /** The item went into an empty cell of the bucket and nothing else changed. */
  ghost predicate PutIn(s: seq<Cell>, s': seq<Cell>, bucket: nat, item: Item)
  {
    exists c :: 0 <= c < |s| && c / BUCKET_CELLS == bucket && s[c] == Empty && s' == s[c := Full(item)]
  }

  /** The i-th cell of a bucket, counting round from `offset`. */
  function CellAt(bucket: nat, i: nat, offset: nat): (c: nat)
    ensures BUCKET_CELLS * bucket <= c < BUCKET_CELLS * bucket + BUCKET_CELLS
    ensures c / BUCKET_CELLS == bucket
  {
    BUCKET_CELLS * bucket + (i + offset) % BUCKET_CELLS
  }

  /** ckh_try_bucket_insert.  `count` is the table's count field, which goes in and comes out. */
  method TryBucketInsert(tab: array<Cell>, count: int, bucket: nat, item: Item, draws: Draws)
    returns (failed: bool, count': int, draws': Draws)
    requires BUCKET_CELLS * bucket + BUCKET_CELLS <= tab.Length
    modifies tab
    ensures draws' == draws.Tail()
    ensures failed ==> tab[..] == old(tab[..]) && BucketFull(tab[..], bucket) && count' == count
    ensures !failed ==> PutIn(old(tab[..]), tab[..], bucket, item) && count' == count + 1
    ensures old(tab[CellAt(bucket, 0, draws.Head())]).Empty? ==>
              !failed && tab[..] == old(tab[..])[CellAt(bucket, 0, draws.Head()) := Full(item)]
  {
    var offset := draws.Head();
    draws' := draws.Tail();
    var i := 0;
    while i < BUCKET_CELLS
      invariant 0 <= i <= BUCKET_CELLS
      invariant tab[..] == old(tab[..])
      invariant forall j :: 0 <= j < i ==> tab[CellAt(bucket, j, offset)].Full?
      invariant i > 0 ==> tab[CellAt(bucket, 0, offset)].Full?
    {
      var cell := CellAt(bucket, i, offset);
      if tab[cell].Empty? {
        tab[cell] := Full(item);
        assert tab[..] == old(tab[..])[cell := Full(item)];
        return false, count + 1, draws';
      }
      i := i + 1;
    }
    forall k | BUCKET_CELLS * bucket <= k < BUCKET_CELLS * bucket + BUCKET_CELLS
      ensures tab[k].Full?
    {
      assert exists j :: 0 <= j < BUCKET_CELLS && CellAt(bucket, j, offset) == k by {
        assert CellAt(bucket, (k - BUCKET_CELLS * bucket + BUCKET_CELLS - offset) % BUCKET_CELLS, offset) == k;
      }
    }
    return true, count, draws';
  }

  // ---------------------------------------------------------------- eviction and relocation

  predicate TwoHomes(h: Hash, lg: nat, key: int)
  {
    Bucket0(h, lg, key) != Bucket1(h, lg, key)
  }

  /** Some item that can leave the bucket is in it, or about to be swapped into it. */
  ghost predicate Escapable(h: Hash, lg: nat, s: seq<Cell>, bucket: nat, item: Item)
    requires BUCKET_CELLS * bucket + BUCKET_CELLS <= |s|
  {
    || TwoHomes(h, lg, item.key)
    || exists c :: BUCKET_CELLS * bucket <= c < BUCKET_CELLS * bucket + BUCKET_CELLS && s[c].Full?
                   && TwoHomes(h, lg, s[c].item.key)
  }

  /** A full bucket that no item can leave. */
  ghost predicate Locked(h: Hash, lg: nat, s: seq<Cell>, bucket: nat)
    requires BUCKET_CELLS * bucket + BUCKET_CELLS <= |s|
  {
    forall c :: BUCKET_CELLS * bucket <= c < BUCKET_CELLS * bucket + BUCKET_CELLS ==>
      s[c].Full? && !TwoHomes(h, lg, s[c].item.key)
  }

  /** The item has only one home, and it is locked. */
  ghost predicate Trapped(h: Hash, lg: nat, s: seq<Cell>, item: Item)
    requires |s| == BUCKET_CELLS * Pow2(lg)
  {
    !TwoHomes(h, lg, item.key) && Locked(h, lg, s, Bucket0(h, lg, item.key))
  }

  /** In a table of one bucket every item is, if that is full. */
  lemma TrappedSingle(h: Hash, s: seq<Cell>, item: Item)
    requires |s| == BUCKET_CELLS && BucketFull(s, 0)
    ensures Trapped(h, 0, s, item)
  {
    assert Pow2(0) == 1;
  }

  /** A mark that lets a proof look inside the predicates that carry it; elsewhere each is kept as one fact. */
  ghost predicate Looking(key: int)
  {
    true
  }

  /** What ckh_try_insert does to a trapped item: it takes the place that is drawn, and what was there is left over. */
  ghost predicate Evicts(h: Hash, lg: nat, s: seq<Cell>, u: seq<Cell>, item: Item, draws: Draws, t: Attempt)
  {
    forall key {:trigger Looking(key)} :: Looking(key) ==>
      var place := BUCKET_CELLS * Bucket0(h, lg, item.key) + draws.Tail().Tail().Head();
      place < |s| == |u| && t.Cycle? && s[place] == Full(t.item) && u[place] == Full(item)
  }

  /** What the table holds, and what is left over, after an attempt to add to `before`. */
  ghost predicate Conserved(before: multiset<Cell>, s: seq<Cell>, item: Item, r: Attempt)
  {
    if r.Placed? then Items(s) == before + multiset{Full(item)}
    else Items(s) + multiset{Full(r.item)} == before + multiset{Full(item)}
  }

  lemma HousedUpdate(h: Hash, lg: nat, s: seq<Cell>, c: nat, item: Item)
    requires Housed(h, lg, s) && c < |s| && Belongs(h, lg, item.key, c / BUCKET_CELLS)
    ensures Housed(h, lg, s[c := Full(item)])
  {
  }

  lemma PutInItems(h: Hash, lg: nat, s: seq<Cell>, s': seq<Cell>, bucket: nat, item: Item)
    requires PutIn(s, s', bucket, item)
    ensures Items(s') == Items(s) + multiset{Full(item)}
    ensures Housed(h, lg, s) && Belongs(h, lg, item.key, bucket) ==> Housed(h, lg, s')
  {
    var c :| 0 <= c < |s| && c / BUCKET_CELLS == bucket && s[c] == Empty && s' == s[c := Full(item)];
    ItemsUpdate(s, c, Full(item));
    assert Items([Empty]) == multiset{} && Items([Full(item)]) == multiset{Full(item)};
  }

  /** The bucket an evicted item goes to: its other one, if it has two. */
  function OtherBucket(h: Hash, lg: nat, key: int, bucket: nat): (b: nat)
    ensures b < Pow2(lg) && Belongs(h, lg, key, b)
    ensures Belongs(h, lg, key, bucket) ==> (b != bucket <==> TwoHomes(h, lg, key))
  {
    if Bucket1(h, lg, key) == bucket then Bucket0(h, lg, key) else Bucket1(h, lg, key)
  }

  lemma Swapped(s: seq<Cell>, c: nat, item: Item)
    requires c < |s| && s[c].Full?
    ensures Items(s[c := Full(item)]) + multiset{Full(s[c].item)} == Items(s) + multiset{Full(item)}
  {
    ItemsUpdate(s, c, Full(item));
    assert Items([s[c]]) == multiset{Full(s[c].item)} && Items([Full(item)]) == multiset{Full(item)};
  }

  /** Evicting from a bucket that can be left leads to a bucket that can be left. */
  lemma EscapableKept(h: Hash, lg: nat, s: seq<Cell>, bucket: nat, c: nat, item: Item)
    requires BUCKET_CELLS * bucket <= c < BUCKET_CELLS * bucket + BUCKET_CELLS <= |s| == BUCKET_CELLS * Pow2(lg)
    requires s[c].Full? && Belongs(h, lg, s[c].item.key, bucket)
    requires Escapable(h, lg, s, bucket, item)
    ensures Escapable(h, lg, s[c := Full(item)], OtherBucket(h, lg, s[c].item.key, bucket), s[c].item)
  {
    var s' := s[c := Full(item)];
    if !TwoHomes(h, lg, s[c].item.key) {
      if TwoHomes(h, lg, item.key) {
        assert s'[c].Full? && TwoHomes(h, lg, s'[c].item.key);
      } else {
        var d :| BUCKET_CELLS * bucket <= d < BUCKET_CELLS * bucket + BUCKET_CELLS && s[d].Full?
                 && TwoHomes(h, lg, s[d].item.key);
        assert s'[d] == s[d];
      }
    }
  }

  /** One eviction: the item takes the place of the one in cell `c`. */
  method Evict(h: Hash, lg: nat, tab: array<Cell>, bucket: nat, c: nat, item: Item) returns (evicted: Item)
    requires BUCKET_CELLS * bucket <= c < BUCKET_CELLS * bucket + BUCKET_CELLS <= tab.Length
    requires Housed(h, lg, tab[..]) && Belongs(h, lg, item.key, bucket) && BucketFull(tab[..], bucket)
    modifies tab
    ensures old(tab[c]) == Full(evicted) && tab[..] == old(tab[..])[c := Full(item)]
    ensures Housed(h, lg, tab[..]) && Belongs(h, lg, evicted.key, bucket)
    ensures Items(tab[..]) + multiset{Full(evicted)} == Items(old(tab[..])) + multiset{Full(item)}
  {
    assert c / BUCKET_CELLS == bucket;
    assert tab[c].Full?;
    evicted := tab[c].item;
    HousedUpdate(h, lg, tab[..], c, item);
    Swapped(tab[..], c, item);
    tab[c] := Full(item);
    assert tab[..] == old(tab[..])[c := Full(item)];
  }

  /** The count field after an attempt. */
  function CountAfter(count: int, r: Attempt): int
  {
    if r.Placed? then count + 1 else count
  }

  /** A full cell stays as it is when an item goes into an empty one. */
  lemma PutInKeeps(s: seq<Cell>, s': seq<Cell>, bucket: nat, item: Item, place: nat)
    requires PutIn(s, s', bucket, item) && place < |s| && s[place].Full?
    ensures place < |s'| && s'[place] == s[place]
  {
  }

  /** The evicted item has two homes if it leaves the bucket. */
  lemma EvictedEscapes(h: Hash, lg: nat, s: seq<Cell>, from: nat, bucket: nat, item: Item)
    requires BUCKET_CELLS * bucket + BUCKET_CELLS <= |s|
    requires Belongs(h, lg, item.key, from) && Belongs(h, lg, item.key, bucket) && bucket != from
    ensures Escapable(h, lg, s, bucket, item)
  {
  }

  /** The k-th draw from here, as a cell of a bucket. */
  function DrawnCell(draws: Draws, k: nat, bucket: nat): (c: nat)
    ensures BUCKET_CELLS * bucket <= c < BUCKET_CELLS * bucket + BUCKET_CELLS
  {
    BUCKET_CELLS * bucket + draws.stream(draws.pos + k) % BUCKET_CELLS
  }

  /** The table, and the item in hand that is bound for a bucket. */
  datatype Hop = Hop(s: seq<Cell>, bucket: nat, item: Item)

  /** What one turn comes to.  The item takes cell `c`; the one that was there goes to its other home, unless that is
      `argbucket`, which is a cycle, or full, in which case it is the next to be swapped in. */
  ghost predicate Turn(h: Hash, lg: nat, argbucket: nat, hop: Hop, c: nat, u: seq<Cell>, r: Attempt)
  {
    forall key {:trigger Turning(key)} :: Turning(key) ==> TurnIs(h, lg, argbucket, hop, c, u, r)
  }

  /** A mark that lets a proof look inside `Turn`, and another for `Tried`. */
  ghost predicate Turning(key: int)
  {
    true
  }

  ghost predicate Trying(key: int)
  {
    true
  }

  ghost predicate TurnIs(h: Hash, lg: nat, argbucket: nat, hop: Hop, c: nat, u: seq<Cell>, r: Attempt)
  {
    && |hop.s| == BUCKET_CELLS * Pow2(lg) && c < |hop.s| && hop.s[c].Full?
    && var e, mid := hop.s[c].item, hop.s[c := Full(hop.item)];
       var home := OtherBucket(h, lg, e.key, hop.bucket);
       match r
       case Cycle(x) => x == e && home == argbucket && u == mid
       case Placed => home != argbucket && PutIn(mid, u, home, e)
       case Running(x, b) => x == e && b == home != argbucket && BucketFull(mid, home) && u == mid
  }

  /** So exactly the homes of the evicted item decide. */
  lemma TurnDecides(h: Hash, lg: nat, argbucket: nat, hop: Hop, c: nat, u: seq<Cell>, r: Attempt)
    requires Turn(h, lg, argbucket, hop, c, u, r)
    ensures |hop.s| == BUCKET_CELLS * Pow2(lg) && c < |hop.s| && hop.s[c].Full?
    ensures var home := OtherBucket(h, lg, hop.s[c].item.key, hop.bucket);
            && (r.Cycle? <==> home == argbucket)
            && (r.Placed? <==> home != argbucket && !BucketFull(hop.s[c := Full(hop.item)], home))
  {
    assert Turning(0);
    if r.Placed? {
      RoomKept(hop.s[c := Full(hop.item)], u, OtherBucket(h, lg, hop.s[c].item.key, hop.bucket), hop.s[c].item);
    }
  }

  /** The turns of one call: each but the last goes on with what it evicted. */
  ghost predicate Walk(h: Hash, lg: nat, argbucket: nat, draws: Draws, hops: seq<Hop>, u: seq<Cell>, r: Attempt)
  {
    forall key {:trigger Looking(key)} :: Looking(key) ==>
      && |hops| > 0 && hops[0].bucket == argbucket
      && (forall i {:trigger hops[i]} :: 0 <= i < |hops| - 1 ==>
            Turn(h, lg, argbucket, hops[i], DrawnCell(draws, 2 * i, hops[i].bucket), hops[i + 1].s,
                 Running(hops[i + 1].item, hops[i + 1].bucket)))
      && var last := |hops| - 1;
         Turn(h, lg, argbucket, hops[last], DrawnCell(draws, 2 * last, hops[last].bucket), u, r)
  }

  lemma WalkOne(h: Hash, lg: nat, argbucket: nat, draws: Draws, hop: Hop, u: seq<Cell>, r: Attempt)
    requires hop.bucket == argbucket && Turn(h, lg, argbucket, hop, DrawnCell(draws, 0, argbucket), u, r)
    ensures Walk(h, lg, argbucket, draws, [hop], u, r)
  {
  }

  lemma WalkOn(h: Hash, lg: nat, argbucket: nat, draws: Draws, hops: seq<Hop>, hop: Hop, u: seq<Cell>, r: Attempt)
    requires Walk(h, lg, argbucket, draws, hops, hop.s, Running(hop.item, hop.bucket))
    requires Turn(h, lg, argbucket, hop, DrawnCell(draws, 2 * |hops|, hop.bucket), u, r)
    ensures Walk(h, lg, argbucket, draws, hops + [hop], u, r)
  {
    assert Looking(0);
    var more := hops + [hop];
    forall i | 0 <= i < |more| - 1
      ensures Turn(h, lg, argbucket, more[i], DrawnCell(draws, 2 * i, more[i].bucket), more[i + 1].s,
                   Running(more[i + 1].item, more[i + 1].bucket))
    {
      assert more[i] == hops[i];
    }
  }

  /** If the item drawn first has another home with room, it goes there. */
  lemma WalkRoom(h: Hash, lg: nat, argbucket: nat, draws: Draws, hops: seq<Hop>, u: seq<Cell>, r: Attempt)
    requires Walk(h, lg, argbucket, draws, hops, u, r) && |hops| > 0
    requires RoomElsewhere(h, lg, hops[0].s, argbucket, DrawnCell(draws, 0, argbucket))
    ensures r.Placed? && |hops| == 1
  {
    assert Looking(0);
    var c := DrawnCell(draws, 0, argbucket);
    if |hops| == 1 {
      TurnRoom(h, lg, argbucket, hops[0], c, u, r);
    } else {
      assert hops[0].bucket == argbucket && DrawnCell(draws, 2 * 0, hops[0].bucket) == c;
      TurnRoom(h, lg, argbucket, hops[0], c, hops[1].s, Running(hops[1].item, hops[1].bucket));
    }
  }

  lemma TurnRoom(h: Hash, lg: nat, argbucket: nat, hop: Hop, c: nat, u: seq<Cell>, r: Attempt)
    requires Turn(h, lg, argbucket, hop, c, u, r) && hop.bucket == argbucket
    requires RoomElsewhere(h, lg, hop.s, argbucket, c)
    ensures r.Placed?
  {
    TurnDecides(h, lg, argbucket, hop, c, u, r);
    var home := OtherBucket(h, lg, hop.s[c].item.key, hop.bucket);
    assert !BucketFull(hop.s, home);
    var d :| BUCKET_CELLS * home <= d < BUCKET_CELLS * home + BUCKET_CELLS && !hop.s[d].Full?;
    assert hop.s[c := Full(hop.item)][d] == hop.s[d];
  }

  /** The item in cell `c` of the bucket has another home, where a cell is empty. */
  ghost predicate RoomElsewhere(h: Hash, lg: nat, s: seq<Cell>, bucket: nat, c: nat)
  {
    && |s| == BUCKET_CELLS * Pow2(lg) && BUCKET_CELLS * bucket <= c < BUCKET_CELLS * bucket + BUCKET_CELLS
    && c < |s| && s[c].Full?
    && var home := OtherBucket(h, lg, s[c].item.key, bucket);
       home != bucket && !BucketFull(s, home)
  }

  /** There is room in a home of the item, or in the other home of the one that is drawn to make room. */
  ghost predicate RoomFirst(h: Hash, lg: nat, s: seq<Cell>, item: Item, draws: Draws, fuel: nat)
  {
    && |s| == BUCKET_CELLS * Pow2(lg)
    && (!HomesFull(h, lg, s, item)
        || (fuel > 0
            && RoomElsewhere(h, lg, s, Bucket1(h, lg, item.key),
                             DrawnCell(draws.Tail().Tail(), 0, Bucket1(h, lg, item.key)))))
  }

  /** One turn of the loop of ckh_evict_reloc_insert: an eviction, and the search for a new place for what was evicted.
      The item `arg` that started it is at `place` in `argbucket` after the first turn. */
  method EvictOnce(h: Hash, lg: nat, tab: array<Cell>, count: int, argbucket: nat, bucket: nat, item: Item,
                   draws: Draws, ghost arg: Item, ghost place: nat)
    returns (r: Attempt, count': int, draws': Draws)
    requires tab.Length == BUCKET_CELLS * Pow2(lg) && bucket < Pow2(lg)
    requires Housed(h, lg, tab[..]) && Belongs(h, lg, item.key, bucket) && BucketFull(tab[..], bucket)
    requires bucket == argbucket || Escapable(h, lg, tab[..], bucket, item)
    requires BUCKET_CELLS * argbucket <= place < BUCKET_CELLS * argbucket + BUCKET_CELLS <= tab.Length
    requires if bucket == argbucket then item == arg && place == BUCKET_CELLS * bucket + draws.Head()
             else tab[place] == Full(arg)
    modifies tab
    ensures Housed(h, lg, tab[..]) && Conserved(Items(old(tab[..])), tab[..], item, r) && count' == CountAfter(count, r)
    ensures r.Running? ==>
              && r.bucket < Pow2(lg) && r.bucket != argbucket
              && Belongs(h, lg, r.item.key, r.bucket) && BucketFull(tab[..], r.bucket)
              && Escapable(h, lg, tab[..], r.bucket, r.item)
    ensures tab[place] == Full(arg) && draws'.stream == draws.stream
    ensures Turn(h, lg, argbucket, Hop(old(tab[..]), bucket, item), DrawnCell(draws, 0, bucket), tab[..], r)
    ensures !r.Cycle? ==> draws' == draws.Tail().Tail()
  {
    var c := DrawnCell(draws, 0, bucket);
    draws' := draws.Tail();
    if bucket != argbucket {
      EscapableKept(h, lg, tab[..], bucket, c, item);
    }
    var evicted := Evict(h, lg, tab, bucket, c, item);
    var tbucket := OtherBucket(h, lg, evicted.key, bucket);
    if tbucket == argbucket {
      TurnEnds(h, lg, argbucket, Hop(old(tab[..]), bucket, item), c, evicted, tab[..], tab[..], Cycle(evicted));
      return Cycle(evicted), count, draws';
    }
    if tbucket != bucket {
      EvictedEscapes(h, lg, tab[..], bucket, tbucket, evicted);
    }
    ghost var before := tab[..];
    r, count', draws' := Relocate(h, lg, tab, count, tbucket, evicted, draws', arg, place);
    ConservedOn(Items(old(tab[..])), before, tab[..], item, evicted, r);
    TurnEnds(h, lg, argbucket, Hop(old(tab[..]), bucket, item), c, evicted, before, tab[..], r);
  }

  lemma TurnEnds(h: Hash, lg: nat, argbucket: nat, hop: Hop, c: nat, e: Item, mid: seq<Cell>, u: seq<Cell>, r: Attempt)
    requires |hop.s| == BUCKET_CELLS * Pow2(lg) && c < |hop.s| && hop.s[c] == Full(e)
    requires mid == hop.s[c := Full(hop.item)]
    requires var home := OtherBucket(h, lg, e.key, hop.bucket);
             if home == argbucket then r == Cycle(e) && u == mid
             else if r.Placed? then PutIn(mid, u, home, e)
             else r == Running(e, home) && u == mid && BucketFull(mid, home)
    ensures Turn(h, lg, argbucket, hop, c, u, r)
  {
  }

  /** From a bucket that no item can leave, every turn is a cycle. */
  lemma TurnLocked(h: Hash, lg: nat, argbucket: nat, hop: Hop, c: nat, u: seq<Cell>, r: Attempt)
    requires Turn(h, lg, argbucket, hop, c, u, r) && hop.bucket == argbucket && |hop.s| == BUCKET_CELLS * Pow2(lg)
    requires BUCKET_CELLS * argbucket <= c < BUCKET_CELLS * argbucket + BUCKET_CELLS <= |hop.s|
    requires Housed(h, lg, hop.s) && Locked(h, lg, hop.s, argbucket)
    ensures r.Cycle? && hop.s[c] == Full(r.item) && u == hop.s[c := Full(hop.item)]
  {
    TurnDecides(h, lg, argbucket, hop, c, u, r);
    assert c / BUCKET_CELLS == argbucket;
    assert Belongs(h, lg, hop.s[c].item.key, argbucket);
    assert Turning(0);
  }

  /** The end of a turn: what was evicted goes to its other bucket, if there is room. */
  method Relocate(h: Hash, lg: nat, tab: array<Cell>, count: int, bucket: nat, item: Item, draws: Draws,
                  ghost arg: Item, ghost place: nat)
    returns (r: Attempt, count': int, draws': Draws)
    requires tab.Length == BUCKET_CELLS * Pow2(lg) && bucket < Pow2(lg)
    requires Housed(h, lg, tab[..]) && Belongs(h, lg, item.key, bucket)
    requires place < tab.Length && tab[place] == Full(arg)
    modifies tab
    ensures Housed(h, lg, tab[..]) && Conserved(Items(old(tab[..])), tab[..], item, r) && count' == CountAfter(count, r)
    ensures if r.Placed? then PutIn(old(tab[..]), tab[..], bucket, item)
            else r == Running(item, bucket) && tab[..] == old(tab[..]) && BucketFull(tab[..], bucket)
    ensures tab[place] == Full(arg) && draws' == draws.Tail()
  {
    var failed;
    failed, count', draws' := TryBucketInsert(tab, count, bucket, item, draws);
    if !failed {
      PutInItems(h, lg, old(tab[..]), tab[..], bucket, item);
      PutInKeeps(old(tab[..]), tab[..], bucket, item, place);
      return Placed, count', draws';
    }
    return Running(item, bucket), count', draws';
  }

  lemma ConservedOn(before: multiset<Cell>, s: seq<Cell>, s': seq<Cell>, arg: Item, item: Item, r: Attempt)
    requires Items(s) + multiset{Full(item)} == before + multiset{Full(arg)} && Conserved(Items(s), s', item, r)
    ensures Conserved(before, s', arg, r)
  {
  }

  /** ckh_evict_reloc_insert.  After the first eviction the item is in `argbucket`, which the loop never enters
      again: whatever is left over, it is not the item that was to be inserted. */
  method EvictRelocInsert(h: Hash, lg: nat, tab: array<Cell>, count: int, argbucket: nat, arg: Item, draws: Draws,
                          fuel: nat)
    returns (r: Attempt, count': int, draws': Draws, ghost hops: seq<Hop>)
    requires tab.Length == BUCKET_CELLS * Pow2(lg) && argbucket < Pow2(lg)
    requires Housed(h, lg, tab[..]) && Belongs(h, lg, arg.key, argbucket) && BucketFull(tab[..], argbucket)
    modifies tab
    ensures Housed(h, lg, tab[..]) && Conserved(Items(old(tab[..])), tab[..], arg, r) && count' == CountAfter(count, r)
    ensures r.Running? ==>
              && r.bucket < Pow2(lg) && Belongs(h, lg, r.item.key, r.bucket) && BucketFull(tab[..], r.bucket)
              && (r.bucket == argbucket || Escapable(h, lg, tab[..], r.bucket, r.item))
    ensures fuel > 0 || r.Cycle? ==> Full(arg) in Items(tab[..])
    ensures draws'.stream == draws.stream
    ensures fuel > 0 ==>
              && |hops| > 0 && hops[0] == Hop(old(tab[..]), argbucket, arg)
              && Walk(h, lg, argbucket, draws, hops, tab[..], r)
    ensures r.Running? ==> |hops| == fuel
  {
    hops := [];
    var n, bucket: nat, item := fuel, argbucket, arg;
    ghost var place, s := BUCKET_CELLS * argbucket + draws.Head(), tab[..];
    count', draws' := count, draws;
    while n > 0
      invariant bucket < Pow2(lg) && 0 <= n <= fuel && count' == count
      invariant Housed(h, lg, tab[..]) && Belongs(h, lg, item.key, bucket) && BucketFull(tab[..], bucket)
      invariant Items(tab[..]) + multiset{Full(item)} == Items(s) + multiset{Full(arg)}
      invariant n == fuel ==> bucket == argbucket && item == arg && draws' == draws && tab[..] == s
      invariant n < fuel ==> bucket != argbucket && tab[place] == Full(arg)
      invariant n < fuel ==> Escapable(h, lg, tab[..], bucket, item)
      invariant |hops| == fuel - n && Walked(h, lg, argbucket, draws, s, arg, hops, Hop(tab[..], bucket, item), draws')
    {
      ghost var hop := Hop(tab[..], bucket, item);
      ghost var drawn := draws';
      r, count', draws' := EvictOnce(h, lg, tab, count', argbucket, bucket, item, draws', arg, place);
      WalkedOn(h, lg, argbucket, draws, s, arg, hops, hop, drawn, tab[..], r);
      hops := hops + [hop];
      ConservedOn(Items(s), hop.s, tab[..], arg, item, r);
      if !r.Running? {
        InPlace(tab[..], place, arg);
        return;
      }
      item, bucket := r.item, r.bucket;
      n := n - 1;
    }
    if fuel > 0 {
      InPlace(tab[..], place, arg);
      WalkedAll(h, lg, argbucket, draws, s, arg, hops, Hop(tab[..], bucket, item), draws');
    }
    r := Running(item, bucket);
  }

  /** The turns so far have come to `hop`, with `drawn` still to draw. */
  ghost predicate Walked(h: Hash, lg: nat, argbucket: nat, draws: Draws, s: seq<Cell>, arg: Item, hops: seq<Hop>,
                         hop: Hop, drawn: Draws)
  {
    forall key {:trigger Trying(key)} :: Trying(key) ==>
      && drawn == Draws(draws.stream, draws.pos + 2 * |hops|)
      && if hops == [] then hop == Hop(s, argbucket, arg)
         else hops[0] == Hop(s, argbucket, arg)
              && Walk(h, lg, argbucket, draws, hops, hop.s, Running(hop.item, hop.bucket))
  }

  lemma WalkedOn(h: Hash, lg: nat, argbucket: nat, draws: Draws, s: seq<Cell>, arg: Item, hops: seq<Hop>, hop: Hop,
                 drawn: Draws, u: seq<Cell>, r: Attempt)
    requires Walked(h, lg, argbucket, draws, s, arg, hops, hop, drawn)
    requires Turn(h, lg, argbucket, hop, DrawnCell(drawn, 0, hop.bucket), u, r)
    ensures drawn.stream == draws.stream
    ensures (hops + [hop])[0] == Hop(s, argbucket, arg) && Walk(h, lg, argbucket, draws, hops + [hop], u, r)
    ensures r.Running? ==>
              Walked(h, lg, argbucket, draws, s, arg, hops + [hop], Hop(u, r.bucket, r.item), drawn.Tail().Tail())
  {
    assert Trying(0);
    assert DrawnCell(drawn, 0, hop.bucket) == DrawnCell(draws, 2 * |hops|, hop.bucket);
    if hops == [] {
      WalkOne(h, lg, argbucket, draws, hop, u, r);
      assert hops + [hop] == [hop];
    } else {
      WalkOn(h, lg, argbucket, draws, hops, hop, u, r);
    }
  }

  lemma WalkedAll(h: Hash, lg: nat, argbucket: nat, draws: Draws, s: seq<Cell>, arg: Item, hops: seq<Hop>, hop: Hop,
                  drawn: Draws)
    requires Walked(h, lg, argbucket, draws, s, arg, hops, hop, drawn) && hops != []
    ensures drawn.stream == draws.stream && hops[0] == Hop(s, argbucket, arg)
    ensures Walk(h, lg, argbucket, draws, hops, hop.s, Running(hop.item, hop.bucket))
  {
    assert Trying(0);
  }

  lemma InPlace(s: seq<Cell>, c: nat, item: Item)
    requires c < |s| && s[c] == Full(item)
    ensures Full(item) in Items(s)
  {
    assert s[c] in s;
  }

  /** A full bucket is that many items. */
  lemma FullBucketItems(s: seq<Cell>, bucket: nat)
    requires BUCKET_CELLS * bucket + BUCKET_CELLS <= |s| && BucketFull(s, bucket)
    ensures |Items(s)| >= BUCKET_CELLS
  {
    var lo := BUCKET_CELLS * bucket;
    var mid := s[lo..lo + BUCKET_CELLS];
    assert s == s[..lo] + mid + s[lo + BUCKET_CELLS..];
    assert Items(s) == Items(s[..lo]) + Items(mid) + Items(s[lo + BUCKET_CELLS..]);
    assert Empty !in mid;
    assert Items(mid) == multiset(mid);
  }

  /** Both homes of the item are full. */
  ghost predicate HomesFull(h: Hash, lg: nat, s: seq<Cell>, item: Item)
    requires |s| == BUCKET_CELLS * Pow2(lg)
  {
    BucketFull(s, Bucket0(h, lg, item.key)) && BucketFull(s, Bucket1(h, lg, item.key))
  }

  /** The item went into its first home if there was room, and else into its second. */
  ghost predicate InHome(h: Hash, lg: nat, s: seq<Cell>, u: seq<Cell>, item: Item)
    requires |s| == BUCKET_CELLS * Pow2(lg)
  {
    PutIn(s, u, if BucketFull(s, Bucket0(h, lg, item.key)) then Bucket1(h, lg, item.key)
                else Bucket0(h, lg, item.key), item)
  }

  lemma RoomKept(s: seq<Cell>, u: seq<Cell>, bucket: nat, item: Item)
    requires PutIn(s, u, bucket, item) && BUCKET_CELLS * bucket + BUCKET_CELLS <= |s|
    ensures !BucketFull(s, bucket)
  {
  }

  /** The first part of ckh_try_insert: both buckets of the item are tried. */
  method TryBuckets(h: Hash, lg: nat, tab: array<Cell>, count: int, item: Item, draws: Draws)
    returns (failed: bool, count': int, draws': Draws)
    requires tab.Length == BUCKET_CELLS * Pow2(lg) && Housed(h, lg, tab[..])
    modifies tab
    ensures draws'.stream == draws.stream
    ensures failed ==>
              && tab[..] == old(tab[..]) && count' == count && draws' == draws.Tail().Tail()
              && BucketFull(tab[..], Bucket1(h, lg, item.key)) && |Items(tab[..])| >= BUCKET_CELLS
              && BucketFull(tab[..], Bucket0(h, lg, item.key))
    ensures !failed ==>
              && Housed(h, lg, tab[..]) && Items(tab[..]) == Items(old(tab[..])) + multiset{Full(item)}
              && count' == count + 1 && InHome(h, lg, old(tab[..]), tab[..], item)
    ensures |Items(old(tab[..]))| < BUCKET_CELLS ==> PutIn(old(tab[..]), tab[..], Bucket0(h, lg, item.key), item)
    ensures old(tab[CellAt(Bucket0(h, lg, item.key), 0, draws.Head())]).Empty? ==>
              tab[CellAt(Bucket0(h, lg, item.key), 0, draws.Head())] == Full(item)
  {
    var bucket := Bucket0(h, lg, item.key);
    failed, count', draws' := TryBucketInsert(tab, count, bucket, item, draws);
    if !failed {
      RoomKept(old(tab[..]), tab[..], bucket, item);
      PutInItems(h, lg, old(tab[..]), tab[..], bucket, item);
      return;
    }
    FullBucketItems(tab[..], bucket);
    bucket := Bucket1(h, lg, item.key);
    failed, count', draws' := TryBucketInsert(tab, count', bucket, item, draws');
    if !failed {
      PutInItems(h, lg, old(tab[..]), tab[..], bucket, item);
    }
  }

  /** A placed item is in the table. */
  lemma PlacedIn(before: multiset<Cell>, after: multiset<Cell>, item: Item)
    requires after == before + multiset{Full(item)}
    ensures Full(item) in after
  {
  }

  /** What ckh_try_insert comes to: the item goes into a home of its own with room, or there is none, and it is swapped
      in where evictions lead. */
  ghost predicate Tried(h: Hash, lg: nat, s: seq<Cell>, u: seq<Cell>, item: Item, draws: Draws, fuel: nat,
                        hops: seq<Hop>, r: Attempt)
  {
    |s| == BUCKET_CELLS * Pow2(lg) && forall key {:trigger Trying(key)} :: Trying(key) ==>
      if !HomesFull(h, lg, s, item) then r.Placed? && InHome(h, lg, s, u, item)
      else Swapping(h, lg, s, u, item, draws, fuel, hops, r)
  }

  ghost predicate Swapping(h: Hash, lg: nat, s: seq<Cell>, u: seq<Cell>, item: Item, draws: Draws, fuel: nat,
                           hops: seq<Hop>, r: Attempt)
  {
    var b := Bucket1(h, lg, item.key);
    && (fuel > 0 ==> |hops| > 0 && hops[0] == Hop(s, b, item) && Walk(h, lg, b, draws.Tail().Tail(), hops, u, r))
    && (r.Running? ==> |hops| == fuel)
  }

  lemma TriedHome(h: Hash, lg: nat, s: seq<Cell>, u: seq<Cell>, item: Item, draws: Draws, fuel: nat)
    requires |s| == BUCKET_CELLS * Pow2(lg) && InHome(h, lg, s, u, item)
    ensures Tried(h, lg, s, u, item, draws, fuel, [], Placed)
  {
    if HomesFull(h, lg, s, item) {
      RoomKept(s, u, Bucket1(h, lg, item.key), item);
    }
  }

  lemma TriedWalk(h: Hash, lg: nat, s: seq<Cell>, u: seq<Cell>, item: Item, draws: Draws, fuel: nat, hops: seq<Hop>,
                  r: Attempt)
    requires |s| == BUCKET_CELLS * Pow2(lg) && HomesFull(h, lg, s, item)
    requires Swapping(h, lg, s, u, item, draws, fuel, hops, r)
    ensures Tried(h, lg, s, u, item, draws, fuel, hops, r)
  {
  }

  lemma TriedFacts(h: Hash, lg: nat, s: seq<Cell>, u: seq<Cell>, item: Item, draws: Draws, fuel: nat, hops: seq<Hop>,
                   r: Attempt)
    requires Tried(h, lg, s, u, item, draws, fuel, hops, r)
    ensures !HomesFull(h, lg, s, item) ==> r.Placed? && InHome(h, lg, s, u, item)
    ensures HomesFull(h, lg, s, item) ==> Swapping(h, lg, s, u, item, draws, fuel, hops, r)
  {
    assert Trying(0);
  }

  /** A trapped item evicts the one drawn, which is left over. */
  lemma TriedTrapped(h: Hash, lg: nat, s: seq<Cell>, u: seq<Cell>, item: Item, draws: Draws, fuel: nat, hops: seq<Hop>,
                     r: Attempt)
    requires Tried(h, lg, s, u, item, draws, fuel, hops, r) && fuel > 0 && Trapped(h, lg, s, item) && Housed(h, lg, s)
    ensures r.Cycle? && Evicts(h, lg, s, u, item, draws, r)
  {
    TriedFacts(h, lg, s, u, item, draws, fuel, hops, r);
    var b, drawn := Bucket1(h, lg, item.key), draws.Tail().Tail();
    assert Looking(0);
    if |hops| > 1 {
      TurnLocked(h, lg, b, hops[0], DrawnCell(drawn, 2 * 0, b), hops[1].s, Running(hops[1].item, hops[1].bucket));
    } else {
      TurnLocked(h, lg, b, hops[0], DrawnCell(drawn, 0, b), u, r);
    }
  }

  lemma TriedRoom(h: Hash, lg: nat, s: seq<Cell>, u: seq<Cell>, item: Item, draws: Draws, fuel: nat, hops: seq<Hop>,
                  r: Attempt)
    requires Tried(h, lg, s, u, item, draws, fuel, hops, r) && RoomFirst(h, lg, s, item, draws, fuel)
    ensures r.Placed?
  {
    TriedFacts(h, lg, s, u, item, draws, fuel, hops, r);
    if HomesFull(h, lg, s, item) {
      WalkRoom(h, lg, Bucket1(h, lg, item.key), draws.Tail().Tail(), hops, u, r);
    }
  }

  /** ckh_try_insert. */
  method TryInsert(h: Hash, lg: nat, tab: array<Cell>, count: int, item: Item, draws: Draws, fuel: nat)
    returns (r: Attempt, count': int, draws': Draws, ghost hops: seq<Hop>)
    requires tab.Length == BUCKET_CELLS * Pow2(lg) && Housed(h, lg, tab[..])
    modifies tab
    ensures Housed(h, lg, tab[..]) && Conserved(Items(old(tab[..])), tab[..], item, r) && count' == CountAfter(count, r)
    ensures fuel > 0 || r.Cycle? ==> Full(item) in Items(tab[..])
    ensures Tried(h, lg, old(tab[..]), tab[..], item, draws, fuel, hops, r)
    ensures !r.Placed? ==> |Items(old(tab[..]))| >= BUCKET_CELLS
    ensures draws'.stream == draws.stream
    ensures |Items(old(tab[..]))| < BUCKET_CELLS ==> PutIn(old(tab[..]), tab[..], Bucket0(h, lg, item.key), item)
    ensures old(tab[CellAt(Bucket0(h, lg, item.key), 0, draws.Head())]).Empty? ==>
              tab[CellAt(Bucket0(h, lg, item.key), 0, draws.Head())] == Full(item)
  {
    var failed;
    failed, count', draws' := TryBuckets(h, lg, tab, count, item, draws);
    if !failed {
      PlacedIn(Items(old(tab[..])), Items(tab[..]), item);
      TriedHome(h, lg, old(tab[..]), tab[..], item, draws, fuel);
      return Placed, count', draws', [];
    }
    r, count', draws', hops := EvictRelocInsert(h, lg, tab, count', Bucket1(h, lg, item.key), item, draws', fuel);
    TriedWalk(h, lg, old(tab[..]), tab[..], item, draws, fuel, hops, r);
  }

  // ---------------------------------------------------------------- rebuilding

  datatype Outcome = Done | Failed | Stuck

  /** The size is granted, and the rebuild fails. */
  ghost predicate SizeJammed(h: Hash, stream: nat -> nat, s: seq<Cell>, lg: nat, memory: Memory, fuel: nat)
  {
    memory.Allows(lg + LG_BUCKET_CELLS) && Jammed(h, lg, s, stream, fuel)
  }

  /** So for every size from `lg` up to but not including `n`. */
  ghost predicate AllJammed(h: Hash, stream: nat -> nat, s: seq<Cell>, lg: nat, n: nat, memory: Memory, fuel: nat)
  {
    forall m :: lg <= m < n ==> SizeJammed(h, stream, s, m, memory, fuel)
  }

  ghost predicate RefusedAt(h: Hash, stream: nat -> nat, s: seq<Cell>, lg: nat, n: nat, memory: Memory, fuel: nat)
  {
    lg <= n && !memory.Allows(n + LG_BUCKET_CELLS) && AllJammed(h, stream, s, lg, n, memory, fuel)
  }

  /** Every size from `lg` on is granted, and the rebuild fails, up to one that is refused. */
  ghost predicate Refused(h: Hash, stream: nat -> nat, s: seq<Cell>, lg: nat, memory: Memory, fuel: nat)
  {
    exists n :: RefusedAt(h, stream, s, lg, n, memory, fuel)
  }

  lemma RefusedSome(h: Hash, stream: nat -> nat, s: seq<Cell>, lg: nat, n: nat, memory: Memory, fuel: nat)
    requires RefusedAt(h, stream, s, lg, n, memory, fuel)
    ensures Refused(h, stream, s, lg, memory, fuel)
  {
  }

  lemma AllJammedOn(h: Hash, stream: nat -> nat, s: seq<Cell>, lg: nat, n: nat, memory: Memory, fuel: nat)
    requires lg <= n && AllJammed(h, stream, s, lg, n, memory, fuel)
    requires SizeJammed(h, stream, s, n, memory, fuel)
    ensures AllJammed(h, stream, s, lg, n + 1, memory, fuel)
  {
  }

  lemma ItemsPrefix(s: seq<Cell>, i: nat)
    requires i < |s|
    ensures Items(s[..i + 1]) == Items(s[..i]) + (if s[i].Full? then multiset{s[i]} else multiset{})
  {
    assert s[..i + 1] == s[..i] + [s[i]];
  }

  lemma PrefixIsAll(s: seq<Cell>, i: nat)
    requires i <= |s| && |Items(s[..i])| >= |Items(s)|
    ensures Items(s[..i]) == Items(s)
  {
    assert s == s[..i] + s[i..];
    assert Items(s) == Items(s[..i]) + Items(s[i..]);
    assert |Items(s)| == |Items(s[..i])| + |Items(s[i..])|;
  }

  /** The draws are all zero, and the item in the first cell has its home there in the new table. */
  ghost predicate FirstStays(h: Hash, lg: nat, s: seq<Cell>, draws: Draws)
  {
    && (forall n :: draws.stream(n) == 0)
    && |s| > 0 && s[0].Full? && Bucket0(h, lg, s[0].item.key) == 0
  }

  /** The new table, `u`, holds the items of the first `i` cells of the old one, `s`, and they are `count`. */
  ghost predicate Rebuilt(h: Hash, lg: nat, u: seq<Cell>, s: seq<Cell>, i: nat, count: int)
  {
    && i <= |s| && |u| == BUCKET_CELLS * Pow2(lg)
    && (forall key {:trigger Open(key)} :: Open(key) ==>
          && Housed(h, lg, u) && Items(u) == Items(s[..i]) && count == |Items(s[..i])|
          && (i == 0 ==> u[0] == Empty && count == 0))
  }

  lemma NothingRebuilt(h: Hash, lg: nat, u: seq<Cell>, s: seq<Cell>)
    requires |u| == BUCKET_CELLS * Pow2(lg) && forall i :: 0 <= i < |u| ==> u[i] == Empty
    ensures Rebuilt(h, lg, u, s, 0, 0)
  {
    ItemsNone(u);
    assert Items(s[..0]) == multiset{};
  }

  lemma SkipEmpty(h: Hash, lg: nat, u: seq<Cell>, s: seq<Cell>, i: nat, count: int)
    requires i < |s| && s[i].Empty? && Rebuilt(h, lg, u, s, i, count)
    ensures Rebuilt(h, lg, u, s, i + 1, count)
  {
    assert Open(0);
    ItemsPrefix(s, i);
  }

  lemma NotAllYet(h: Hash, lg: nat, u: seq<Cell>, s: seq<Cell>, i: nat, count: int)
    requires Rebuilt(h, lg, u, s, i, count)
    ensures count < |Items(s)| ==> i < |s|
    ensures count >= |Items(s)| ==> Housed(h, lg, u) && Items(u) == Items(s) && count == |Items(s)|
    ensures i == 0 ==> u[0] == Empty && count == 0
  {
    assert Open(0);
    assert s[..|s|] == s;
    if count >= |Items(s)| {
      PrefixIsAll(s, i);
    }
  }

  /** How a rebuild fails: the items of the first `i` cells are in the new table `u`, both homes of the next are full,
      and evictions lead to a cycle. */
  datatype Jam = Jam(i: nat, u: seq<Cell>, count: int, draws: Draws, hops: seq<Hop>, u': seq<Cell>, left: Item)

  ghost predicate IsJam(h: Hash, lg: nat, s: seq<Cell>, stream: nat -> nat, fuel: nat, j: Jam)
  {
    && j.i < |s| && s[j.i].Full? && Rebuilt(h, lg, j.u, s, j.i, j.count) && j.draws.stream == stream
    && HomesFull(h, lg, j.u, s[j.i].item)
    && Tried(h, lg, j.u, j.u', s[j.i].item, j.draws, fuel, j.hops, Cycle(j.left))
  }

  ghost predicate Jammed(h: Hash, lg: nat, s: seq<Cell>, stream: nat -> nat, fuel: nat)
  {
    exists j :: IsJam(h, lg, s, stream, fuel, j)
  }

  lemma JamFound(h: Hash, lg: nat, s: seq<Cell>, stream: nat -> nat, fuel: nat, j: Jam)
    requires IsJam(h, lg, s, stream, fuel, j)
    ensures Jammed(h, lg, s, stream, fuel)
  {
  }

  /** One turn of the loop of ckh_rebuild, for cell `i` of the old table, which holds an item. */
  method RebuildStep(h: Hash, lg: nat, tab: array<Cell>, ghost s: seq<Cell>, ghost i: nat, item: Item, count: int,
                     draws: Draws, fuel: nat)
    returns (t: Attempt, count': int, draws': Draws)
    requires tab.Length == BUCKET_CELLS * Pow2(lg) && i < |s| && s[i] == Full(item)
    requires Rebuilt(h, lg, tab[..], s, i, count)
    modifies tab
    ensures t.Placed? ==> Rebuilt(h, lg, tab[..], s, i + 1, count') && count' == count + 1
    ensures draws'.stream == draws.stream && (count < BUCKET_CELLS ==> t.Placed?)
    ensures count < BUCKET_CELLS && old(tab[0]).Full? ==> tab[0] == old(tab[0])
    ensures FirstStays(h, lg, s, draws) && i == 0 ==> tab[0] == s[0]
    ensures t.Cycle? ==> Jammed(h, lg, s, draws.stream, fuel)
  {
    assert Open(0);
    ItemsPrefix(s, i);
    ghost var hops;
    t, count', draws', hops := TryInsert(h, lg, tab, count, item, draws, fuel);
    if t.Cycle? {
      TriedFacts(h, lg, old(tab[..]), tab[..], item, draws, fuel, hops, t);
      JamFound(h, lg, s, draws.stream, fuel, Jam(i, old(tab[..]), count, draws, hops, tab[..], t.item));
    }
    if count < BUCKET_CELLS && old(tab[0]).Full? {
      PutInKeeps(old(tab[..]), tab[..], Bucket0(h, lg, item.key), item, 0);
    }
  }

  /** ckh_rebuild: every item of the old table goes into the empty new one.  The count starts again from zero and is
      put back when that fails; either way it ends as it was. */
  method Rebuild(h: Hash, lg: nat, tab: array<Cell>, aTab: array<Cell>, count: int, draws: Draws, fuel: nat)
    returns (r: Outcome, count': int, draws': Draws)
    requires tab != aTab && tab.Length == BUCKET_CELLS * Pow2(lg) && count == |Items(aTab[..])|
    requires forall i :: 0 <= i < tab.Length ==> tab[i] == Empty
    modifies tab
    ensures r.Done? ==> Housed(h, lg, tab[..]) && Items(tab[..]) == Items(aTab[..])
    ensures !r.Stuck? ==> count' == count
    ensures draws'.stream == draws.stream && (count <= BUCKET_CELLS ==> r.Done?)
    ensures count <= BUCKET_CELLS && FirstStays(h, lg, aTab[..], draws) ==> tab[0] == aTab[0]
    ensures r.Failed? ==> Jammed(h, lg, aTab[..], draws.stream, fuel)
  {
    ghost var s := aTab[..];
    ghost var stays := count <= BUCKET_CELLS && FirstStays(h, lg, s, draws);
    NothingRebuilt(h, lg, tab[..], s);
    FirstCounts(s);
    var i, nins := 0, 0;
    count', draws' := 0, draws;
    while nins < count
      invariant aTab[..] == s && count' == nins && Rebuilt(h, lg, tab[..], s, i, count')
      invariant draws'.stream == draws.stream && (stays && i > 0 ==> tab[0] == s[0])
      decreases |s| - i
    {
      NotAllYet(h, lg, tab[..], s, i, count');
      if aTab[i].Full? {
        var t;
        t, count', draws' := RebuildStep(h, lg, tab, s, i, aTab[i].item, count', draws', fuel);
        if !t.Placed? {
          return if t.Cycle? then Failed else Stuck, count, draws';
        }
        nins := nins + 1;
      } else {
        SkipEmpty(h, lg, tab[..], s, i, count');
      }
      i := i + 1;
    }
    NotAllYet(h, lg, tab[..], s, i, count');
    r := Done;
  }

  /** A table with an item in its first cell is not empty. */
  lemma FirstCounts(s: seq<Cell>)
    ensures |s| > 0 && s[0].Full? ==> |Items(s)| > 0
  {
    if |s| > 0 && s[0].Full? {
      InPlace(s, 0, s[0].item);
    }
  }

  /** What the allocator does: it refuses tables above a size, and may refuse any other. */
  datatype Memory = Memory(maxLgCells: nat, grants: nat -> bool)
  {
    predicate Allows(lgCells: nat)
    {
      lgCells <= maxLgCells && grants(lgCells)
    }
  }

  ghost predicate HasKey(ms: multiset<Cell>, key: int)
  {
    exists x :: x in ms && x.Full? && x.item.key == key
  }

  lemma DistinctAdd(ms: multiset<Cell>, item: Item)
    requires Distinct(ms) && !HasKey(ms, item.key)
    ensures Distinct(ms + multiset{Full(item)})
  {
  }

  lemma DistinctSub(ms: multiset<Cell>, more: multiset<Cell>)
    requires Distinct(more) && ms <= more
    ensures Distinct(ms)
  {
    forall a, b | Full(a) in ms && Full(b) in ms && a.key == b.key
      ensures a == b && ms[Full(a)] == 1
    {
      assert more[Full(a)] >= ms[Full(a)] && more[Full(b)] >= ms[Full(b)];
    }
  }

  /** Every key is in one of its buckets, and none is there twice. */
  ghost predicate Sound(h: Hash, lg: nat, s: seq<Cell>)
  {
    forall key {:trigger Open(key)} :: Open(key) ==> Housed(h, lg, s) && Distinct(Items(s))
  }

  /** The outcome of an attempt to add an item with a new key. */
  lemma Added(h: Hash, lg: nat, before: seq<Cell>, s: seq<Cell>, item: Item, t: Attempt)
    requires Sound(h, lg, before) && !HasKey(Items(before), item.key)
    requires Housed(h, lg, s) && Conserved(Items(before), s, item, t)
    ensures Sound(h, lg, s)
    ensures |Items(s)| == |Items(before)| + (if t.Placed? then 1 else 0)
    ensures !t.Placed? ==> !HasKey(Items(s), t.item.key)
  {
    assert Open(0);
    var all := Items(before) + multiset{Full(item)};
    DistinctAdd(Items(before), item);
    DistinctSub(Items(s), all);
    if !t.Placed? {
      LeftOver(Items(s), t.item, all);
      assert |Items(s) + multiset{Full(t.item)}| == |Items(s)| + 1;
    }
  }

  /** What an attempt to add a new key leaves over, once the item is in the table, is one of the old items. */
  lemma OldLeftOver(before: multiset<Cell>, after: multiset<Cell>, item: Item, left: Item)
    requires !HasKey(before, item.key) && Full(item) in after
    requires after + multiset{Full(left)} == before + multiset{Full(item)}
    ensures Full(left) in before && left.key != item.key
  {
    assert (after + multiset{Full(left)})[Full(item)] == (before + multiset{Full(item)})[Full(item)];
    assert (after + multiset{Full(left)})[Full(left)] == (before + multiset{Full(item)})[Full(left)];
  }

  // ---------------------------------------------------------------- the size of a new table

  function MinCells(minItems: nat): nat
  {
    (minItems + (3 - minItems % 3)) / 3 * 4
  }

  /** 2^lg is the least number of cells, at least one bucket, that is enough for `minItems`. */
  predicate SizedFor(minItems: nat, lg: nat)
  {
    && LG_BUCKET_CELLS <= lg && MinCells(minItems) <= Pow2(lg)
    && (lg == LG_BUCKET_CELLS || Pow2(lg - 1) < MinCells(minItems))
  }

  method SizeFor(minItems: nat) returns (lg: nat)
    ensures SizedFor(minItems, lg)
  {
    lg := LG_BUCKET_CELLS;
    while Pow2(lg) < MinCells(minItems)
      invariant LG_BUCKET_CELLS <= lg
      invariant lg == LG_BUCKET_CELLS || Pow2(lg - 1) < MinCells(minItems)
      decreases MinCells(minItems) - Pow2(lg)
    {
      lg := lg + 1;
    }
  }

  class Table {
    const h: Hash
    var tab: array<Cell>
    var lgMin: nat
    var lgCur: nat
    var count: int
    var draws: Draws

    ghost predicate Valid()
      reads this, tab
    {
      && tab.Length == BUCKET_CELLS * Pow2(lgCur) && lgMin <= lgCur
      && count == |Items(tab[..])| && Sound(h, lgCur, tab[..])
    }

    ghost function Contents(): multiset<Cell>
      reads this, tab
    {
      Items(tab[..])
    }

    ghost predicate Has(key: int)
      reads this, tab
    {
      HasKey(Contents(), key)
    }

    /** ckh_isearch. */
    method Find(key: int) returns (found: bool, cell: nat)
      requires Valid()
      ensures found <==> Has(key)
      ensures found ==> cell < tab.Length && tab[cell].Full? && tab[cell].item.key == key
    {
      assert Open(0);
      found, cell := BucketSearch(tab, Bucket0(h, lgCur, key), key);
      if !found {
        found, cell := BucketSearch(tab, Bucket1(h, lgCur, key), key);
      }
      if found {
        assert tab[cell] in tab[..];
      } else {
        forall x | x in Contents() && x.Full?
          ensures x.item.key != key
        {
          var i :| 0 <= i < tab.Length && tab[i] == x;
          assert Belongs(h, lgCur, x.item.key, i / BUCKET_CELLS) by { assert tab[..][i] == x; }
        }
      }
    }

    /** The empty table of 2^lgCells cells. */
    constructor (lgCells: nat, hash: Hash, seed: Draws)
      requires LG_BUCKET_CELLS <= lgCells
      ensures Valid() && fresh(tab) && Contents() == multiset{} && h == hash
              && lgMin == lgCur == lgCells - LG_BUCKET_CELLS
    {
      var cells := new Cell[Pow2(lgCells)](_ => Empty);
      h, draws, count := hash, seed, 0;
      lgMin, lgCur := lgCells - LG_BUCKET_CELLS, lgCells - LG_BUCKET_CELLS;
      tab := cells;
      new;
      CellsOf(lgCur);
      ItemsNone(tab[..]);
    }

    /** ckh_new: the smallest table that keeps `minItems` items at most three quarters full, or none exactly when
        the allocator refuses that size. */
    static method Create(minItems: nat, hash: Hash, seed: Draws, memory: Memory) returns (t: Table?)
      requires minItems > 0
      ensures t == null <==> exists lg :: SizedFor(minItems, lg) && !memory.Allows(lg)
      ensures t != null ==> fresh(t) && fresh(t.tab) && t.Valid() && t.Contents() == multiset{} && t.h == hash
      ensures t != null ==> t.lgMin == t.lgCur && 4 * minItems < 3 * t.tab.Length
      ensures t != null ==> t.lgCur == 0 || 3 * BUCKET_CELLS * Pow2(t.lgCur - 1) < 4 * (minItems + 3)
    {
      var lgCells := SizeFor(minItems);
      forall lg | SizedFor(minItems, lg) ensures lg == lgCells { SizedOnce(minItems, lg, lgCells); }
      if !memory.Allows(lgCells) {
        return null;
      }
      t := new Table(lgCells, hash, seed);
      CellsOf(t.lgCur);
      if t.lgCur > 0 {
        CellsOf(t.lgCur - 1);
      }
    }

    /** ckh_search. */
    method Search(key: int) returns (r: Cell)
      requires Valid()
      ensures r.Full? ==> r in Contents() && r.item.key == key
      ensures r.Empty? ==> !Has(key)
    {
      var found, cell := Find(key);
      if found {
        assert tab[cell] in tab[..];
        return tab[cell];
      }
      return Empty;
    }

    /** ckh_iter: the next occupied cell at or after `start`.  Repeated from 0 it yields exactly the contents. */
    method Iter(start: nat) returns (r: Cell, next: nat)
      requires Valid() && start <= tab.Length
      ensures start <= next <= tab.Length
      ensures r.Full? ==> start < next && Items(tab[..next]) == Items(tab[..start]) + multiset{r}
      ensures r.Empty? ==> Items(tab[..start]) == Contents()
    {
      next := start;
      while next < tab.Length
        invariant start <= next <= tab.Length
        invariant Items(tab[..next]) == Items(tab[..start])
      {
        ItemsPrefix(tab[..], next);
        assert tab[..][..next] == tab[..next] && tab[..][..next + 1] == tab[..next + 1];
        next := next + 1;
        if tab[next - 1].Full? {
          return tab[next - 1], next;
        }
      }
      assert tab[..next] == tab[..];
      r := Empty;
    }

    /** Rebuild into a fresh table of 2^lg buckets, and go back to the old one when that fails. */
    method SwapIn(lg: nat, fuel: nat) returns (r: Outcome)
      requires Valid() && lgMin <= lg
      modifies this
      ensures r.Done? ==> Valid() && fresh(tab) && lgCur == lg && Contents() == old(Contents())
      ensures r.Failed? ==> Valid() && tab == old(tab) && tab[..] == old(tab[..]) && lgCur == old(lgCur)
      ensures lgMin == old(lgMin) && (!r.Stuck? ==> count == old(count))
      ensures draws.stream == old(draws.stream) && (|old(Contents())| <= BUCKET_CELLS ==> r.Done?)
      ensures r.Failed? ==> Jammed(h, lg, old(tab[..]), draws.stream, fuel)
      ensures |old(Contents())| <= BUCKET_CELLS && FirstStays(h, lg, old(tab[..]), old(draws)) ==> tab[0] == old(tab[0])
    {
      assert Open(0);
      var cells := new Cell[BUCKET_CELLS * Pow2(lg)](_ => Empty);
      var lgPrev, prev := lgCur, tab;
      tab := cells;
      lgCur := lg;
      r, count, draws := Rebuild(h, lg, tab, prev, count, draws, fuel);
      if r.Failed? {
        tab := prev;
        lgCur := lgPrev;
      }
    }

    /** ckh_grow: keep doubling until a table takes every item, or memory runs out. */
    method Grow(memory: Memory, fuel: nat) returns (r: Outcome)
      requires Valid()
      modifies this
      ensures r.Done? ==> Valid() && fresh(tab) && lgCur > old(lgCur) && Contents() == old(Contents())
      ensures r.Done? ==> memory.Allows(lgCur + LG_BUCKET_CELLS)
      ensures r.Failed? ==> Valid() && tab == old(tab) && tab[..] == old(tab[..]) && lgCur == old(lgCur)
      ensures r.Failed? ==> exists n :: n > old(lgCur) + LG_BUCKET_CELLS && !memory.Allows(n)
      ensures r.Failed? ==> Refused(h, draws.stream, old(tab[..]), old(lgCur) + 1, memory, fuel)
      ensures r.Done? ==> AllJammed(h, draws.stream, old(tab[..]), old(lgCur) + 1, lgCur, memory, fuel)
      ensures lgMin == old(lgMin)
      ensures !memory.Allows(old(lgCur) + 1 + LG_BUCKET_CELLS) ==> r.Failed?
      ensures draws.stream == old(draws.stream)
      ensures |old(Contents())| <= BUCKET_CELLS && memory.Allows(old(lgCur) + 1 + LG_BUCKET_CELLS) ==>
                && r.Done? && lgCur == old(lgCur) + 1
                && (FirstStays(h, lgCur, old(tab[..]), old(draws)) ==> tab[0] == old(tab[0]))
    {
      ghost var s, stream := tab[..], draws.stream;
      var lgCells := lgCur + LG_BUCKET_CELLS;
      while true
        invariant Valid() && tab == old(tab) && tab[..] == old(tab[..]) && lgCur == old(lgCur) && lgMin == old(lgMin)
        invariant lgCells >= lgCur + LG_BUCKET_CELLS
        invariant lgCells == lgCur + LG_BUCKET_CELLS || memory.Allows(lgCur + 1 + LG_BUCKET_CELLS)
        invariant draws.stream == old(draws.stream)
        invariant AllJammed(h, stream, s, lgCur + 1, lgCells + 1 - LG_BUCKET_CELLS, memory, fuel)
        invariant |Contents()| <= BUCKET_CELLS ==> lgCells == lgCur + LG_BUCKET_CELLS && draws == old(draws)
        decreases memory.maxLgCells - lgCells
      {
        lgCells := lgCells + 1;
        var lg := lgCells - LG_BUCKET_CELLS;
        if !memory.Allows(lgCells) {
          RefusedSome(h, stream, s, lgCur + 1, lg, memory, fuel);
          return Failed;
        }
        r := SwapIn(lg, fuel);
        if !r.Failed? {
          return;
        }
        AllJammedOn(h, stream, s, lgCur + 1, lg, memory, fuel);
      }
    }

    /** ckh_shrink: halve the table if memory and the rebuild allow it. */
    method Shrink(memory: Memory, fuel: nat) returns (r: Outcome)
      requires Valid() && lgMin < lgCur
      modifies this
      ensures lgMin == old(lgMin) && (!r.Stuck? ==> Valid() && Contents() == old(Contents()))
      ensures r.Done? ==> fresh(tab) && lgCur == old(lgCur) - 1
      ensures r.Failed? ==> tab == old(tab) && tab[..] == old(tab[..]) && lgCur == old(lgCur)
      ensures r.Failed? ==> !memory.Allows(old(lgCur) - 1 + LG_BUCKET_CELLS)
                            || Jammed(h, old(lgCur) - 1, old(tab[..]), draws.stream, fuel)
      ensures !memory.Allows(old(lgCur) - 1 + LG_BUCKET_CELLS) ==> r.Failed?
      ensures draws.stream == old(draws.stream)
    {
      if !memory.Allows(lgCur + LG_BUCKET_CELLS - 1) {
        return Failed;
      }
      r := SwapIn(lgCur - 1, fuel);
    }

    /** ckh_try_insert on this table: what is left over is again an item the table lacks. */
    method TryAdd(item: Item, fuel: nat) returns (t: Attempt, ghost hops: seq<Hop>)
      requires Valid() && !Has(item.key)
      modifies this, tab
      ensures Valid() && tab == old(tab) && lgCur == old(lgCur) && lgMin == old(lgMin)
      ensures t.Placed? ==> Contents() == old(Contents()) + multiset{Full(item)}
      ensures !t.Placed? ==>
              !Has(t.item.key) && Contents() + multiset{Full(t.item)} == old(Contents()) + multiset{Full(item)}
      ensures t.Cycle? ==> Full(item) in Contents() && Full(t.item) in old(Contents()) && t.item.key != item.key
      ensures !t.Placed? ==> |old(Contents())| >= BUCKET_CELLS
      ensures draws.stream == old(draws.stream)
      ensures Tried(h, lgCur, old(tab[..]), tab[..], item, old(draws), fuel, hops, t)
    {
      assert Housed(h, lgCur, tab[..]) by { assert Open(0); }
      t, count, draws, hops := TryInsert(h, lgCur, tab, count, item, draws, fuel);
      Added(h, lgCur, old(tab[..]), tab[..], item, t);
      if t.Cycle? {
        OldLeftOver(old(Contents()), Contents(), item, t.item);
      }
    }

    /** An attempt to add `item` to a table of `before` has come to `t`. */
    ghost predicate Adding(before: multiset<Cell>, item: Item, t: Attempt)
      reads this, tab
    {
      forall key {:trigger Looking(key)} :: Looking(key) ==>
        && Valid()
        && if t.Placed? then Contents() == before + multiset{Full(item)}
           else !Has(t.item.key) && Contents() + multiset{Full(t.item)} == before + multiset{Full(item)}
    }

    /** All keys have only the first bucket as their home, and all draws are zero. */
    ghost predicate AllFirst()
      reads this
    {
      (forall key :: h.h0(key) == h.h1(key) == 0) && forall n :: draws.stream(n) == 0
    }

    /** The loop of ckh_insert: the table grows, and the item in hand is tried again. */
    method Retry(hand: Item, memory: Memory, fuel: nat, ghost before: multiset<Cell>, ghost item: Item)
      returns (r: Outcome, t: Attempt)
      requires Adding(before, item, Cycle(hand))
      modifies this
      ensures r.Done? ==> Adding(before, item, t) && fresh(tab) && lgCur > old(lgCur)
      ensures r.Done? ==> memory.Allows(lgCur + LG_BUCKET_CELLS)
      ensures r.Failed? ==> Adding(before, item, Cycle(hand)) && tab == old(tab) && tab[..] == old(tab[..])
      ensures r.Failed? ==> lgCur == old(lgCur) && exists n :: n > old(lgCur) + LG_BUCKET_CELLS && !memory.Allows(n)
      ensures r.Failed? ==> Refused(h, draws.stream, tab[..], lgCur + 1, memory, fuel)
      ensures lgMin == old(lgMin) && draws.stream == old(draws.stream)
      ensures !memory.Allows(old(lgCur) + 1 + LG_BUCKET_CELLS) ==> r.Failed?
      ensures fuel > 0 && old(Lossy(memory, item, Cycle(hand))) ==>
                if r.Done? then Lossy(memory, item, t) else r.Failed? && hand == item
    {
      assert Looking(0);
      t := Cycle(hand);
      r := Grow(memory, fuel);
      if r.Done? {
        if h.h0(item.key) == h.h1(item.key) == 0 {
          ZeroHome(h, lgCur, item.key);
        }
        t := TryFirst(hand, fuel);
      }
    }

    /** ckh_try_insert again: where all keys and draws lead to the same cell, it evicts what is there. */
    method TryFirst(item: Item, fuel: nat) returns (t: Attempt)
      requires Valid() && !Has(item.key)
      modifies this, tab
      ensures Adding(old(Contents()), item, t) && tab == old(tab) && lgCur == old(lgCur) && lgMin == old(lgMin)
      ensures draws.stream == old(draws.stream)
      ensures fuel > 0 && old(AllFirst()) && |old(Contents())| == BUCKET_CELLS ==>
                t.Cycle? && old(tab[0]) == Full(t.item)
    {
      if AllFirst() && |Contents()| == BUCKET_CELLS {
        assert Housed(h, lgCur, tab[..]) by { assert Open(0); }
        AllTrapped(h, lgCur, tab[..], item);
        ZeroHome(h, lgCur, item.key);
      }
      ghost var hops;
      t, hops := TryAdd(item, fuel);
      if fuel > 0 && Trapped(h, lgCur, old(tab[..]), item) {
        assert Housed(h, lgCur, old(tab[..])) by { assert Open(0); }
        TriedTrapped(h, lgCur, old(tab[..]), tab[..], item, old(draws), fuel, hops, t);
      }
      assert Looking(0);
    }

    /** ckh_insert.  When it fails, one item is gone from the table: the one the caller's variables hold at the end. */
    method Insert(item: Item, memory: Memory, fuel: nat)
      returns (r: Outcome, hand: Item, ghost first: Attempt, ghost hops: seq<Hop>, ghost mid: seq<Cell>)
      requires Valid() && !Has(item.key)
      modifies this, tab
      ensures r.Done? ==> Valid() && Contents() == old(Contents()) + multiset{Full(item)}
      ensures r.Failed? ==> Valid() && Contents() + multiset{Full(hand)} == old(Contents()) + multiset{Full(item)}
      ensures r.Failed? ==> exists n :: n > old(lgCur) + LG_BUCKET_CELLS && !memory.Allows(n)
      ensures r.Failed? ==> |old(Contents())| >= BUCKET_CELLS
      ensures Tried(h, old(lgCur), old(tab[..]), mid, item, old(draws), fuel, hops, first)
      ensures first.Placed? ==> r.Done? && tab == old(tab) && tab[..] == mid && lgCur == old(lgCur)
      ensures !first.Placed? && r.Done? ==> lgCur > old(lgCur)
      ensures first.Cycle? && !r.Stuck? && lgCur == old(lgCur) ==> r.Failed? && tab[..] == mid && hand == first.item
      ensures r.Failed? ==> first.Cycle? && Refused(h, draws.stream, tab[..], lgCur + 1, memory, fuel)
      ensures !r.Stuck? ==> (tab == old(tab) || fresh(tab)) && lgCur >= old(lgCur) && lgMin == old(lgMin)
      ensures r.Failed? && !memory.Allows(old(lgCur) + 1 + LG_BUCKET_CELLS) ==> lgCur == old(lgCur)
      ensures r.Failed? && lgCur == old(lgCur) ==>
                Full(item) in Contents() && Full(hand) in old(Contents()) && hand.key != item.key
      ensures old(Trapped(h, lgCur, tab[..], item)) && !memory.Allows(old(lgCur) + 1 + LG_BUCKET_CELLS) && fuel > 0 ==>
                r.Failed?
      ensures old(Looping(memory)) && fuel > 0 ==> r.Failed? && hand == item
      ensures old(RoomFirst(h, lgCur, tab[..], item, draws, fuel)) ==> r.Done? && lgCur == old(lgCur) && tab == old(tab)
    {
      var t;
      t, hops := FirstTry(item, memory, fuel);
      first, mid := t, tab[..];
      hand := item;
      ghost var lossy := old(Looping(memory)) && fuel > 0;
      while !t.Placed?
        invariant Adding(old(Contents()), item, t) && (tab == old(tab) || fresh(tab)) && lgMin == old(lgMin)
        invariant old(lgCur) <= lgCur && (first.Placed? ==> t == first)
        invariant lgCur == old(lgCur) ==> t == first && tab == old(tab) && tab[..] == mid
        invariant lgCur > old(lgCur) ==> first.Cycle?
        invariant memory.Allows(old(lgCur) + 1 + LG_BUCKET_CELLS) || lgCur == old(lgCur)
        invariant lgCur == old(lgCur) && t.Cycle? ==> NewForOld(old(Contents()), item, t.item)
        invariant lossy ==> Lossy(memory, item, t)
        decreases memory.maxLgCells - lgCur
      {
        hand := t.item;
        if t.Running? {
          r := Stuck;
          return;
        }
        r, t := Retry(hand, memory, fuel, old(Contents()), item);
        if !r.Done? {
          assert Looking(0);
          return;
        }
      }
      assert Looking(0);
      r, hand := Done, item;
    }

    /** The new item is in the table, and an old one is out. */
    ghost predicate NewForOld(before: multiset<Cell>, item: Item, hand: Item)
      reads this, tab
    {
      Full(item) in Contents() && Full(hand) in before && hand.key != item.key
    }

    /** On the way to losing the new item: it is in the first cell, or it is the one left over after the table grew. */
    ghost predicate Lossy(memory: Memory, item: Item, t: Attempt)
      reads this, tab
    {
      t.Cycle? && forall key {:trigger Looking(key)} :: Looking(key) ==>
        && memory.Allows(1 + LG_BUCKET_CELLS) && !memory.Allows(2 + LG_BUCKET_CELLS) && tab.Length > 0
        && if lgCur == 0 then tab[0] == Full(item) && AllFirst() && |Contents()| == BUCKET_CELLS
           else lgCur == 1 && t == Cycle(item)
    }

    method FirstTry(item: Item, memory: Memory, fuel: nat) returns (t: Attempt, ghost hops: seq<Hop>)
      requires Valid() && !Has(item.key)
      modifies this, tab
      ensures Adding(old(Contents()), item, t) && tab == old(tab) && lgCur == old(lgCur) && lgMin == old(lgMin)
      ensures t.Cycle? ==> NewForOld(old(Contents()), item, t.item)
      ensures !t.Placed? ==> |old(Contents())| >= BUCKET_CELLS
      ensures fuel > 0 && old(Trapped(h, lgCur, tab[..], item)) ==> t.Cycle?
      ensures fuel > 0 && old(Looping(memory)) ==> Lossy(memory, item, t)
      ensures old(RoomFirst(h, lgCur, tab[..], item, draws, fuel)) ==> t.Placed?
      ensures Tried(h, lgCur, old(tab[..]), tab[..], item, old(draws), fuel, hops, t)
    {
      if Looping(memory) {
        OneBucket(h, tab[..], item);
        ZeroHome(h, 0, item.key);
      }
      t, hops := TryAdd(item, fuel);
      if fuel > 0 && Trapped(h, lgCur, old(tab[..]), item) {
        assert Housed(h, lgCur, old(tab[..])) by { assert Open(0); }
        TriedTrapped(h, lgCur, old(tab[..]), tab[..], item, old(draws), fuel, hops, t);
      }
      if RoomFirst(h, lgCur, old(tab[..]), item, old(draws), fuel) {
        TriedRoom(h, lgCur, old(tab[..]), tab[..], item, old(draws), fuel, hops, t);
      }
      assert Looking(0);
      if !t.Placed? {
        assert |Contents() + multiset{Full(t.item)}| == |Contents()| + 1;
        assert |old(Contents()) + multiset{Full(item)}| == |old(Contents())| + 1;
      }
    }

    /** A full table of one bucket, which can grow once, and then all keys and draws lead to the same cell. */
    ghost predicate Looping(memory: Memory)
      reads this, tab
    {
      && lgCur == 0 && tab.Length == BUCKET_CELLS && BucketFull(tab[..], 0) && AllFirst()
      && memory.Allows(1 + LG_BUCKET_CELLS) && !memory.Allows(2 + LG_BUCKET_CELLS)
    }

    /** ckh_remove. */
    method Remove(key: int, memory: Memory, fuel: nat) returns (removed: Cell, stuck: bool)
      requires Valid()
      modifies this, tab
      ensures removed.Empty? <==> old(!Has(key))
      ensures removed.Empty? ==>
              !stuck && tab == old(tab) && tab[..] == old(tab[..]) && lgCur == old(lgCur) && count == old(count)
      ensures removed.Full? ==> removed.item.key == key && removed in old(Contents())
      ensures !stuck ==> Valid() && lgMin == old(lgMin) && (tab == old(tab) || fresh(tab))
      ensures removed.Full? && !stuck ==> Contents() == old(Contents()) - multiset{removed} && !Has(key)
      ensures removed.Full? && !stuck && lgCur == old(lgCur) ==>
                || count >= Pow2(lgCur) || lgCur == lgMin || !memory.Allows(lgCur - 1 + LG_BUCKET_CELLS)
                || Jammed(h, lgCur - 1, tab[..], draws.stream, fuel)
      ensures removed.Full? && !stuck && lgCur != old(lgCur) ==>
                lgCur == old(lgCur) - 1 >= lgMin && count < Pow2(old(lgCur)) && memory.Allows(lgCur + LG_BUCKET_CELLS)
    {
      var found, cell := Find(key);
      if !found {
        return Empty, false;
      }
      removed := tab[cell];
      Vacate(cell);
      stuck := ShrinkIfSparse(memory, fuel);
    }

    /** The item in the cell leaves the table. */
    method Vacate(cell: nat)
      requires Valid() && cell < tab.Length && tab[cell].Full?
      modifies this`count, tab
      ensures Valid() && count == old(count) - 1 && Contents() == old(Contents()) - multiset{old(tab[cell])}
      ensures old(tab[cell]) in old(Contents()) && !Has(old(tab[cell]).item.key)
    {
      assert Open(0);
      Removed(h, lgCur, tab[..], cell);
      tab[cell] := Empty;
      assert tab[..] == old(tab[..])[cell := Empty];
      count := count - 1;
    }

    /** The end of ckh_remove: a table less than a quarter full is halved, if it may be and can be. */
    method ShrinkIfSparse(memory: Memory, fuel: nat) returns (stuck: bool)
      requires Valid()
      modifies this
      ensures lgMin == old(lgMin)
      ensures !stuck ==> Valid() && Contents() == old(Contents()) && (tab == old(tab) || fresh(tab))
      ensures !stuck && lgCur == old(lgCur) ==>
                || count >= Pow2(lgCur) || lgCur == lgMin || !memory.Allows(lgCur - 1 + LG_BUCKET_CELLS)
                || Jammed(h, lgCur - 1, tab[..], draws.stream, fuel)
      ensures !stuck && lgCur != old(lgCur) ==>
                lgCur == old(lgCur) - 1 >= lgMin && count < Pow2(old(lgCur)) && memory.Allows(lgCur + LG_BUCKET_CELLS)
    {
      stuck := false;
      if count < Pow2(lgCur + LG_BUCKET_CELLS - 2) && lgCur > lgMin {
        var r := Shrink(memory, fuel);
        stuck := r.Stuck?;
      }
    }
  }

  lemma ZeroHome(h: Hash, lg: nat, key: int)
    requires h.h0(key) == h.h1(key) == 0
    ensures Bucket0(h, lg, key) == Bucket1(h, lg, key) == 0
  {
  }

  lemma RestEmpty(h: Hash, lg: nat, s: seq<Cell>)
    requires |s| == BUCKET_CELLS * Pow2(lg) && Housed(h, lg, s) && forall key :: h.h0(key) == h.h1(key) == 0
    ensures Items(s) == Items(s[..BUCKET_CELLS])
  {
    var first, rest := s[..BUCKET_CELLS], s[BUCKET_CELLS..];
    forall i | 0 <= i < |rest| ensures rest[i] == Empty {
      var c := BUCKET_CELLS + i;
      if s[c].Full? {
        ZeroHome(h, lg, s[c].item.key);
      }
    }
    ItemsNone(rest);
    assert s == first + rest;
  }

  /** Where all keys have the first bucket as their only home, four items fill it. */
  lemma AllTrapped(h: Hash, lg: nat, s: seq<Cell>, item: Item)
    requires |s| == BUCKET_CELLS * Pow2(lg) && Housed(h, lg, s) && |Items(s)| == BUCKET_CELLS
    requires forall key :: h.h0(key) == h.h1(key) == 0
    ensures Trapped(h, lg, s, item)
  {
    RestEmpty(h, lg, s);
    NoneEmpty(s[..BUCKET_CELLS]);
    ZeroHome(h, lg, item.key);
    forall c | 0 <= c < BUCKET_CELLS ensures s[c].Full? && !TwoHomes(h, lg, s[c].item.key) {
      assert s[c] == s[..BUCKET_CELLS][c];
      ZeroHome(h, lg, s[c].item.key);
    }
  }

  lemma NoneEmpty(s: seq<Cell>)
    requires |Items(s)| == |s|
    ensures forall i :: 0 <= i < |s| ==> s[i].Full?
  {
    assert multiset(s)[Empty := 0] + multiset{}[Empty := multiset(s)[Empty]] == multiset(s);
    assert |multiset(s)| == |s|;
  }

  /** A full table of one bucket has four items, and each is trapped there. */
  lemma OneBucket(h: Hash, s: seq<Cell>, item: Item)
    requires |s| == BUCKET_CELLS && BucketFull(s, 0)
    ensures Trapped(h, 0, s, item) && |Items(s)| == BUCKET_CELLS
  {
    TrappedSingle(h, s, item);
    assert Empty !in s;
    assert Items(s) == multiset(s);
  }

  lemma LeftOver(ms: multiset<Cell>, x: Item, all: multiset<Cell>)
    requires ms + multiset{Full(x)} == all && Distinct(all)
    ensures !HasKey(ms, x.key)
  {
    forall c | c in ms && c.Full?
      ensures c.item.key != x.key
    {
      assert all[Full(c.item)] >= 1 && all[Full(x)] >= 1;
    }
  }

  lemma {:induction false} Pow2Grows(a: nat, b: nat)
    requires a <= b
    ensures Pow2(a) <= Pow2(b)
  {
    if a < b {
      Pow2Grows(a, b - 1);
    }
  }

  lemma SizedOnce(minItems: nat, a: nat, b: nat)
    requires SizedFor(minItems, a) && SizedFor(minItems, b)
    ensures a == b
  {
    if a < b {
      Pow2Grows(a, b - 1);
    } else if b < a {
      Pow2Grows(b, a - 1);
    }
  }

  lemma CellsOf(lg: nat)
    ensures Pow2(lg + LG_BUCKET_CELLS) == BUCKET_CELLS * Pow2(lg)
  {
    assert Pow2(lg + 2) == 2 * Pow2(lg + 1) == 4 * Pow2(lg);
  }

  lemma Removed(h: Hash, lg: nat, s: seq<Cell>, c: nat)
    requires c < |s| && s[c].Full? && Housed(h, lg, s) && Distinct(Items(s))
    ensures Housed(h, lg, s[c := Empty])
    ensures Items(s[c := Empty]) == Items(s) - multiset{s[c]} && s[c] in Items(s)
    ensures |Items(s[c := Empty])| == |Items(s)| - 1
    ensures Distinct(Items(s[c := Empty]))
    ensures !HasKey(Items(s[c := Empty]), s[c].item.key)
  {
    ItemsUpdate(s, c, Empty);
    assert s[c] in s;
    assert Items([s[c]]) == multiset{s[c]} && Items([Empty]) == multiset{};
    DistinctSub(Items(s[c := Empty]), Items(s));
    forall x | x in Items(s[c := Empty]) && x.Full?
      ensures x.item.key != s[c].item.key
    {
      assert Items(s)[Full(x.item)] >= 1 && Items(s)[Full(s[c].item)] >= 1;
    }
  }
}
