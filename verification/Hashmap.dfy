/** The chained hash map of libcutils/hashmap.cpp, with strings for keys and values.

    The hash of a key, after the secondary mixing, is a function of the key; keys are equal when the strings are.
    A chain is the sequence of its entries.
 */
module Hashmap {
  import opened Basics
  import opened Arith

  datatype Entry = Entry(key: string, hash: int, value: string)

  datatype Hash = Hash(of: string -> int)

  /** calculateIndex: masking a sign-extended hash with a power of two less one is the remainder. */
  function Index(hash: int, n: nat): (i: nat)
    requires n >= 1
    ensures i < n
  {
    hash % n
  }

  /** The entry belongs in chain `i` of `n` and is in the map. */
  ghost predicate Stored(h: Hash, n: nat, i: nat, m: map<string, string>, e: Entry)
    requires n >= 1
  {
    e.hash == h.of(e.key) && Index(e.hash, n) == i && e.key in m && m[e.key] == e.value
  }

  ghost predicate KeysDiffer(chain: seq<Entry>)
  {
    forall j, k {:trigger chain[j], chain[k]} :: 0 <= j < k < |chain| ==> chain[j].key != chain[k].key
  }

  /** Chain `i` holds exactly the entries of the map that belong there, once each. */
  ghost predicate ChainOk(h: Hash, n: nat, i: nat, m: map<string, string>, chain: seq<Entry>)
    requires n >= 1
  {
    && KeysDiffer(chain)
    && (forall e {:trigger e in chain} :: e in chain <==> Stored(h, n, i, m, e))
  }

  /** The chains hold exactly the entries of the map. */
  ghost predicate TableOk(h: Hash, t: seq<seq<Entry>>, m: map<string, string>)
  {
    && |t| >= 1
    && (forall key {:trigger Open(key)} :: Open(key) ==>
          forall i {:trigger t[i]} :: 0 <= i < |t| ==> ChainOk(h, |t|, i, m, t[i]))
  }

  lemma ChainOf(h: Hash, t: seq<seq<Entry>>, m: map<string, string>, i: nat)
    requires TableOk(h, t, m) && i < |t|
    ensures ChainOk(h, |t|, i, m, t[i])
  {
    assert Open(0);
  }

  // ---------------------------------------------------------------- changes to a chain

  lemma ChainOther(h: Hash, n: nat, i: nat, m: map<string, string>, chain: seq<Entry>, key: string, value: string)
    requires n >= 1 && ChainOk(h, n, i, m, chain) && i != Index(h.of(key), n)
    ensures ChainOk(h, n, i, m[key := value], chain) && ChainOk(h, n, i, m - {key}, chain)
  {
  }

  lemma ChainReplace(h: Hash, n: nat, i: nat, m: map<string, string>, chain: seq<Entry>, j: nat, value: string)
    requires n >= 1 && ChainOk(h, n, i, m, chain) && j < |chain|
    ensures ChainOk(h, n, i, m[chain[j].key := value], chain[j := chain[j].(value := value)])
  {
    var key, c := chain[j].key, chain[j := chain[j].(value := value)];
    assert chain[j] in chain;
    forall e
      ensures e in c <==> Stored(h, n, i, m[key := value], e)
    {
      if e in c {
        var k :| 0 <= k < |c| && c[k] == e;
        assert chain[k] in chain;
      }
      if Stored(h, n, i, m[key := value], e) {
        if e.key == key {
          assert e == c[j];
        } else {
          assert e in chain;
          var k :| 0 <= k < |chain| && chain[k] == e;
          assert c[k] == e;
        }
      }
    }
  }

  lemma ChainAppend(h: Hash, n: nat, i: nat, m: map<string, string>, chain: seq<Entry>, key: string, value: string)
    requires n >= 1 && ChainOk(h, n, i, m, chain) && i == Index(h.of(key), n) && key !in m
    ensures ChainOk(h, n, i, m[key := value], chain + [Entry(key, h.of(key), value)])
  {
    var e, c := Entry(key, h.of(key), value), chain + [Entry(key, h.of(key), value)];
    assert forall x :: x in c <==> x in chain || x == e;
    forall j | 0 <= j < |chain|
      ensures chain[j].key != key
    {
      assert chain[j] in chain;
    }
  }

  lemma ChainRemove(h: Hash, n: nat, i: nat, m: map<string, string>, chain: seq<Entry>, j: nat)
    requires n >= 1 && ChainOk(h, n, i, m, chain) && j < |chain|
    ensures ChainOk(h, n, i, m - {chain[j].key}, chain[..j] + chain[j + 1..])
  {
    var key, c := chain[j].key, chain[..j] + chain[j + 1..];
    assert chain == chain[..j] + [chain[j]] + chain[j + 1..];
    assert forall x :: x in chain <==> x in c || x == chain[j];
    forall x | x in c
      ensures x.key != key
    {
      var k :| 0 <= k < |c| && c[k] == x;
      assert x == chain[if k < j then k else k + 1];
    }
  }

  /** A key that no entry of its chain has is not in the map. */
  lemma ChainLacks(h: Hash, n: nat, m: map<string, string>, chain: seq<Entry>, key: string)
    requires n >= 1 && ChainOk(h, n, Index(h.of(key), n), m, chain) && forall j :: 0 <= j < |chain| ==>
             chain[j].key != key
    ensures key !in m
  {
    var e := Entry(key, h.of(key), if key in m then m[key] else "");
    assert e !in chain;
  }

  // ---------------------------------------------------------------- changes to the table

  lemma TablePut(h: Hash, t: seq<seq<Entry>>, m: map<string, string>, key: string, value: string, chain: seq<Entry>)
    requires TableOk(h, t, m) && ChainOk(h, |t|, Index(h.of(key), |t|), m[key := value], chain)
    ensures TableOk(h, t[Index(h.of(key), |t|) := chain], m[key := value])
  {
    assert Open(0);
    var t' := t[Index(h.of(key), |t|) := chain];
    forall i | 0 <= i < |t|
      ensures ChainOk(h, |t|, i, m[key := value], t'[i])
    {
      if i != Index(h.of(key), |t|) {
        ChainOther(h, |t|, i, m, t[i], key, value);
      }
    }
  }

  lemma TableDelete(h: Hash, t: seq<seq<Entry>>, m: map<string, string>, key: string, chain: seq<Entry>)
    requires TableOk(h, t, m) && ChainOk(h, |t|, Index(h.of(key), |t|), m - {key}, chain)
    ensures TableOk(h, t[Index(h.of(key), |t|) := chain], m - {key})
  {
    assert Open(0);
    var t' := t[Index(h.of(key), |t|) := chain];
    forall i | 0 <= i < |t|
      ensures ChainOk(h, |t|, i, m - {key}, t'[i])
    {
      if i != Index(h.of(key), |t|) {
        ChainOther(h, |t|, i, m, t[i], key, "");
      }
    }
  }

  lemma TableEmpty(h: Hash, t: seq<seq<Entry>>)
    requires |t| >= 1 && forall i :: 0 <= i < |t| ==> t[i] == []
    ensures TableOk(h, t, map[])
  {
  }

  /** Pushing an entry with a new key onto the front of its chain. */
  lemma TablePush(h: Hash, t: seq<seq<Entry>>, m: map<string, string>, e: Entry)
    requires TableOk(h, t, m) && e.hash == h.of(e.key) && e.key !in m
    ensures TableOk(h, t[Index(e.hash, |t|) := [e] + t[Index(e.hash, |t|)]], m[e.key := e.value])
  {
    var i := Index(e.hash, |t|);
    var c := [e] + t[i];
    ChainOf(h, t, m, i);
    assert forall x :: x in c <==> x in t[i] || x == e;
    forall j | 0 <= j < |t[i]|
      ensures t[i][j].key != e.key
    {
      assert t[i][j] in t[i];
    }
    TablePut(h, t, m, e.key, e.value, c);
  }

  // ---------------------------------------------------------------- moving all entries to a larger table

  /** The entries of chains 0 up to `i`, and the first `j` of chain `i`, are in `done`. */
  ghost predicate Moved(h: Hash, t: seq<seq<Entry>>, m: map<string, string>, i: nat, j: nat, done: map<string, string>)
    requires |t| >= 1 && i <= |t| && (i < |t| ==> j <= |t[i]|)
  {
    && (forall k {:trigger k in done} :: k in done ==> k in m && done[k] == m[k])
    && (forall k {:trigger k in m} :: k in m && Index(h.of(k), |t|) < i ==> k in done)
    && (forall k {:trigger k in done} :: k in done ==> Index(h.of(k), |t|) < i || (Index(h.of(k), |t|) == i && i < |t|))
    && (i < |t| ==> forall x {:trigger t[i][x]} :: 0 <= x < |t[i]| ==> (t[i][x].key in done <==> x < j))
  }

  lemma MovedStep(h: Hash, t: seq<seq<Entry>>, m: map<string, string>, i: nat, j: nat, done: map<string, string>)
    requires TableOk(h, t, m) && i < |t| && j < |t[i]| && Moved(h, t, m, i, j, done)
    ensures t[i][j].key !in done && t[i][j].hash == h.of(t[i][j].key)
    ensures Moved(h, t, m, i, j + 1, done[t[i][j].key := t[i][j].value])
  {
    ChainOf(h, t, m, i);
    assert t[i][j] in t[i];
    assert forall x :: 0 <= x < |t[i]| && x != j ==> t[i][x].key != t[i][j].key;
  }

  lemma MovedChain(h: Hash, t: seq<seq<Entry>>, m: map<string, string>, i: nat, done: map<string, string>)
    requires TableOk(h, t, m) && i < |t| && Moved(h, t, m, i, |t[i]|, done)
    ensures Moved(h, t, m, i + 1, 0, done)
  {
    ChainOf(h, t, m, i);
    forall k | k in m && Index(h.of(k), |t|) < i + 1
      ensures k in done
    {
      if Index(h.of(k), |t|) == i {
        var e := Entry(k, h.of(k), m[k]);
        assert Stored(h, |t|, i, m, e) && e in t[i];
        var x :| 0 <= x < |t[i]| && t[i][x] == e;
      }
    }
    if i + 1 < |t| {
      ChainOf(h, t, m, i + 1);
      var c := t[i + 1];
      forall x | 0 <= x < |c|
        ensures c[x].key !in done
      {
        assert c[x] in c;
      }
    }
  }

  lemma MovedAll(h: Hash, t: seq<seq<Entry>>, m: map<string, string>, done: map<string, string>)
    requires TableOk(h, t, m) && Moved(h, t, m, |t|, 0, done)
    ensures done == m
  {
    assert forall k :: k in m ==> Index(h.of(k), |t|) < |t|;
  }

  // ---------------------------------------------------------------- the map

  class Map {
    const h: Hash
    var buckets: array<seq<Entry>>
    var size: nat
    ghost var lg: nat
    ghost var contents: map<string, string>

    ghost predicate Valid()
      reads this, buckets
    {
      buckets.Length == Pow2(lg) && TableOk(h, buckets[..], contents) && size == |contents|
    }

    /** hashmapCreate: more than four thirds of the capacity, rounded up to a power of two. */
    constructor (hash: Hash, initialCapacity: nat)
      ensures Valid() && fresh(buckets) && contents == map[] && h == hash
      ensures initialCapacity * 4 / 3 < buckets.Length <= 1 + 2 * (initialCapacity * 4 / 3)
    {
      var minimum := initialCapacity * 4 / 3;
      var n, k := 1, 0;
      while n <= minimum
        invariant n == Pow2(k) && 1 <= n <= 1 + 2 * minimum
        decreases minimum - n
      {
        n, k := 2 * n, k + 1;
      }
      h, size, lg, contents := hash, 0, k, map[];
      buckets := new seq<Entry>[n](_ => []);
      new;
      TableEmpty(h, buckets[..]);
    }

    /** The position of a key in its chain, or the length of the chain. */
    method Walk(key: string) returns (i: nat, j: nat)
      requires Valid()
      ensures i == Index(h.of(key), buckets.Length) && j <= |buckets[i]|
      ensures j < |buckets[i]| ==> buckets[i][j].key == key && key in contents && contents[key] == buckets[i][j].value
      ensures j == |buckets[i]| ==> key !in contents
    {
      var hash := h.of(key);
      i, j := Index(hash, buckets.Length), 0;
      ChainOf(h, buckets[..], contents, i);
      while j < |buckets[i]| && !(buckets[i][j].hash == hash && buckets[i][j].key == key)
        invariant j <= |buckets[i]|
        invariant forall k :: 0 <= k < j ==> buckets[i][k].key != key
      {
        assert buckets[i][j] in buckets[i];
        j := j + 1;
      }
      if j < |buckets[i]| {
        assert buckets[i][j] in buckets[i];
      } else {
        ChainLacks(h, buckets.Length, contents, buckets[i], key);
      }
    }

    /** hashmapGet. */
    method Get(key: string) returns (r: Option<string>)
      requires Valid()
      ensures r == if key in contents then Some(contents[key]) else None
    {
      var i, j := Walk(key);
      return if j < |buckets[i]| then Some(buckets[i][j].value) else None;
    }

    /** expandIfNecessary: above three quarters, every entry moves to a table of twice the size. */
    method ExpandIfNecessary(granted: bool)
      requires Valid()
      modifies this
      ensures Valid() && contents == old(contents) && (buckets == old(buckets) || fresh(buckets))
      ensures if granted && old(size) > old(buckets.Length) * 3 / 4
              then fresh(buckets) && buckets.Length == 2 * old(buckets.Length) else buckets == old(buckets)
    {
      if size <= buckets.Length * 3 / 4 || !granted {
        return;
      }
      var bigger := Rehash();
      buckets, lg := bigger, lg + 1;
    }

    method Rehash() returns (bigger: array<seq<Entry>>)
      requires Valid()
      ensures fresh(bigger) && bigger.Length == 2 * buckets.Length && TableOk(h, bigger[..], contents)
    {
      bigger := new seq<Entry>[2 * buckets.Length](_ => []);
      TableEmpty(h, bigger[..]);
      ghost var done: map<string, string> := map[];
      ghost var t := buckets[..];
      FirstMoved(h, t, contents);
      var i := 0;
      while i < buckets.Length
        invariant 0 <= i <= buckets.Length && Moved(h, t, contents, i, 0, done) && TableOk(h, bigger[..], done)
      {
        done := MoveChain(bigger, i, done);
        i := i + 1;
      }
      MovedAll(h, t, contents, done);
    }

    method MoveChain(bigger: array<seq<Entry>>, i: nat, ghost before: map<string, string>)
      returns (ghost done: map<string, string>)
      requires Valid() && i < buckets.Length && bigger != buckets && Moved(h, buckets[..], contents, i, 0, before)
      requires TableOk(h, bigger[..], before)
      modifies bigger
      ensures Moved(h, buckets[..], contents, i + 1, 0, done) && TableOk(h, bigger[..], done)
    {
      done := before;
      ghost var t := buckets[..];
      var chain, j := buckets[i], 0;
      while j < |chain|
        invariant 0 <= j <= |chain| && Moved(h, t, contents, i, j, done) && TableOk(h, bigger[..], done)
      {
        var e := chain[j];
        MovedStep(h, t, contents, i, j, done);
        TablePush(h, bigger[..], done, e);
        var index := Index(e.hash, bigger.Length);
        ghost var was := bigger[..];
        bigger[index] := [e] + bigger[index];
        assert bigger[..] == was[index := [e] + was[index]];
        done := done[e.key := e.value];
        j := j + 1;
      }
      MovedChain(h, t, contents, i, done);
    }

    /** hashmapPut.  `entryGranted` and `tableGranted` say whether memory for an entry and a larger table is there. */
    method Put(key: string, value: string, entryGranted: bool, tableGranted: bool)
      returns (old_: Option<string>, failed: bool)
      requires Valid()
      modifies this, buckets
      ensures Valid() && (buckets == old(buckets) || fresh(buckets))
      ensures failed <==> key !in old(contents) && !entryGranted
      ensures contents == if failed then old(contents) else old(contents)[key := value]
      ensures old_ == if key in old(contents) then Some(old(contents)[key]) else None
      ensures if key !in old(contents) && entryGranted && tableGranted && old(size) + 1 > old(buckets.Length) * 3 / 4
              then buckets.Length == 2 * old(buckets.Length) else buckets == old(buckets)
    {
      var i, j := Walk(key);
      ghost var t := buckets[..];
      ChainOf(h, t, contents, i);
      failed, old_ := false, None;
      if j < |buckets[i]| {
        old_ := Some(buckets[i][j].value);
        ChainReplace(h, |t|, i, contents, t[i], j, value);
        TablePut(h, t, contents, key, value, t[i][j := t[i][j].(value := value)]);
        buckets[i] := buckets[i][j := buckets[i][j].(value := value)];
        assert buckets[..] == t[i := t[i][j := t[i][j].(value := value)]];
        contents := contents[key := value];
      } else if !entryGranted {
        failed := true;
      } else {
        ChainAppend(h, |t|, i, contents, t[i], key, value);
        TablePut(h, t, contents, key, value, t[i] + [Entry(key, h.of(key), value)]);
        buckets[i] := buckets[i] + [Entry(key, h.of(key), value)];
        assert buckets[..] == t[i := t[i] + [Entry(key, h.of(key), value)]];
        contents := contents[key := value];
        size := size + 1;
        ExpandIfNecessary(tableGranted);
      }
    }

    /** hashmapForEach with a callback that only looks: the pairs that it sees, chain by chain. */
    method ForEach() returns (ps: seq<Pair>)
      requires Valid()
      ensures Lists(ps, contents)
    {
      ps := [];
      ghost var done: map<string, string> := map[];
      ghost var t := buckets[..];
      FirstMoved(h, t, contents);
      var i := 0;
      while i < buckets.Length
        invariant 0 <= i <= buckets.Length && Moved(h, t, contents, i, 0, done) && Lists(ps, done)
      {
        var j := 0;
        while j < |buckets[i]|
          invariant 0 <= j <= |buckets[i]| && Moved(h, t, contents, i, j, done) && Lists(ps, done)
        {
          var e := buckets[i][j];
          MovedStep(h, t, contents, i, j, done);
          ListsAdd(ps, done, Pair(e.key, e.value));
          ps := ps + [Pair(e.key, e.value)];
          done := done[e.key := e.value];
          j := j + 1;
        }
        MovedChain(h, t, contents, i, done);
        i := i + 1;
      }
      MovedAll(h, t, contents, done);
    }

    /** hashmapForEach with a callback that may remove the entry it is called with, and may stop.  The next entry is
        read before the call, so removing this one does not disturb the walk: it visits the chain as it was. */
    method ForEachWith(callback: Pair -> Verdict) returns (ps: seq<Pair>, ghost seen: map<string, string>)
      requires Valid()
      modifies this, buckets
      ensures Valid() && Lists(ps, seen) && forall k :: k in seen ==> k in old(contents) && seen[k] == old(contents)[k]
      ensures forall i :: 0 <= i < |ps| - 1 ==> callback(ps[i]).goOn
      ensures ps == [] || callback(ps[|ps| - 1]).goOn ==> seen == old(contents)
      ensures contents == old(contents) - Dropped(ps, callback)
    {
      ps, seen := [], map[];
      ghost var t, m := buckets[..], contents;
      FirstMoved(h, t, m);
      assert m - Dropped(ps, callback) == m;
      var i, goOn := 0, true;
      while i < buckets.Length && goOn
        invariant 0 <= i <= buckets.Length == |t| && Valid() && buckets == old(buckets)
        invariant goOn ==> forall k :: i <= k < |t| ==> buckets[k] == t[k]
        invariant contents == m - Dropped(ps, callback)
        invariant Walked(ps, m, seen, callback, goOn) && (goOn ==> Moved(h, t, m, i, 0, seen))
      {
        ps, seen, goOn := VisitChain(callback, i, ps, t, m, seen);
        i := i + 1;
      }
      if goOn {
        MovedAll(h, t, m, seen);
      }
      WalkedFacts(ps, m, seen, callback, goOn);
    }

    method VisitChain(callback: Pair -> Verdict, i: nat, before: seq<Pair>, ghost t: seq<seq<Entry>>,
                      ghost m: map<string, string>, ghost seenBefore: map<string, string>)
      returns (ps: seq<Pair>, ghost seen: map<string, string>, goOn: bool)
      requires Valid() && TableOk(h, t, m) && i < buckets.Length == |t| && buckets[i] == t[i]
      requires Moved(h, t, m, i, 0, seenBefore) && Walked(before, m, seenBefore, callback, true)
      requires contents == m - Dropped(before, callback)
      modifies this, buckets
      ensures Valid() && buckets == old(buckets)
      ensures forall k :: 0 <= k < |t| && k != i ==> buckets[k] == old(buckets[k])
      ensures contents == m - Dropped(ps, callback) && Walked(ps, m, seen, callback, goOn)
      ensures goOn ==> Moved(h, t, m, i + 1, 0, seen)
    {
      ps, seen, goOn := before, seenBefore, true;
      var chain, j := buckets[i], 0;
      while j < |chain| && goOn
        invariant 0 <= j <= |chain| && chain == t[i] && Valid() && buckets == old(buckets)
        invariant forall k :: 0 <= k < |t| && k != i ==> buckets[k] == old(buckets[k])
        invariant Moved(h, t, m, i, j, seen) && Walked(ps, m, seen, callback, goOn)
                  && contents == m - Dropped(ps, callback)
      {
        var e := chain[j];
        var p := Pair(e.key, e.value);
        WalkedStep(h, t, m, i, j, ps, seen, callback);
        goOn := callback(p).goOn;
        if callback(p).remove {
          var r := Remove(e.key);
        }
        ps, seen, j := ps + [p], seen[e.key := e.value], j + 1;
      }
      if goOn {
        MovedChain(h, t, m, i, seen);
      }
    }

    /** hashmapRemove. */
    method Remove(key: string) returns (r: Option<string>)
      requires Valid()
      modifies this, buckets
      ensures Valid() && buckets == old(buckets) && contents == old(contents) - {key}
      ensures forall k :: 0 <= k < buckets.Length && k != Index(h.of(key), buckets.Length) ==>
              buckets[k] == old(buckets[k])
      ensures r == if key in old(contents) then Some(old(contents)[key]) else None
    {
      var i, j := Walk(key);
      ghost var t := buckets[..];
      if j == |buckets[i]| {
        assert contents - {key} == contents;
        return None;
      }
      r := Some(buckets[i][j].value);
      ChainOf(h, t, contents, i);
      ChainRemove(h, |t|, i, contents, t[i], j);
      TableDelete(h, t, contents, key, t[i][..j] + t[i][j + 1..]);
      buckets[i] := buckets[i][..j] + buckets[i][j + 1..];
      assert buckets[..] == t[i := t[i][..j] + t[i][j + 1..]];
      Smaller(contents, key);
      contents := contents - {key};
      size := size - 1;
    }
  }

  // ---------------------------------------------------------------- visiting every entry

  /** What a callback does: whether it removes the entry that it is called with, and whether it asks for more. */
  datatype Verdict = Verdict(remove: bool, goOn: bool)

  /** The keys that the callback removed. */
  ghost function Dropped(ps: seq<Pair>, callback: Pair -> Verdict): set<string>
  {
    set p | p in ps && callback(p).remove :: p.key
  }

  lemma DroppedAdd(ps: seq<Pair>, callback: Pair -> Verdict, p: Pair, m: map<string, string>)
    ensures m - Dropped(ps + [p], callback)
         == if callback(p).remove then m - Dropped(ps, callback) - {p.key} else m - Dropped(ps, callback)
  {
    assert forall x :: x in ps + [p] <==> x in ps || x == p;
    assert Dropped(ps + [p], callback) == Dropped(ps, callback) + if callback(p).remove then {p.key} else {};
  }

  datatype Pair = Pair(key: string, value: string)

  /** The pairs of a map, each once, in some order. */
  ghost predicate Lists(ps: seq<Pair>, m: map<string, string>)
  {
    && (forall i, j {:trigger ps[i], ps[j]} :: 0 <= i < j < |ps| ==> ps[i].key != ps[j].key)
    && (forall p {:trigger p in ps} :: p in ps <==> p.key in m && m[p.key] == p.value)
  }

  lemma ListsAdd(ps: seq<Pair>, m: map<string, string>, p: Pair)
    requires Lists(ps, m) && p.key !in m
    ensures Lists(ps + [p], m[p.key := p.value])
  {
    assert forall x :: x in ps + [p] <==> x in ps || x == p;
    assert forall i :: 0 <= i < |ps| ==> ps[i] in ps;
  }

  /** The callback saw these pairs, and asked for more each time, but perhaps the last. */
  ghost predicate Walked(ps: seq<Pair>, m: map<string, string>, seen: map<string, string>, callback: Pair -> Verdict,
                         goOn: bool)
  {
    forall key {:trigger Open(key)} :: Open(key) ==>
      && Lists(ps, seen) && (forall k {:trigger k in seen} :: k in seen ==> k in m && seen[k] == m[k])
      && (forall i :: 0 <= i < |ps| - 1 ==> callback(ps[i]).goOn)
      && if goOn then ps == [] || callback(ps[|ps| - 1]).goOn else ps != [] && !callback(ps[|ps| - 1]).goOn
  }

  lemma WalkedFacts(ps: seq<Pair>, m: map<string, string>, seen: map<string, string>, callback: Pair -> Verdict,
                    goOn: bool)
    requires Walked(ps, m, seen, callback, goOn)
    ensures Lists(ps, seen) && forall k :: k in seen ==> k in m && seen[k] == m[k]
    ensures forall i :: 0 <= i < |ps| - 1 ==> callback(ps[i]).goOn
    ensures if goOn then ps == [] || callback(ps[|ps| - 1]).goOn else ps != [] && !callback(ps[|ps| - 1]).goOn
  {
    assert Open(0);
  }

  lemma WalkedStep(h: Hash, t: seq<seq<Entry>>, m: map<string, string>, i: nat, j: nat, ps: seq<Pair>,
                   seen: map<string, string>, callback: Pair -> Verdict)
    requires TableOk(h, t, m) && i < |t| && j < |t[i]| && Moved(h, t, m, i, j, seen)
             && Walked(ps, m, seen, callback, true)
    ensures var e := t[i][j];
            var p := Pair(e.key, e.value);
            && Moved(h, t, m, i, j + 1, seen[e.key := e.value])
            && Walked(ps + [p], m, seen[e.key := e.value], callback, callback(p).goOn)
            && Index(h.of(e.key), |t|) == i
            && m - Dropped(ps + [p], callback)
               == (if callback(p).remove then m - Dropped(ps, callback) - {e.key} else m - Dropped(ps, callback))
  {
    assert Open(0);
    var p := Pair(t[i][j].key, t[i][j].value);
    MovedStep(h, t, m, i, j, seen);
    ListsAdd(ps, seen, p);
    DroppedAdd(ps, callback, p, m);
    InChain(h, t, m, i, j);
  }

  lemma InChain(h: Hash, t: seq<seq<Entry>>, m: map<string, string>, i: nat, j: nat)
    requires TableOk(h, t, m) && i < |t| && j < |t[i]|
    ensures Index(h.of(t[i][j].key), |t|) == i
  {
    ChainOf(h, t, m, i);
    assert t[i][j] in t[i];
  }

  lemma FirstMoved(h: Hash, t: seq<seq<Entry>>, m: map<string, string>)
    requires |t| >= 1
    ensures Moved(h, t, m, 0, 0, map[])
  {
  }

  lemma Smaller(m: map<string, string>, key: string)
    requires key in m
    ensures |m - {key}| == |m| - 1
  {
    assert (m - {key}).Keys == m.Keys - {key};
  }
}
