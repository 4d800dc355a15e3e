/** Parameter strings (libcutils/str_parms.cpp): "key=value" pairs separated by semicolons, kept in a hash map. */
module StrParms {
  import opened Hashmap

  // ---------------------------------------------------------------- the text format

  /** The position of the first `c`, or the length. */
  function First(s: string, c: char): (i: nat)
    ensures i <= |s| && (i < |s| ==> s[i] == c) && forall j :: 0 <= j < i ==> s[j] != c
  {
    if s == "" || s[0] == c then 0
    else
      var i := First(s[1..], c);
      assert forall j :: 0 < j < i + 1 ==> s[j] == s[1..][j - 1];
      i + 1
  }

  /** strtok_r with ";": what stands between semicolons, without the empty pieces. */
  function Tokens(s: string): seq<string>
    decreases |s|
  {
    if s == "" then []
    else if s[0] == ';' then Tokens(s[1..])
    else
      var i := First(s, ';');
      [s[..i]] + Tokens(s[i..])
  }

  /** The key and the value of a token; a token that starts with "=" has none. */
  function PairOf(token: string): Pair
  {
    var eq := First(token, '=');
    Pair(token[..eq], if eq < |token| then token[eq + 1..] else "")
  }

  /** Later pairs override earlier ones. */
  ghost function Store(m: map<string, string>, tokens: seq<string>): map<string, string>
    decreases tokens
  {
    if tokens == [] then m
    else
      var p := PairOf(tokens[0]);
      Store(if p.key == "" then m else m[p.key := p.value], tokens[1..])
  }

  ghost function Parse(s: string): map<string, string>
  {
    Store(map[], Tokens(s))
  }

  /** One pair as str_parms_to_str prints it. */
  function Show(p: Pair): string
  {
    p.key + "=" + p.value
  }

  /** The pairs joined by semicolons. */
  ghost function Join(ps: seq<Pair>): string
  {
    if ps == [] then ""
    else if |ps| == 1 then Show(ps[0])
    else Join(ps[..|ps| - 1]) + ";" + Show(ps[|ps| - 1])
  }

  ghost predicate CleanPair(p: Pair)
  {
    p.key != "" && '=' !in p.key && ';' !in p.key && ';' !in p.value
  }

  /** Keys are not empty and hold neither "=" nor ";", and values hold no ";". */
  ghost predicate Clean(m: map<string, string>)
  {
    forall k {:trigger k in m} :: k in m ==> CleanPair(Pair(k, m[k]))
  }

  // ---------------------------------------------------------------- what is parsed is clean

  lemma {:induction false} TokensClean(s: string)
    ensures forall t :: t in Tokens(s) ==> t != "" && ';' !in t
    decreases |s|
  {
    if s != "" {
      if s[0] == ';' {
        TokensClean(s[1..]);
      } else {
        TokensClean(s[First(s, ';')..]);
      }
    }
  }

  /** A token is its key, "=" and its value; one without "=" is a key with an empty value. */
  lemma PairOfToken(token: string)
    ensures '=' in token ==> token == Show(PairOf(token)) && '=' !in PairOf(token).key
    ensures '=' !in token ==> PairOf(token) == Pair(token, "")
  {
  }

  /** Of the tokens with one key the last is stored, whatever else there is. */
  lemma {:induction false} StoreLast(m: map<string, string>, tokens: seq<string>, i: nat)
    requires i < |tokens| && PairOf(tokens[i]).key != ""
    requires forall j :: i < j < |tokens| ==> PairOf(tokens[j]).key != PairOf(tokens[i]).key
    ensures var p := PairOf(tokens[i]); p.key in Store(m, tokens) && Store(m, tokens)[p.key] == p.value
    decreases tokens
  {
    var p := PairOf(tokens[0]);
    var m1 := if p.key == "" then m else m[p.key := p.value];
    if i > 0 {
      StoreLast(m1, tokens[1..], i - 1);
    } else {
      StoreOthers(m1, tokens[1..], p.key);
    }
  }

  /** A key that no token has is not touched. */
  lemma {:induction false} StoreOthers(m: map<string, string>, tokens: seq<string>, k: string)
    requires forall j :: 0 <= j < |tokens| ==> PairOf(tokens[j]).key != k
    ensures k in Store(m, tokens) <==> k in m
    ensures k in m ==> Store(m, tokens)[k] == m[k]
    decreases tokens
  {
    if tokens != [] {
      var p := PairOf(tokens[0]);
      StoreOthers(if p.key == "" then m else m[p.key := p.value], tokens[1..], k);
    }
  }

  lemma PairOfClean(token: string)
    requires ';' !in token
    ensures PairOf(token).key != "" ==> CleanPair(PairOf(token))
  {
  }

  lemma {:induction false} StoreClean(m: map<string, string>, tokens: seq<string>)
    requires Clean(m) && forall t :: t in tokens ==> ';' !in t
    ensures Clean(Store(m, tokens))
    decreases tokens
  {
    if tokens != [] {
      assert tokens[0] in tokens;
      var p := PairOf(tokens[0]);
      PairOfClean(tokens[0]);
      StoreClean(if p.key == "" then m else m[p.key := p.value], tokens[1..]);
    }
  }

  lemma ParseClean(s: string)
    ensures Clean(Parse(s))
  {
    TokensClean(s);
    StoreClean(map[], Tokens(s));
  }

  // ---------------------------------------------------------------- clean pairs read back

  lemma {:induction false} FirstIs(s: string, c: char, i: nat)
    requires i <= |s| && (i < |s| ==> s[i] == c) && forall j :: 0 <= j < i ==> s[j] != c
    ensures First(s, c) == i
  {
  }

  lemma ShowReads(p: Pair)
    requires CleanPair(p)
    ensures PairOf(Show(p)) == p && Show(p) != "" && ';' !in Show(p)
  {
    FirstIs(Show(p), '=', |p.key|);
    assert Show(p)[..|p.key|] == p.key && Show(p)[|p.key| + 1..] == p.value;
  }

  /** A token that is followed by a semicolon or the end is read as such. */
  lemma {:induction false} TokensFirst(t: string, rest: string)
    requires t != "" && ';' !in t && (rest == "" || rest[0] == ';')
    ensures Tokens(t + rest) == [t] + Tokens(rest)
  {
    FirstIs(t + rest, ';', |t|);
    assert (t + rest)[..|t|] == t && (t + rest)[|t|..] == rest;
  }

  /** Semicolons separate: what stands before one is read as if nothing followed. */
  lemma {:induction false} TokensSplit(a: string, b: string)
    ensures Tokens(a + ";" + b) == Tokens(a) + Tokens(b)
    decreases |a|
  {
    var s := a + ";" + b;
    if a == "" {
      assert s[1..] == b;
    } else if a[0] == ';' {
      assert s[1..] == a[1..] + ";" + b;
      TokensSplit(a[1..], b);
    } else {
      var i := First(a, ';');
      FirstIs(s, ';', i);
      assert s[..i] == a[..i] && s[i..] == a[i..] + ";" + b;
      TokensSplit(a[i..], b);
      assert Tokens(a) == [a[..i]] + Tokens(a[i..]);
    }
  }

  ghost function Shows(ps: seq<Pair>): seq<string>
  {
    if ps == [] then [] else [Show(ps[0])] + Shows(ps[1..])
  }

  lemma {:induction false} JoinFirst(ps: seq<Pair>)
    requires |ps| >= 2
    ensures Join(ps) == Show(ps[0]) + (";" + Join(ps[1..]))
    decreases |ps|
  {
    var last := |ps| - 1;
    if |ps| == 2 {
      assert ps[..1] == [ps[0]] && ps[1..] == [ps[1]];
    } else {
      JoinFirst(ps[..last]);
      assert ps[..last][1..] == ps[1..][..last - 1];
      assert ps[1..][last - 1] == ps[last];
      var a, b, c := Show(ps[0]), Join(ps[1..][..last - 1]), Show(ps[last]);
      assert (a + (";" + b)) + ";" + c == a + (";" + (b + ";" + c));
    }
  }

  lemma {:induction false} TokensJoin(ps: seq<Pair>)
    requires forall p :: p in ps ==> CleanPair(p)
    ensures Tokens(Join(ps)) == Shows(ps)
    decreases |ps|
  {
    if ps != [] {
      assert ps[0] in ps;
      ShowReads(ps[0]);
      if |ps| == 1 {
        TokensFirst(Show(ps[0]), "");
        assert Show(ps[0]) + "" == Show(ps[0]) && ps[1..] == [];
      } else {
        var rest := Join(ps[1..]);
        JoinFirst(ps);
        TokensFirst(Show(ps[0]), ";" + rest);
        assert (";" + rest)[1..] == rest;
        TokensJoin(ps[1..]);
      }
    }
  }

  lemma {:induction false} StoreShows(m: map<string, string>, ps: seq<Pair>, k: string)
    requires forall p :: p in ps ==> CleanPair(p)
    requires forall i, j {:trigger ps[i], ps[j]} :: 0 <= i < j < |ps| ==> ps[i].key != ps[j].key
    ensures forall i :: 0 <= i < |ps| && ps[i].key == k ==>
              k in Store(m, Shows(ps)) && Store(m, Shows(ps))[k] == ps[i].value
    ensures (forall i :: 0 <= i < |ps| ==> ps[i].key != k) ==>
              (k in Store(m, Shows(ps)) <==> k in m) && (k in m ==> Store(m, Shows(ps))[k] == m[k])
    decreases ps
  {
    if ps != [] {
      var p, rest := ps[0], ps[1..];
      assert p in ps && forall x :: x in rest ==> x in ps;
      ShowReads(p);
      assert Shows(ps)[1..] == Shows(rest);
      StoreShows(m[p.key := p.value], rest, k);
      assert forall i :: 0 < i < |ps| ==> ps[i] == rest[i - 1];
      assert forall i :: 0 <= i < |rest| ==> rest[i] == ps[i + 1];
    }
  }

  /** Printing the pairs of a map, in any order, and parsing the result gives the map back exactly when it is clean. */
  lemma PrintParseIff(ps: seq<Pair>, m: map<string, string>)
    requires Lists(ps, m)
    ensures Parse(Join(ps)) == m <==> Clean(m)
  {
    ParseClean(Join(ps));
    if Clean(m) {
      forall p | p in ps ensures CleanPair(p) { assert p.key in m; }
      TokensJoin(ps);
      forall k
        ensures k in Parse(Join(ps)) <==> k in m
        ensures k in m ==> Parse(Join(ps))[k] == m[k]
      {
        StoreShows(map[], ps, k);
        if k in m {
          var p := Pair(k, m[k]);
          assert p in ps;
          var i :| 0 <= i < |ps| && ps[i] == p;
        } else {
          assert forall i :: 0 <= i < |ps| ==> ps[i] in ps;
        }
      }
    }
  }

  // ---------------------------------------------------------------- the operations

  /** The same when memory for an entry may be refused: then a pair with a new key is passed over.  `granted` answers by
      the number of tokens that are left. */
  ghost function StoreSome(m: map<string, string>, tokens: seq<string>, granted: nat -> bool): map<string, string>
    decreases tokens
  {
    if tokens == [] then m
    else
      var p := PairOf(tokens[0]);
      StoreSome(if p.key == "" || (p.key !in m && !granted(|tokens|)) then m
                else m[p.key := p.value], tokens[1..], granted)
  }

  lemma {:induction false} StoreAll(m: map<string, string>, tokens: seq<string>, granted: nat -> bool)
    requires forall n :: granted(n)
    ensures StoreSome(m, tokens, granted) == Store(m, tokens)
    decreases tokens
  {
    if tokens != [] {
      var p := PairOf(tokens[0]);
      StoreAll(if p.key == "" then m else m[p.key := p.value], tokens[1..], granted);
    }
  }

  /** str_parms_create_str.  The copies of the text are always granted; the map, and each entry, may be refused. */
  method CreateStr(text: string, hash: Hash, mapGranted: bool, granted: nat -> bool) returns (parms: Map?)
    ensures parms == null <==> !mapGranted
    ensures parms != null ==> fresh(parms) && fresh(parms.buckets) && parms.Valid()
    ensures parms != null ==> parms.contents == StoreSome(map[], Tokens(text), granted)
    ensures parms != null && (forall n :: granted(n)) ==> parms.contents == Parse(text)
  {
    if !mapGranted {
      return null;
    }
    var map' := new Map(hash, 5);
    var rest := text;
    while rest != ""
      invariant map'.Valid() && fresh(map') && fresh(map'.buckets)
      invariant StoreSome(map'.contents, Tokens(rest), granted) == StoreSome(map[], Tokens(text), granted)
      decreases |rest|
    {
      if rest[0] == ';' {
        rest := rest[1..];
      } else {
        var i := First(rest, ';');
        var kvpair := rest[..i];
        assert Tokens(rest)[1..] == Tokens(rest[i..]);
        var eq := First(kvpair, '=');
        if eq > 0 {
          var value := if eq < |kvpair| then kvpair[eq + 1..] else "";
          var old_, failed := map'.Put(kvpair[..eq], value, granted(|Tokens(rest)|), true);
        }
        rest := rest[i..];
      }
    }
    if forall n :: granted(n) {
      StoreAll(map[], Tokens(text), granted);
    }
    parms := map';
  }

  /** str_parms_del: walk the map until the key is found, and remove it on the way. */
  method Del(parms: Map, key: string)
    requires parms.Valid()
    modifies parms, parms.buckets
    ensures parms.Valid() && parms.contents == old(parms.contents) - {key}
  {
    var callback := (p: Pair) => Verdict(p.key == key, p.key != key);
    var ps; ghost var seen;
    ps, seen := parms.ForEachWith(callback);
    DroppedKey(old(parms.contents), ps, seen, key, callback);
  }

  lemma DroppedKey(m: map<string, string>, ps: seq<Pair>, seen: map<string, string>, key: string,
                   callback: Pair -> Verdict)
    requires forall p :: callback(p) == Verdict(p.key == key, p.key != key)
    requires Lists(ps, seen) && (ps == [] || callback(ps[|ps| - 1]).goOn ==> seen == m)
    ensures m - Dropped(ps, callback) == m - {key}
  {
    forall k | k in Dropped(ps, callback) ensures k == key { }
    if ps != [] && !callback(ps[|ps| - 1]).goOn {
      assert ps[|ps| - 1] in ps;
    } else {
      assert key in m ==> Pair(key, m[key]) in ps;
    }
  }

  /** str_parms_destroy: the same walk, for every key. */
  method DelAll(parms: Map)
    requires parms.Valid()
    modifies parms, parms.buckets
    ensures parms.Valid() && parms.contents == map[]
  {
    var callback := (p: Pair) => Verdict(true, true);
    var ps; ghost var seen;
    ps, seen := parms.ForEachWith(callback);
    forall k | k in seen ensures k in Dropped(ps, callback) { assert Pair(k, seen[k]) in ps; }
  }

  /** str_parms_to_str: the pairs in the order of the hash map. */
  method ToStr(parms: Map) returns (text: string, ghost ps: seq<Pair>)
    requires parms.Valid()
    ensures Lists(ps, parms.contents) && text == Join(ps)
    ensures Parse(text) == parms.contents <==> Clean(parms.contents)
  {
    var pairs := parms.ForEach();
    ps := pairs;
    text := "";
    var i := 0;
    while i < |pairs|
      invariant 0 <= i <= |pairs| && text == Join(pairs[..i])
    {
      assert pairs[..i + 1][..i] == pairs[..i];
      text := if i > 0 then text + ";" + Show(pairs[i]) else Show(pairs[i]);
      i := i + 1;
    }
    assert pairs[..i] == pairs;
    PrintParseIff(ps, parms.contents);
  }
}
