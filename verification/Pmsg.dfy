/** Files in the persistent log (liblog/pmsg_writer.cpp, pmsg_reader.cpp): a file is written as numbered fragments that
    end at line breaks where possible, and put together again from the fragments that survive.
 */
module Pmsg {

  /** The time stamp of fragment `n`: ANDROID_LOG_PMSG_FILE_SEQUENCE apart. */
  function Nsec(n: nat): nat
  {
    1000 * n
  }

  const MAX_SEQUENCE := 256       // ANDROID_LOG_PMSG_FILE_MAX_SEQUENCE

  const FORM_FEED: char := '\U{000C}'

  /** A log entry for the file: the nanosecond field carries the fragment number. */
  datatype Entry = Entry(nsec: nat, data: seq<char>)

  // ---------------------------------------------------------------- writing

  /** strnrchr: the last position after the first one that holds `c`, or the length. */
  method Strnrchr(buf: seq<char>, len: nat, c: char) returns (r: nat)
    requires len <= |buf|
    ensures r <= len
    ensures r < len ==> 0 < r && buf[r] == c && forall i :: r < i < len ==> buf[i] != c
    ensures r == len ==> forall i :: 0 < i < len ==> buf[i] != c
  {
    var cp: int := len - 1;
    while cp > 0 && buf[cp] != c
      invariant cp < len
      invariant forall i :: cp < i < len && 0 < i ==> buf[i] != c
      decreases cp
    {
      cp := cp - 1;
    }
    return if cp <= 0 then len else cp;
  }

  /** How much of the rest of the file goes into the next fragment: all of it if it fits, else up to the last line break
      among the first packetLen - 1 characters, the very first excepted, else as many as there are before the last
      character of the packet, and that one too if it is a line break. */
  ghost predicate IsTransfer(buf: seq<char>, packetLen: nat, n: nat)
  {
    if |buf| <= packetLen then n == |buf|
    else if exists i :: 0 < i < packetLen - 1 && buf[i] == '\n' then
      2 <= n < packetLen && buf[n - 1] == '\n' && forall i :: n <= i < packetLen - 1 ==> buf[i] != '\n'
    else packetLen >= 1 && n == if buf[packetLen - 1] == '\n' then packetLen else packetLen - 1
  }

  method Transfer(buf: seq<char>, packetLen: nat) returns (n: nat)
    requires 1 <= packetLen
    ensures IsTransfer(buf, packetLen, n) && n <= |buf|
  {
    n := |buf|;
    if n > packetLen {
      var r := Strnrchr(buf, packetLen - 1, '\n');
      n := r;
      if n < |buf| && buf[n] == '\n' {
        n := n + 1;
      }
      assert 0 <= r <= packetLen - 1;
    }
  }

  /** A fragment always fits; it makes progress whatever the file holds exactly when a packet has room for two
      characters. */
  lemma ProgressIff(packetLen: nat)
    requires 1 <= packetLen
    ensures forall buf, n: nat :: buf != [] && IsTransfer(buf, packetLen, n) ==> n <= packetLen
    ensures (forall buf, n: nat :: buf != [] && IsTransfer(buf, packetLen, n) ==> 1 <= n) <==> 2 <= packetLen
  {
    if packetLen == 1 {
      var buf := ['a', 'b'];
      assert IsTransfer(buf, 1, 0);
    }
  }

  ghost function Concat(fragments: seq<seq<char>>): seq<char>
  {
    if fragments == [] then [] else fragments[0] + Concat(fragments[1..])
  }

  lemma {:induction false} ConcatAppend(fragments: seq<seq<char>>, x: seq<char>)
    ensures Concat(fragments + [x]) == Concat(fragments) + x
  {
    if fragments == [] {
      assert fragments + [x] == [x] && [x][1..] == [];
    } else {
      assert (fragments + [x])[1..] == fragments[1..] + [x];
      ConcatAppend(fragments[1..], x);
    }
  }

  /** Fragment `i` is what is to be cut from the rest of the file at that point. */
  ghost predicate CutWell(buf: seq<char>, packetLen: nat, fragments: seq<seq<char>>, i: nat)
    requires i < |fragments|
  {
    var before := Concat(fragments[..i]);
    |before| <= |buf| && IsTransfer(buf[|before|..], packetLen, |fragments[i]|)
  }

  lemma CutsKept(buf: seq<char>, packetLen: nat, fragments: seq<seq<char>>, f: seq<char>)
    requires forall i :: 0 <= i < |fragments| ==> CutWell(buf, packetLen, fragments, i)
    requires |Concat(fragments)| <= |buf| && IsTransfer(buf[|Concat(fragments)|..], packetLen, |f|)
    ensures forall i :: 0 <= i < |fragments + [f]| ==> CutWell(buf, packetLen, fragments + [f], i)
  {
    var all := fragments + [f];
    forall i | 0 <= i < |all|
      ensures CutWell(buf, packetLen, all, i)
    {
      if i < |fragments| {
        assert all[..i] == fragments[..i] && CutWell(buf, packetLen, fragments, i);
      } else {
        assert all[..i] == fragments;
      }
    }
  }

  /** The loop of __android_log_pmsg_file_write.  The first `accepted` packets are taken; the next one is answered
      with `answer`, which is not positive.  With room for one character only, fragments may be empty, and the loop ends
      when the fragment numbers do. */
  method FileWrite(buf: seq<char>, packetLen: nat, accepted: nat, answer: int)
    returns (r: int, fragments: seq<seq<char>>)
    requires 1 <= packetLen && answer <= 0
    ensures |fragments| <= MAX_SEQUENCE && |fragments| <= accepted
    ensures forall f :: f in fragments ==> |f| <= packetLen && (2 <= packetLen ==> 1 <= |f|)
    ensures Concat(fragments) <= buf
    ensures r >= 0 ==> r == |Concat(fragments)|
    ensures r < 0 ==> r == answer && |fragments| == accepted
    ensures Concat(fragments) == buf || |fragments| == MAX_SEQUENCE || |fragments| == accepted
    ensures forall i :: 0 <= i < |fragments| ==> CutWell(buf, packetLen, fragments, i)
  {
    fragments := [];
    var sent: nat := 0;
    while sent < |buf|
      invariant sent <= |buf| && Concat(fragments) == buf[..sent]
      invariant |fragments| <= MAX_SEQUENCE && |fragments| <= accepted
      invariant forall f :: f in fragments ==> |f| <= packetLen && (2 <= packetLen ==> 1 <= |f|)
      invariant forall i :: 0 <= i < |fragments| ==> CutWell(buf, packetLen, fragments, i)
      decreases MAX_SEQUENCE - |fragments|
    {
      if |fragments| >= MAX_SEQUENCE {
        return sent, fragments;
      }
      var transfer := Transfer(buf[sent..], packetLen);
      ProgressIff(packetLen);
      if |fragments| == accepted {
        return if answer != 0 then answer else sent, fragments;
      }
      var f := buf[sent..sent + transfer];
      ConcatAppend(fragments, f);
      assert buf[..sent] + f == buf[..sent + transfer];
      CutsKept(buf, packetLen, fragments, f);
      fragments := fragments + [f];
      sent := sent + transfer;
    }
    assert buf[..sent] == buf;
    r := |buf|;
  }

  // ---------------------------------------------------------------- collecting fragments

  /** Entries with a sequence number that no fragment can have are passed over. */
  predicate Accepts(e: Entry)
  {
    e.nsec % 1000 == 0 && e.nsec / 1000 < MAX_SEQUENCE
  }

  /** The entry that was written last for each sequence number. */
  ghost function Latest(entries: seq<Entry>): map<nat, seq<char>>
  {
    if entries == [] then map[]
    else
      var last := entries[|entries| - 1];
      var before := Latest(entries[..|entries| - 1]);
      if Accepts(last) then before[last.nsec := last.data] else before
  }

  /** Entry `i` is the last one that is accepted with this sequence number. */
  ghost predicate IsLast(entries: seq<Entry>, nsec: nat, i: nat)
  {
    && i < |entries| && Accepts(entries[i]) && entries[i].nsec == nsec
    && forall j :: i < j < |entries| ==> !(Accepts(entries[j]) && entries[j].nsec == nsec)
  }

  /** What counts for a sequence number is the last entry that has it, and there is one whenever any entry does. */
  lemma {:induction false} LatestIsLast(entries: seq<Entry>, nsec: nat)
    ensures forall i: nat :: IsLast(entries, nsec, i) ==>
              nsec in Latest(entries) && Latest(entries)[nsec] == entries[i].data
    ensures nsec in Latest(entries) <==> exists i: nat :: IsLast(entries, nsec, i)
  {
    if entries != [] {
      var n := |entries| - 1;
      var before := entries[..n];
      LatestIsLast(before, nsec);
      if Accepts(entries[n]) && entries[n].nsec == nsec {
        assert IsLast(entries, nsec, n);
      } else {
        assert forall i: nat :: IsLast(entries, nsec, i) <==> IsLast(before, nsec, i);
      }
    }
  }

  ghost predicate Ascending(content: seq<Entry>)
  {
    forall i, j {:trigger content[i], content[j]} :: 0 <= i < j < |content| ==> content[i].nsec < content[j].nsec
  }

  /** A sorted list that holds exactly the entries of a map. */
  ghost predicate Represents(content: seq<Entry>, m: map<nat, seq<char>>)
  {
    && Ascending(content)
    && (forall e {:trigger e in content} :: e in content <==> e.nsec in m && m[e.nsec] == e.data)
  }

  lemma AscendingSplice(content: seq<Entry>, i: nat, j: nat, mid: seq<Entry>)
    requires Ascending(content) && i <= j <= |content| && |mid| <= 1
    requires forall a, x :: 0 <= a < i && x in mid ==> content[a].nsec < x.nsec
    requires forall b, x :: j <= b < |content| && x in mid ==> x.nsec < content[b].nsec
    ensures Ascending(content[..i] + mid + content[j..])
  {
  }

  lemma RemovedMembers(content: seq<Entry>, i: nat, r: seq<Entry>, e: Entry)
    requires Ascending(content) && i < |content| && r == content[..i] + content[i + 1..]
    ensures e in r <==> e in content && e.nsec != content[i].nsec
  {
    if e in r {
      var k :| 0 <= k < |r| && r[k] == e;
      assert e == content[if k < i then k else k + 1];
    }
    if e in content {
      var k :| 0 <= k < |content| && content[k] == e;
      if k != i {
        assert r[if k < i then k else k - 1] == e;
      }
    }
  }

  lemma RemovedAt(content: seq<Entry>, i: nat, m: map<nat, seq<char>>)
    requires Represents(content, m) && i < |content|
    ensures Represents(content[..i] + content[i + 1..], m - {content[i].nsec})
  {
    var r := content[..i] + content[i + 1..];
    AscendingSplice(content, i, i + 1, []);
    assert content[..i] + [] + content[i + 1..] == r;
    forall e {:trigger e in r}
      ensures e in r <==> e.nsec in m - {content[i].nsec} && (m - {content[i].nsec})[e.nsec] == e.data
    {
      RemovedMembers(content, i, r, e);
      assert e in content <==> e.nsec in m && m[e.nsec] == e.data;
    }
  }

  /** Remove the fragment with this sequence number, if there is one. */
  method Discard(content: seq<Entry>, nsec: nat, ghost m: map<nat, seq<char>>) returns (r: seq<Entry>)
    requires Represents(content, m)
    ensures Represents(r, m - {nsec})
  {
    r := content;
    var i := 0;
    ghost var removed := false;
    while i < |r|
      invariant 0 <= i <= |r|
      invariant if removed then Represents(r, m - {nsec}) else r == content
      invariant !removed ==> forall j :: 0 <= j < i ==> r[j].nsec != nsec
      decreases |r| - i
    {
      if r[i].nsec == nsec {
        assert r[i] in r;
        RemovedAt(r, i, m);
        r := r[..i] + r[i + 1..];
        removed := true;
      } else {
        i := i + 1;
      }
    }
    if !removed {
      NotThere(content, nsec, m);
    }
  }

  lemma NotThere(content: seq<Entry>, nsec: nat, m: map<nat, seq<char>>)
    requires Represents(content, m) && forall j :: 0 <= j < |content| ==> content[j].nsec != nsec
    ensures nsec !in m && m - {nsec} == m
  {
    var d := if nsec in m then m[nsec] else [];
    assert Entry(nsec, d) !in content;
  }

  /** Insert in the order of the sequence numbers. */
  method InsertSorted(content: seq<Entry>, e: Entry, ghost m: map<nat, seq<char>>) returns (r: seq<Entry>)
    requires Represents(content, m) && e.nsec !in m
    ensures Represents(r, m[e.nsec := e.data])
  {
    var k := |content|;
    while k > 0 && content[k - 1].nsec >= e.nsec
      invariant 0 <= k <= |content|
      invariant forall j :: k <= j < |content| ==> e.nsec <= content[j].nsec
    {
      k := k - 1;
    }
    Inserted(content, e, m, k);
    r := content[..k] + [e] + content[k..];
  }

  lemma InsertedMembers(content: seq<Entry>, e: Entry, k: nat, r: seq<Entry>, x: Entry)
    requires k <= |content| && r == content[..k] + [e] + content[k..]
    ensures x in r <==> x in content || x == e
  {
    if x in r {
      var i :| 0 <= i < |r| && r[i] == x;
      assert i < k ==> content[i] == x;
      assert i > k ==> content[i - 1] == x;
    }
    if x in content {
      var i :| 0 <= i < |content| && content[i] == x;
      assert r[if i < k then i else i + 1] == x;
    }
    assert r[k] == e;
  }

  lemma Inserted(content: seq<Entry>, e: Entry, m: map<nat, seq<char>>, k: nat)
    requires Represents(content, m) && e.nsec !in m && k <= |content|
    requires k > 0 ==> content[k - 1].nsec < e.nsec
    requires forall j :: k <= j < |content| ==> e.nsec <= content[j].nsec
    ensures Represents(content[..k] + [e] + content[k..], m[e.nsec := e.data])
  {
    var r := content[..k] + [e] + content[k..];
    InsertedOrder(content, e, m, k);
    forall x {:trigger x in r}
      ensures x in r <==> x.nsec in m[e.nsec := e.data] && m[e.nsec := e.data][x.nsec] == x.data
    {
      InsertedMembers(content, e, k, r, x);
      assert x in content <==> x.nsec in m && m[x.nsec] == x.data;
    }
  }

  lemma InsertedOrder(content: seq<Entry>, e: Entry, m: map<nat, seq<char>>, k: nat)
    requires Represents(content, m) && e.nsec !in m && k <= |content|
    requires k > 0 ==> content[k - 1].nsec < e.nsec
    requires forall j :: k <= j < |content| ==> e.nsec <= content[j].nsec
    ensures Ascending(content[..k] + [e] + content[k..])
  {
    assert forall i :: 0 <= i < |content| ==> content[i] in content;
    AscendingSplice(content, k, k, [e]);
  }

  /** The collecting loop of __android_log_pmsg_file_read, for one file. */
  method Collect(entries: seq<Entry>) returns (content: seq<Entry>)
    ensures Represents(content, Latest(entries))
  {
    content := [];
    var i := 0;
    while i < |entries|
      invariant 0 <= i <= |entries| && Represents(content, Latest(entries[..i]))
    {
      var e := entries[i];
      assert entries[..i + 1][..i] == entries[..i];
      if Accepts(e) {
        ghost var m := Latest(entries[..i]);
        content := Discard(content, e.nsec, m);
        content := InsertSorted(content, e, m - {e.nsec});
        assert (m - {e.nsec})[e.nsec := e.data] == m[e.nsec := e.data];
      }
      i := i + 1;
    }
    assert entries[..i] == entries;
  }

  // ---------------------------------------------------------------- putting the file together

  /** There is a fragment with this number that is not empty. */
  predicate Present(m: map<nat, seq<char>>, n: nat)
  {
    Nsec(n) in m && m[Nsec(n)] != []
  }

  /** What stands for fragment `n`: its content, or a form feed. */
  function Part(m: map<nat, seq<char>>, n: nat): seq<char>
  {
    if Present(m, n) then m[Nsec(n)] else [FORM_FEED]
  }

  /** Fragments 0 up to `n`. */
  ghost function Assembled(m: map<nat, seq<char>>, n: nat): seq<char>
  {
    if n == 0 then [] else Assembled(m, n - 1) + Part(m, n - 1)
  }

  /** The state of reassembly: everything below fragment `k` is in the buffer, `content[i..]` is still to come. */
  ghost predicate Progress(content: seq<Entry>, m: map<nat, seq<char>>, i: nat, k: nat, buf: seq<char>)
  {
    && i <= |content| && buf == Assembled(m, k)
    && (forall j {:trigger content[j]} :: 0 <= j < i ==> content[j].nsec < Nsec(k) || content[j].data == [])
    && (forall j {:trigger content[j]} :: i <= j < |content| ==> Nsec(k) <= content[j].nsec)
    && (k > 0 ==> Present(m, k - 1))
  }

  lemma Missing(content: seq<Entry>, m: map<nat, seq<char>>, i: nat, k: nat)
    requires Represents(content, m) && i <= |content|
    requires forall j {:trigger content[j]} :: 0 <= j < i ==> content[j].nsec < Nsec(k) || content[j].data == []
    requires forall j {:trigger content[j]} :: i <= j < |content| ==> Nsec(k) < content[j].nsec
    ensures !Present(m, k)
  {
    var e := Entry(Nsec(k), if Nsec(k) in m then m[Nsec(k)] else []);
    assert e in content ==> exists j :: 0 <= j < |content| && content[j] == e;
  }

  /** Form feeds for the fragments that are missing before `to`. */
  method FillGap(content: seq<Entry>, ghost m: map<nat, seq<char>>, i: nat, buf: seq<char>, k: nat, to: nat)
    returns (r: seq<char>)
    requires Represents(content, m) && i < |content| && Progress(content, m, i, k, buf)
    requires content[i].nsec == Nsec(to)
    ensures r == Assembled(m, to) && k <= to
  {
    r := buf;
    var sequence := Nsec(k);
    assert Nsec(k) <= content[i].nsec;
    ghost var n: nat := k;
    while sequence < content[i].nsec
      invariant sequence == Nsec(n) && k <= n <= to && r == Assembled(m, n)
      decreases content[i].nsec - sequence
    {
      assert forall j :: i <= j < |content| ==> content[i].nsec <= content[j].nsec;
      assert forall j :: 0 <= j < i ==> content[j].nsec < Nsec(n) || content[j].data == [];
      Missing(content, m, i, n);
      r := r + [FORM_FEED];
      sequence := sequence + 1000;
      n := n + 1;
    }
  }

  lemma Numbered(content: seq<Entry>, m: map<nat, seq<char>>, i: nat)
    requires Represents(content, m) && i < |content| && forall s :: s in m ==> s % 1000 == 0
    ensures content[i].nsec == Nsec(content[i].nsec / 1000) && content[i].nsec in m
            && m[content[i].nsec] == content[i].data
    ensures forall j {:trigger content[j]} :: i < j < |content| ==> Nsec(content[i].nsec / 1000 + 1) <= content[j].nsec
  {
    assert content[i] in content;
    forall j | i < j < |content|
      ensures Nsec(content[i].nsec / 1000 + 1) <= content[j].nsec
    {
      assert content[j] in content;
    }
  }

  /** One entry of the list: what is missing before it, and its content. */
  method AddEntry(content: seq<Entry>, ghost m: map<nat, seq<char>>, i: nat, buf: seq<char>, n: nat)
    returns (r: seq<char>, n': nat)
    requires Represents(content, m) && i < |content| && Progress(content, m, i, n, buf)
    requires forall s :: s in m ==> s % 1000 == 0
    ensures Progress(content, m, i + 1, n', r)
  {
    Numbered(content, m, i);
    if content[i].data == [] {
      assert forall j :: i < j < |content| ==> Nsec(n) <= content[j].nsec;
      return buf, n;
    }
    var to := content[i].nsec / 1000;
    r := FillGap(content, m, i, buf, n, to);
    r := r + content[i].data;
    n' := to + 1;
    assert forall j :: 0 <= j < i ==> content[j].nsec < content[i].nsec;
  }

  /** The reassembling loop of __android_log_pmsg_file_read.  `n` is one more than the highest fragment number. */
  method Reassemble(content: seq<Entry>, ghost m: map<nat, seq<char>>) returns (buf: seq<char>, n: nat)
    requires Represents(content, m) && forall s :: s in m ==> s % 1000 == 0
    ensures buf == Assembled(m, n) && (n > 0 ==> Present(m, n - 1)) && forall s :: n <= s ==> !Present(m, s)
  {
    buf, n := [], 0;
    var i := 0;
    while i < |content|
      invariant 0 <= i <= |content| && Progress(content, m, i, n, buf)
    {
      buf, n := AddEntry(content, m, i, buf, n);
      i := i + 1;
    }
    NothingAbove(content, m, n, buf);
  }

  lemma NothingAbove(content: seq<Entry>, m: map<nat, seq<char>>, n: nat, buf: seq<char>)
    requires Represents(content, m) && Progress(content, m, |content|, n, buf)
    ensures forall s :: n <= s ==> !Present(m, s)
  {
    forall s | n <= s
      ensures !Present(m, s)
    {
      var e := Entry(Nsec(s), if Nsec(s) in m then m[Nsec(s)] else []);
      assert e in content ==> exists j :: 0 <= j < |content| && content[j] == e;
    }
  }

  // ---------------------------------------------------------------- the round trip

  /** The entries are fragments of one file, each at least once, in any order. */
  ghost predicate Survive(entries: seq<Entry>, fragments: seq<seq<char>>)
  {
    && (forall e :: e in entries ==> exists i :: 0 <= i < |fragments| && e == Entry(Nsec(i), fragments[i]))
    && (forall i :: 0 <= i < |fragments| ==> Entry(Nsec(i), fragments[i]) in entries)
  }

  lemma {:induction false} LatestHolds(entries: seq<Entry>, nsec: nat)
    ensures nsec in Latest(entries) ==> Entry(nsec, Latest(entries)[nsec]) in entries
    ensures (exists e :: e in entries && Accepts(e) && e.nsec == nsec) ==> nsec in Latest(entries)
    ensures nsec in Latest(entries) ==> nsec % 1000 == 0
  {
    if entries != [] {
      var n := |entries| - 1;
      LatestHolds(entries[..n], nsec);
      assert entries == entries[..n] + [entries[n]];
    }
  }

  lemma SurvivorsLatest(entries: seq<Entry>, fragments: seq<seq<char>>, i: nat)
    requires Survive(entries, fragments) && |fragments| <= MAX_SEQUENCE && i < |fragments| && fragments[i] != []
    ensures Present(Latest(entries), i) && Part(Latest(entries), i) == fragments[i]
  {
    var e := Entry(Nsec(i), fragments[i]);
    LatestHolds(entries, Nsec(i));
    assert e in entries && Accepts(e);
    var x := Entry(Nsec(i), Latest(entries)[Nsec(i)]);
    var j :| 0 <= j < |fragments| && x == Entry(Nsec(j), fragments[j]);
  }

  lemma {:induction false} AssembledFragments(m: map<nat, seq<char>>, fragments: seq<seq<char>>, n: nat)
    requires n <= |fragments| && forall i :: 0 <= i < n ==> Part(m, i) == fragments[i]
    ensures Assembled(m, n) == Concat(fragments[..n])
  {
    if n > 0 {
      AssembledFragments(m, fragments, n - 1);
      ConcatAppend(fragments[..n - 1], fragments[n - 1]);
      assert fragments[..n] == fragments[..n - 1] + [fragments[n - 1]];
    }
  }

  /** When all fragments survive, in whatever order, the file reads back as it was written. */
  lemma FileRoundTrip(entries: seq<Entry>, fragments: seq<seq<char>>, n: nat)
    requires Survive(entries, fragments) && |fragments| <= MAX_SEQUENCE && forall f :: f in fragments ==> f != []
    requires (n > 0 ==> Present(Latest(entries), n - 1)) && forall s :: n <= s ==> !Present(Latest(entries), s)
    ensures Assembled(Latest(entries), n) == Concat(fragments)
  {
    forall i | 0 <= i < |fragments|
      ensures Present(Latest(entries), i) && Part(Latest(entries), i) == fragments[i]
    {
      assert fragments[i] in fragments;
      SurvivorsLatest(entries, fragments, i);
    }
    assert n < |fragments| ==> Present(Latest(entries), n);
    if n > |fragments| {
      LatestHolds(entries, Nsec(n - 1));
    }
    AssembledFragments(Latest(entries), fragments, |fragments|);
    assert fragments[..|fragments|] == fragments;
  }

  /** __android_log_pmsg_file_read, for one file: for each number up to the highest, the fragment written last,
      or a form feed. */
  method FileRead(entries: seq<Entry>) returns (buf: seq<char>, n: nat)
    ensures buf == Assembled(Latest(entries), n)
    ensures (n > 0 ==> Present(Latest(entries), n - 1)) && forall s :: n <= s ==> !Present(Latest(entries), s)
  {
    var content := Collect(entries);
    forall s | s in Latest(entries) ensures s % 1000 == 0 { LatestHolds(entries, s); }
    buf, n := Reassemble(content, Latest(entries));
  }
}
