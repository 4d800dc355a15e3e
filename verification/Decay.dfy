/** The decay clock of arena.c: dirty pages are accounted per epoch, and the number allowed to remain is a sum over
    the last epochs in which recent ones weigh more.  Times are in nanoseconds.
 */
module Decay {
  import opened Arith

  const UINT64_MAX: nat := 0xFFFF_FFFF_FFFF_FFFF

  function Zeros(n: nat): (r: seq<nat>)
    ensures |r| == n && forall i :: 0 <= i < n ==> r[i] == 0
  {
    seq(n, _ => 0)
  }

  /** The last `n` entries of a history that was preceded by nothing. */
  ghost function Last(history: seq<nat>, n: nat): (r: seq<nat>)
    ensures |r| == n
  {
    (Zeros(n) + history)[|history|..]
  }

  /** Skipped epochs add nothing. */
  ghost function Extended(history: seq<nat>, advance: nat, delta: nat): seq<nat>
    requires advance >= 1
  {
    history + Zeros(advance - 1) + [delta]
  }

  lemma {:induction false} LastExtended(history: seq<nat>, n: nat, advance: nat, delta: nat)
    requires n >= 1 && advance >= 1
    ensures advance < n ==>
            Last(Extended(history, advance, delta), n) == Last(history, n)[advance..] + Zeros(advance - 1) + [delta]
    ensures advance >= n ==> Last(Extended(history, advance, delta), n) == Zeros(n - 1) + [delta]
  {
    var e := Extended(history, advance, delta);
    var r := Last(e, n);
    assert forall i :: 0 <= i < n ==> r[i] == (Zeros(n) + e)[|e| + i];
  }

  // ---------------------------------------------------------------- the limit

  /** The weighted sum of arena_decay_backlog_npages_limit. */
  ghost function Weighted(backlog: seq<nat>, h: seq<nat>): nat
    requires |backlog| == |h|
  {
    if backlog == [] then 0
    else
      var last := |backlog| - 1;
      Weighted(backlog[..last], h[..last]) + backlog[last] * h[last]
  }

  ghost predicate Nondecreasing(h: seq<nat>)
  {
    forall i, j :: 0 <= i < j < |h| ==> h[i] <= h[j]
  }

  lemma {:induction false} WeightedConcat(a: seq<nat>, b: seq<nat>, g: seq<nat>, h: seq<nat>)
    requires |a| == |g| && |b| == |h|
    ensures Weighted(a + b, g + h) == Weighted(a, g) + Weighted(b, h)
  {
    if b == [] {
      assert a + b == a && g + h == g;
    } else {
      var last := |b| - 1;
      assert (a + b)[..|a + b| - 1] == a + b[..last] && (g + h)[..|g + h| - 1] == g + h[..last];
      WeightedConcat(a, b[..last], g, h[..last]);
    }
  }

  lemma {:induction false} WeightedZeros(n: nat, h: seq<nat>)
    requires |h| == n
    ensures Weighted(Zeros(n), h) == 0
  {
    if n > 0 {
      assert Zeros(n)[..n - 1] == Zeros(n - 1);
      WeightedZeros(n - 1, h[..n - 1]);
    }
  }

  /** Pages that became dirty in one epoch count with the weight of its age. */
  lemma WeightedOne(h: seq<nat>, i: nat, x: nat)
    requires i < |h|
    ensures Weighted(Zeros(i) + [x] + Zeros(|h| - i - 1), h) == x * h[i]
  {
    var n := |h| - i - 1;
    assert h == h[..i] + [h[i]] + h[i + 1..];
    WeightedConcat(Zeros(i) + [x], Zeros(n), h[..i] + [h[i]], h[i + 1..]);
    WeightedConcat(Zeros(i), [x], h[..i], [h[i]]);
    WeightedZeros(n, h[i + 1..]);
    WeightedZeros(i, h[..i]);
    assert [x][..0] == [] && [h[i]][..0] == [];
    assert Weighted([x], [h[i]]) == Weighted([], []) + x * h[i];
  }

  lemma {:induction false} WeightedMonotone(b: seq<nat>, g: seq<nat>, h: seq<nat>)
    requires |b| == |g| == |h| && forall i :: 0 <= i < |g| ==> g[i] <= h[i]
    ensures Weighted(b, g) <= Weighted(b, h)
  {
    if b != [] {
      var last := |b| - 1;
      WeightedMonotone(b[..last], g[..last], h[..last]);
      MulMonotone(b[last], g[last], h[last]);
    }
  }

  /** Moving the backlog back by some epochs, with nothing new, lowers the sum. */
  lemma {:induction false} ShiftLowers(b: seq<nat>, h: seq<nat>, k: nat)
    requires |b| == |h| && k <= |b| && Nondecreasing(h)
    ensures Weighted(b[k..] + Zeros(k), h) <= Weighted(b, h)
  {
    var n := |b|;
    assert h == h[..n - k] + h[n - k..] && h == h[..k] + h[k..] && b == b[..k] + b[k..];
    WeightedConcat(b[k..], Zeros(k), h[..n - k], h[n - k..]);
    WeightedZeros(k, h[n - k..]);
    WeightedConcat(b[..k], b[k..], h[..k], h[k..]);
    WeightedMonotone(b[k..], h[..n - k], h[k..]);
  }

  lemma {:induction false} DivideMonotone(a: nat, b: nat, d: nat)
    requires a <= b && d > 0
    ensures a / d <= b / d
  {
    MulMonotone(d, b / d + 1, a / d);
  }

  /** An advance without new pages shifts the backlog. */
  lemma {:induction false} QuietAdvance(history: seq<nat>, n: nat, advance: nat)
    requires n >= 1 && advance >= 1
    ensures var k := if advance < n then advance else n;
            Last(Extended(history, advance, 0), n) == Last(history, n)[k..] + Zeros(k)
  {
    var b := Last(history, n);
    LastExtended(history, n, advance, 0);
    if advance < n {
      assert Zeros(advance - 1) + [0] == Zeros(advance);
      assert b[advance..] + Zeros(advance - 1) + [0] == b[advance..] + (Zeros(advance - 1) + [0]);
    } else {
      assert Zeros(n - 1) + [0] == Zeros(n) == b[n..] + Zeros(n);
    }
  }

  /** With weights that do not decrease, and no pages added, the limit never rises. */
  lemma {:induction false} LimitNeverRises(history: seq<nat>, h: seq<nat>, advance: nat, d: nat)
    requires |h| >= 1 && Nondecreasing(h) && advance >= 1 && d > 0
    ensures Weighted(Last(Extended(history, advance, 0), |h|), h) / d <= Weighted(Last(history, |h|), h) / d
  {
    QuietAdvance(history, |h|, advance);
    ShiftLowers(Last(history, |h|), h, if advance < |h| then advance else |h|);
    DivideMonotone(Weighted(Last(Extended(history, advance, 0), |h|), h), Weighted(Last(history, |h|), h), d);
  }

  // ---------------------------------------------------------------- the clock

  class Clock {
    const h: seq<nat>            // the smoothstep weights
    const bfp: nat               // their fixed-point fraction
    const interval: nat
    const backlog: array<nat>
    var epoch: nat
    var deadline: nat
    var ndirty: nat              // dirty pages when the last advance was done
    ghost var history: seq<nat>  // pages that became dirty in each epoch so far

    /** The backlog is the tail of the history, and the deadline falls into the epoch after the current one. */
    ghost predicate Valid()
      reads this, backlog
    {
      && interval > 0 && backlog.Length == |h| >= 1
      && backlog[..] == Last(history, |h|)
      && epoch + interval <= deadline < epoch + 2 * interval
    }

    /** arena_decay_init, at time `now`, with a positive decay time. */
    constructor (weights: seq<nat>, fraction: nat, step: nat, now: nat, jitter: nat, dirty: nat)
      requires |weights| >= 1 && step > 0 && jitter < step
      ensures Valid() && fresh(backlog) && epoch == now && history == [] && h == weights && interval == step
    {
      h, bfp, interval, epoch, ndirty, history := weights, fraction, step, now, dirty, [];
      deadline := now + step + jitter;
      backlog := new nat[|weights|](_ => 0);
      new;
      assert backlog[..] == Last([], |h|);
    }

    /** arena_decay_backlog_npages_limit. */
    method Limit() returns (npages: nat)
      requires Valid()
      ensures npages == Weighted(Last(history, |h|), h) / Pow2(bfp)
    {
      var sum, i := 0, 0;
      while i < |h|
        invariant 0 <= i <= |h| && sum == Weighted(backlog[..i], h[..i])
      {
        assert backlog[..i + 1][..i] == backlog[..i] && h[..i + 1][..i] == h[..i];
        sum := sum + backlog[i] * h[i];
        i := i + 1;
      }
      assert backlog[..i] == backlog[..] && h[..i] == h;
      npages := sum / Pow2(bfp);
    }

    /** arena_decay_backlog_update and arena_decay_backlog_update_last. */
    method BacklogUpdate(advance: nat, dirty: nat)
      requires |h| == backlog.Length >= 1 && advance >= 1 && backlog[..] == Last(history, |h|)
      modifies backlog, `history
      ensures history == Extended(old(history), advance, if dirty > ndirty then dirty - ndirty else 0)
      ensures backlog[..] == Last(history, |h|)
    {
      var n, delta := backlog.Length, if dirty > ndirty then dirty - ndirty else 0;
      ghost var before := backlog[..];
      LastExtended(history, n, advance, delta);
      history := Extended(history, advance, delta);
      if advance >= n {
        forall i | 0 <= i < n - 1 {
          backlog[i] := 0;
        }
        backlog[n - 1] := delta;
        assert backlog[..] == Zeros(n - 1) + [delta];
      } else {
        forall i | 0 <= i < n - advance {
          backlog[i] := backlog[advance + i];
        }
        forall i | n - advance <= i < n - 1 {
          backlog[i] := 0;
        }
        backlog[n - 1] := delta;
        assert backlog[..] == before[advance..] + Zeros(advance - 1) + [delta];
      }
    }

    /** arena_decay_epoch_advance_helper: the epoch moves on by whole intervals to the one that `now` is in. */
    method Advance(now: nat, jitter: nat, dirty: nat) returns (advance: nat)
      requires Valid() && deadline <= now && jitter < interval && now + 2 * interval <= UINT64_MAX
      modifies this, backlog
      ensures Valid() && advance >= 1 && epoch == old(epoch) + advance * interval
      ensures epoch <= now < epoch + interval <= deadline <= UINT64_MAX
      ensures history == Extended(old(history), advance, if dirty > old(ndirty) then dirty - old(ndirty) else 0)
      ensures ndirty == old(ndirty)
    {
      assert epoch <= now;
      var delta := now - epoch;
      advance := delta / interval;
      WholeIntervals(delta, interval);
      assert advance > 0;
      assert UINT64_MAX - epoch >= advance * interval;
      epoch := epoch + advance * interval;
      deadline := epoch + interval + jitter;
      BacklogUpdate(advance, dirty);
    }

    /** arena_decay_epoch_advance_purge: `purge` tells what arena_purge_to_limit leaves of the dirty pages. */
    method AdvancePurge(dirty: nat, purge: nat -> nat) returns (limit: nat)
      requires Valid()
      modifies this`ndirty
      ensures Valid() && limit == Weighted(Last(history, |h|), h) / Pow2(bfp)
      ensures ndirty == if dirty > limit then purge(limit) else dirty
    {
      limit := Limit();
      ndirty := if dirty > limit then purge(limit) else dirty;
    }

    /** arena_decay_epoch_advance: the history gets what became dirty since the last advance was done; the pages allowed
        to remain are those that the whole history still weighs. */
    method EpochAdvance(now: nat, jitter: nat, dirty: nat, purge: nat -> nat) returns (advance: nat, limit: nat)
      requires Valid() && deadline <= now && jitter < interval && now + 2 * interval <= UINT64_MAX
      modifies this, backlog
      ensures Valid() && advance >= 1 && epoch == old(epoch) + advance * interval && epoch <= now < epoch + interval
      ensures history == Extended(old(history), advance, if dirty > old(ndirty) then dirty - old(ndirty) else 0)
      ensures limit == Weighted(Last(history, |h|), h) / Pow2(bfp)
      ensures ndirty == if dirty > limit then purge(limit) else dirty
      ensures (forall n :: purge(n) >= n) && dirty >= limit ==> ndirty >= limit
    {
      advance := Advance(now, jitter, dirty);
      limit := AdvancePurge(dirty, purge);
    }
  }

  lemma {:induction false} WholeIntervals(delta: nat, interval: nat)
    requires 0 < interval <= delta
    ensures delta / interval >= 1
    ensures delta / interval * interval <= delta < delta / interval * interval + interval
  {
    assert delta == delta / interval * interval + delta % interval;
    MulMonotone(interval, delta / interval, 0);
  }
}
