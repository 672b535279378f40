/** The sliding-window rate limiter: a pruned list of times per key, shown to decide as the full history would. */
module RateLimiter {

  /** One call of allow and its answer. */
  datatype Call = Call(key: string, at: int, ok: bool)

  /** The times later than `cutoff`. */
  function Recent(ts: seq<int>, cutoff: int): (r: seq<int>) {
    if ts == [] then []
    else
      var rest := Recent(ts[..|ts| - 1], cutoff);
      if ts[|ts| - 1] > cutoff then rest + [ts[|ts| - 1]] else rest
  }

  /** When `key` was let through, over the whole history. */
  function Admissions(h: seq<Call>, key: string): (ts: seq<int>) {
    if h == [] then []
    else
      var rest, c := Admissions(h[..|h| - 1], key), h[|h| - 1];
      if c.key == key && c.ok then rest + [c.at] else rest
  }

  /** How often `key` was let through after `lo` and not after `hi`. */
  function CountIn(h: seq<Call>, key: string, lo: int, hi: int): (n: nat) {
    if h == [] then 0
    else
      var c := h[|h| - 1];
      CountIn(h[..|h| - 1], key, lo, hi) + if c.key == key && c.ok && lo < c.at <= hi then 1 else 0
  }

  predicate Chronological(h: seq<Call>) {
    forall i, j :: 0 <= i < j < |h| ==> h[i].at <= h[j].at
  }

  /** Every answer is the one that counting over the full history gives. */
  predicate Honest(h: seq<Call>, max: int, window: int) {
    forall i :: 0 <= i < |h| ==> HonestAt(h, i, max, window)
  }

  predicate HonestAt(h: seq<Call>, i: nat, max: int, window: int)
    requires i < |h|
  {
    h[i].ok <==> CountIn(h[..i], h[i].key, h[i].at - window, h[i].at) < max
  }

  // ---- Pruning loses nothing that can still matter ----

  lemma {:induction false} RecentTwice(ts: seq<int>, c0: int, c: int)
    requires c0 <= c
    ensures Recent(Recent(ts, c0), c) == Recent(ts, c)
  {
    if ts != [] {
      var front, t := ts[..|ts| - 1], ts[|ts| - 1];
      RecentTwice(front, c0, c);
      if t > c0 {
        assert (Recent(front, c0) + [t])[..|Recent(front, c0)|] == Recent(front, c0);
      }
    }
  }

  lemma RecentSnoc(ts: seq<int>, t: int, c: int)
    ensures Recent(ts + [t], c) == Recent(ts, c) + if t > c then [t] else []
  {
    assert (ts + [t])[..|ts|] == ts;
  }

  /** In chronological order the recent admissions are as many as CountIn counts up to now. */
  lemma {:induction false} RecentCounts(h: seq<Call>, key: string, lo: int, hi: int)
    requires forall i :: 0 <= i < |h| ==> h[i].at <= hi
    ensures |Recent(Admissions(h, key), lo)| == CountIn(h, key, lo, hi)
  {
    if h != [] {
      var g, c := h[..|h| - 1], h[|h| - 1];
      RecentCounts(g, key, lo, hi);
      if c.key == key && c.ok {
        RecentSnoc(Admissions(g, key), c.at, lo);
      }
    }
  }

  /** A cutoff that a call after the history `h` can use. */
  predicate Usable(h: seq<Call>, window: int, c: int) {
    forall i :: 0 <= i < |h| ==> h[i].at - window <= c
  }

  /** From every usable cutoff the pruned list `ts` looks like the full one. */
  ghost predicate Agrees(ts: seq<int>, h: seq<Call>, key: string, window: int) {
    forall c: int :: Usable(h, window, c) ==> Recent(ts, c) == Recent(Admissions(h, key), c)
  }

  lemma UsableSnoc(h: seq<Call>, e: Call, window: int, c: int)
    requires Usable(h + [e], window, c)
    ensures Usable(h, window, c) && e.at - window <= c
  {
    var g := h + [e];
    assert g[|h|] == e;
    assert forall i :: 0 <= i < |h| ==> h[i] == g[i];
  }

  /** The list that a call leaves behind agrees with the history that the call extends. */
  lemma AgreesAfterCall(ts: seq<int>, h: seq<Call>, e: Call, window: int)
    requires Agrees(ts, h, e.key, window)
    ensures Agrees(Recent(ts, e.at - window) + (if e.ok then [e.at] else []), h + [e], e.key, window)
  {
    var valid, g := Recent(ts, e.at - window), h + [e];
    assert g[..|h|] == h;
    forall c: int | Usable(g, window, c)
      ensures Recent(valid + (if e.ok then [e.at] else []), c) == Recent(Admissions(g, e.key), c)
    {
      UsableSnoc(h, e, window, c);
      RecentTwice(ts, e.at - window, c);
      if e.ok {
        RecentSnoc(valid, e.at, c);
        RecentSnoc(Admissions(h, e.key), e.at, c);
      } else {
        assert valid + [] == valid;
      }
    }
  }

  lemma AgreesOnOthers(ts: seq<int>, h: seq<Call>, e: Call, key: string, window: int)
    requires Agrees(ts, h, key, window) && key != e.key
    ensures Agrees(ts, h + [e], key, window)
  {
    assert (h + [e])[..|h|] == h;
    forall c: int | Usable(h + [e], window, c)
      ensures Recent(ts, c) == Recent(Admissions(h + [e], key), c)
    {
      UsableSnoc(h, e, window, c);
    }
  }

  type Counts = map<string, seq<int>>

  /** `counts[key]`, where a missing key reads as no times. */
  function TimesIn(counts: Counts, key: string): (ts: seq<int>) {
    if key in counts then counts[key] else []
  }

  ghost predicate AllAgree(counts: Counts, h: seq<Call>, window: int) {
    forall key: string :: Agrees(TimesIn(counts, key), h, key, window)
  }

  lemma AllAgreeAfterCall(counts: Counts, h: seq<Call>, e: Call, window: int, ts: seq<int>)
    requires AllAgree(counts, h, window)
    requires ts == Recent(TimesIn(counts, e.key), e.at - window) + if e.ok then [e.at] else []
    ensures AllAgree(counts[e.key := ts], h + [e], window)
  {
    var next := counts[e.key := ts];
    forall k: string
      ensures Agrees(TimesIn(next, k), h + [e], k, window)
    {
      assert Agrees(TimesIn(counts, k), h, k, window);
      if k == e.key {
        AgreesAfterCall(TimesIn(counts, k), h, e, window);
      } else {
        assert TimesIn(next, k) == TimesIn(counts, k);
        AgreesOnOthers(TimesIn(counts, k), h, e, k, window);
      }
    }
  }

  /** The pruned times of a key are as many as its admissions in (now - window, now]. */
  lemma PrunedCounts(counts: Counts, h: seq<Call>, key: string, window: int, now: int)
    requires AllAgree(counts, h, window)
    requires forall i :: 0 <= i < |h| ==> h[i].at <= now
    ensures |Recent(TimesIn(counts, key), now - window)| == CountIn(h, key, now - window, now)
  {
    assert Agrees(TimesIn(counts, key), h, key, window) && Usable(h, window, now - window);
    RecentCounts(h, key, now - window, now);
  }

  class Limiter {
    const max: int
    const window: int
    var counts: Counts
    ghost var history: seq<Call>

    ghost predicate Valid()
      reads this
    {
      Chronological(history) && Honest(history, max, window) && AllAgree(counts, history, window)
    }

    constructor (max: int, window: int)
      ensures Valid() && history == [] && this.max == max && this.window == window
    {
      this.max, this.window, counts, history := max, window, map[], [];
    }

    method Filter(ts: seq<int>, cutoff: int) returns (valid: seq<int>)
      ensures valid == Recent(ts, cutoff)
    {
      valid := [];
      for i := 0 to |ts|
        invariant valid == Recent(ts[..i], cutoff)
      {
        assert ts[..i + 1][..i] == ts[..i];
        if ts[i] > cutoff {
          valid := valid + [ts[i]];
        }
      }
      assert ts[..|ts|] == ts;
    }

    method Allow(key: string, now: int) returns (ok: bool)
      requires Valid()
      requires forall i :: 0 <= i < |history| ==> history[i].at <= now
      modifies this
      ensures Valid() && history == old(history) + [Call(key, now, ok)]
      ensures ok <==> CountIn(old(history), key, now - window, now) < max
    {
      var cutoff := now - window;
      var valid := Filter(TimesIn(counts, key), cutoff);
      PrunedCounts(counts, history, key, window, now);
      if |valid| >= max {
        AllAgreeAfterCall(counts, history, Call(key, now, false), window, valid);
        counts := counts[key := valid];
        ok := false;
      } else {
        AllAgreeAfterCall(counts, history, Call(key, now, true), window, valid + [now]);
        counts := counts[key := valid + [now]];
        ok := true;
      }
      HonestSnoc(history, Call(key, now, ok), max, window);
      history := history + [Call(key, now, ok)];
    }
  }

  lemma HonestSnoc(h: seq<Call>, c: Call, max: int, window: int)
    requires Honest(h, max, window)
    requires c.ok <==> CountIn(h, c.key, c.at - window, c.at) < max
    requires Chronological(h) && forall i :: 0 <= i < |h| ==> h[i].at <= c.at
    ensures Chronological(h + [c]) && Honest(h + [c], max, window)
  {
    var g := h + [c];
    forall i | 0 <= i < |g|
      ensures HonestAt(g, i, max, window)
    {
      if i < |h| {
        assert HonestAt(h, i, max, window) && g[..i] == h[..i];
      } else {
        assert g[..i] == h;
      }
    }
  }

  // ---- What the limiter promises ----

  /** CountIn counts calls: those of the key that were let through, after `lo` and not after `hi`. */
  lemma {:induction false} CountIsCardinality(h: seq<Call>, key: string, lo: int, hi: int)
    ensures CountIn(h, key, lo, hi) == |set i | 0 <= i < |h| && h[i].key == key && h[i].ok && lo < h[i].at <= hi|
  {
    var all := set i | 0 <= i < |h| && h[i].key == key && h[i].ok && lo < h[i].at <= hi;
    if h == [] {
      assert all == {};
    } else {
      var n := |h| - 1;
      var g := h[..n];
      var most := set i | 0 <= i < |g| && g[i].key == key && g[i].ok && lo < g[i].at <= hi;
      CountIsCardinality(g, key, lo, hi);
      if h[n].key == key && h[n].ok && lo < h[n].at <= hi {
        assert all == most + {n};
      } else {
        assert all == most;
      }
    }
  }

  lemma {:induction false} CountWider(h: seq<Call>, key: string, lo: int, hi: int, lo': int, hi': int)
    requires lo' <= lo
    requires forall i :: 0 <= i < |h| ==> h[i].at <= hi'
    ensures CountIn(h, key, lo, hi) <= CountIn(h, key, lo', hi')
  {
    if h != [] {
      CountWider(h[..|h| - 1], key, lo, hi, lo', hi');
    }
  }

  /** Over any chronological run, no interval (s, s + window] holds more than `max` admissions of a key. */
  lemma {:induction false} WindowBound(h: seq<Call>, max: int, window: int, key: string, s: int)
    requires Chronological(h) && Honest(h, max, window)
    ensures CountIn(h, key, s, s + window) <= if max < 0 then 0 else max
  {
    if h != [] {
      var g, c := h[..|h| - 1], h[|h| - 1];
      forall i | 0 <= i < |g|
        ensures HonestAt(g, i, max, window)
      {
        assert HonestAt(h, i, max, window) && g[..i] == h[..i];
      }
      assert HonestAt(h, |g|, max, window);
      WindowBound(g, max, window, key, s);
      if c.key == key && c.ok && s < c.at <= s + window {
        assert forall i :: 0 <= i < |g| ==> g[i].at <= c.at;
        CountWider(g, key, s, s + window, c.at - window, c.at);
      }
    }
  }
}
