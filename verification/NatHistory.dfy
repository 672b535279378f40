/**
 The NAT table over whole runs.  Every operation on the table is an event; `TableAfter` folds the
 events through the string-keyed table of the source, and the characterisation below says what that
 table holds in terms of the history alone.
 */
module NatHistory {
  import opened Bytes
  import opened FlowKeys

  /** Nanoseconds in five minutes, the age at which cleanupNATTable drops an entry. */
  const MAX_AGE: int := 300_000_000_000

  datatype NatEntry = NatEntry(originalSrc: IPv4, lastSeen: int)

  type NatTable = map<string, NatEntry>

  datatype Event =
    | Forward(key: FlowKey, src: IPv4, at: int)
    | Reply(key: FlowKey, at: int)
    | Expire(at: int)

  function Step(t: NatTable, e: Event): (r: NatTable) {
    match e
    case Forward(key, src, at) => t[Print(key) := NatEntry(src, at)]
    case Reply(key, at) =>
      var s := Print(key);
      if s in t then t[s := t[s].(lastSeen := at)] else t
    case Expire(now) => map s | s in t && t[s].lastSeen >= now - MAX_AGE :: t[s]
  }

  function TableAfter(h: seq<Event>): (t: NatTable) {
    if h == [] then map[] else Step(TableAfter(h[..|h| - 1]), h[|h| - 1])
  }

  lemma TableAfterSnoc(h: seq<Event>, e: Event)
    ensures TableAfter(h + [e]) == Step(TableAfter(h), e)
  {
    assert (h + [e])[..|h|] == h;
  }

  // ---- What a history says about one flow ----

  predicate Forwards(e: Event, k: FlowKey) {
    e.Forward? && e.key == k
  }

  predicate Touches(e: Event, k: FlowKey) {
    !e.Expire? && e.key == k
  }

  predicate IsLastForward(h: seq<Event>, k: FlowKey, i: nat) {
    i < |h| && Forwards(h[i], k) && forall j :: i < j < |h| ==> !Forwards(h[j], k)
  }

  predicate NeverForwarded(h: seq<Event>, k: FlowKey) {
    forall j :: 0 <= j < |h| ==> !Forwards(h[j], k)
  }

  /** When flow `k` was last used in either direction, from its forward at `i` up to but excluding `n`. */
  function LastUse(h: seq<Event>, k: FlowKey, i: nat, n: nat): (at: int)
    requires i < n <= |h|
  {
    if n == i + 1 || Touches(h[n - 1], k) then h[n - 1].at else LastUse(h, k, i, n - 1)
  }

  /** No cleanup after the forward at `i` found the flow unused for more than five minutes. */
  predicate Unexpired(h: seq<Event>, k: FlowKey, i: nat) {
    forall j :: i < j < |h| && h[j].Expire? ==> LastUse(h, k, i, j) >= h[j].at - 300_000_000_000
  }

  lemma {:induction false} LastUsePrefix(h: seq<Event>, k: FlowKey, i: nat, n: nat, m: nat)
    requires i < n <= m <= |h|
    ensures LastUse(h[..m], k, i, n) == LastUse(h, k, i, n)
  {
    if n > i + 1 {
      LastUsePrefix(h, k, i, n - 1, m);
    }
  }

  /** Dropping the last event of a history keeps the latest forward, and splits off one expiry test. */
  lemma LastForwardStep(h: seq<Event>, k: FlowKey, i: nat)
    requires IsLastForward(h, k, i) && i < |h| - 1
    ensures var g, e := h[..|h| - 1], h[|h| - 1];
            && IsLastForward(g, k, i)
            && LastUse(g, k, i, |g|) == LastUse(h, k, i, |g|)
            && (Unexpired(h, k, i) <==>
                  Unexpired(g, k, i) && (e.Expire? ==> LastUse(h, k, i, |g|) >= e.at - MAX_AGE))
  {
    var n := |h| - 1;
    var g := h[..n];
    forall j | i < j <= n
      ensures LastUse(g, k, i, j) == LastUse(h, k, i, j)
    {
      LastUsePrefix(h, k, i, j, n);
    }
    if Unexpired(g, k, i) && (h[n].Expire? ==> LastUse(h, k, i, n) >= h[n].at - MAX_AGE) {
      forall j | i < j < |h| && h[j].Expire?
        ensures LastUse(h, k, i, j) >= h[j].at - 300_000_000_000
      {
        if j < n {
          assert g[j] == h[j];
        }
      }
    }
  }

  /** A step on another flow leaves the entry of `k` alone. */
  lemma OtherFlowStep(t: NatTable, e: Event, k: FlowKey)
    requires !e.Expire? && e.key != k
    ensures Print(k) in Step(t, e) <==> Print(k) in t
    ensures Print(k) in t ==> Step(t, e)[Print(k)] == t[Print(k)]
  {
    if Print(e.key) == Print(k) {
      PrintInjective(e.key, k);
    }
  }

  lemma {:induction false} NeverForwardedAbsent(h: seq<Event>, k: FlowKey)
    requires NeverForwarded(h, k)
    ensures Print(k) !in TableAfter(h)
  {
    if h != [] {
      var g, e := h[..|h| - 1], h[|h| - 1];
      assert forall j :: 0 <= j < |g| ==> g[j] == h[j];
      NeverForwardedAbsent(g, k);
      if !e.Expire? && e.key != k {
        OtherFlowStep(TableAfter(g), e, k);
      }
    }
  }

  /**
   The table holds a flow exactly when its latest forward has not expired, and then with the source
   address of that latest forward and the time of the latest use.
   */
  lemma {:induction false} TableIsLastForward(h: seq<Event>, k: FlowKey, i: nat)
    requires IsLastForward(h, k, i)
    ensures Print(k) in TableAfter(h) <==> Unexpired(h, k, i)
    ensures Unexpired(h, k, i) ==> TableAfter(h)[Print(k)] == NatEntry(h[i].src, LastUse(h, k, i, |h|))
  {
    var g, e := h[..|h| - 1], h[|h| - 1];
    if i < |h| - 1 {
      LastForwardStep(h, k, i);
      TableIsLastForward(g, k, i);
      if !e.Expire? && e.key != k {
        OtherFlowStep(TableAfter(g), e, k);
      }
    }
  }

  /** The table holds nothing but printed flows that were forwarded. */
  lemma {:induction false} KeysWereForwarded(h: seq<Event>, s: string)
    requires s in TableAfter(h)
    ensures exists i :: 0 <= i < |h| && h[i].Forward? && Print(h[i].key) == s
  {
    var n := |h| - 1;
    var g, e := h[..n], h[n];
    if e.Forward? && Print(e.key) == s {
      assert h[n].Forward?;
    } else {
      assert s in TableAfter(g);
      KeysWereForwarded(g, s);
      var i :| 0 <= i < |g| && g[i].Forward? && Print(g[i].key) == s;
      assert h[i] == g[i];
    }
  }
}
