/**
 The receiving half of RUTP: a set of seen sequence numbers, pruned at every 500th number below a
 uint32 cutoff that wraps for small numbers.
 */
module RutpReceiver {
  import opened Options
  import opened Bytes
  import RF = RutpFrame

  /** `seq - 5000` in a uint32. */
  function Cutoff(n: u32): (c: u32) {
    if n >= 5000 then n - 5000 else n - 5000 + 0x1_0000_0000
  }

  /** Accepting `s` makes the receiver forget `k`. */
  predicate Forgets(s: u32, k: u32) {
    s % 500 == 0 && k < Cutoff(s)
  }

  function Seen(seen: set<u32>, n: u32): (r: set<u32>) {
    if n in seen then seen else set k | k in seen + {n} && !Forgets(n, k)
  }

  function SeenAfter(ns: seq<u32>): (r: set<u32>) {
    if ns == [] then {} else Seen(SeenAfter(ns[..|ns| - 1]), ns[|ns| - 1])
  }

  /** The arrival at index `i` is delivered. */
  predicate Accepted(ns: seq<u32>, i: nat) {
    i < |ns| && ns[i] !in SeenAfter(ns[..i])
  }

  // ---- The code ----

  class Receiver {
    const prefix: seq<byte>
    var seen: set<u32>
    /** Datagrams written to the socket. */
    var acks: seq<seq<byte>>
    ghost var arrivals: seq<u32>

    ghost predicate Valid()
      reads this
    {
      seen == SeenAfter(arrivals)
    }

    constructor (prefix: seq<byte>)
      ensures Valid() && arrivals == [] && acks == [] && this.prefix == prefix
    {
      this.prefix := prefix;
      seen, acks, arrivals := {}, [], [];
    }

    /** Returns the payload if it is new, None if it is a duplicate; acknowledges twice either way. */
    method OnData(n: u32, payload: seq<byte>) returns (r: Option<seq<byte>>)
      requires Valid()
      modifies this
      ensures Valid() && arrivals == old(arrivals) + [n]
      ensures r == if Accepted(arrivals, |arrivals| - 1) then Some(payload) else None
      ensures var ack := prefix + RF.Frame(RF.Packet(2, n, [])); acks == old(acks) + [ack, ack]
    {
      var frame := RF.BuildFrame(RF.ACK, n, []);
      var msg := prefix + frame;
      acks := acks + [msg, msg];
      arrivals := arrivals + [n];
      assert arrivals[..|arrivals| - 1] == old(arrivals);
      if n in seen {
        return None;
      }
      seen := seen + {n};
      if n % 500 == 0 {
        Prune(Cutoff(n));
      }
      return Some(payload);
    }

    method Prune(cutoff: u32)
      modifies this`seen
      ensures seen == set k | k in old(seen) && k >= cutoff
    {
      ghost var was := seen;
      var todo := seen;
      while todo != {}
        invariant todo <= seen <= was
        invariant forall k :: k in was && k !in todo ==> (k in seen <==> k >= cutoff)
        decreases todo
        modifies this`seen
      {
        var k :| k in todo;
        todo := todo - {k};
        if k < cutoff {
          seen := seen - {k};
        }
      }
    }
  }

  // ---- Which arrivals are delivered ----

  /** Some arrival of `k` was delivered at `i` and nothing delivered since then made the receiver forget it. */
  predicate Remembered(ns: seq<u32>, k: u32, i: nat) {
    && Accepted(ns, i) && ns[i] == k
    && forall m :: i <= m < |ns| && Accepted(ns, m) ==> !Forgets(ns[m], k)
  }

  lemma AcceptedPrefix(ns: seq<u32>, n: nat, i: nat)
    requires i < n <= |ns|
    ensures Accepted(ns[..n], i) <==> Accepted(ns, i)
  {
    assert ns[..n][..i] == ns[..i];
  }

  lemma {:induction false} SeenIsRemembered(ns: seq<u32>, k: u32)
    ensures k in SeenAfter(ns) <==> exists i: nat :: Remembered(ns, k, i)
  {
    if ns != [] {
      var n := |ns| - 1;
      var ms := ns[..n];
      SeenIsRemembered(ms, k);
      forall i: nat | i < n
        ensures Remembered(ns, k, i) <==> Remembered(ms, k, i) && (Accepted(ns, n) ==> !Forgets(ns[n], k))
      {
        RememberedSnoc(ns, k, i);
      }
      if k in SeenAfter(ns) && k in SeenAfter(ms) {
        var i: nat :| Remembered(ms, k, i);
        assert Remembered(ns, k, i);
      } else if k in SeenAfter(ns) {
        assert Remembered(ns, k, n);
      }
    }
  }

  lemma RememberedSnoc(ns: seq<u32>, k: u32, i: nat)
    requires i < |ns| - 1
    ensures var n := |ns| - 1;
            Remembered(ns, k, i) <==> Remembered(ns[..n], k, i) && (Accepted(ns, n) ==> !Forgets(ns[n], k))
  {
    var n := |ns| - 1;
    forall m: nat | m < n
      ensures Accepted(ns[..n], m) <==> Accepted(ns, m)
    {
      AcceptedPrefix(ns, n, m);
    }
    if Remembered(ns, k, i) {
      assert forall m :: i <= m < n && Accepted(ns[..n], m) ==> Accepted(ns, m) && !Forgets(ns[m], k);
    }
  }

  /**
   An arrival is delivered exactly when every earlier delivery of the same number has since been
   forgotten: from it on and before the arrival, some s with s % 500 == 0 and k < s - 5000 (mod 2^32)
   was delivered.
   */
  lemma DeliveredIff(ns: seq<u32>, j: nat)
    requires j < |ns|
    ensures Accepted(ns, j) <==>
            forall i: nat :: i < j && ns[i] == ns[j] && Accepted(ns, i) ==>
              exists m :: i <= m < j && Accepted(ns, m) && ns[m] % 500 == 0
                          && ns[j] < if ns[m] >= 5000 then ns[m] - 5000 else ns[m] + 4_294_962_296
  {
    var ms, k := ns[..j], ns[j];
    SeenIsRemembered(ms, k);
    forall m: nat | m < j
      ensures Accepted(ms, m) <==> Accepted(ns, m)
    {
      AcceptedPrefix(ns, j, m);
    }
    if Accepted(ns, j) {
      forall i: nat | i < j && ns[i] == k && Accepted(ns, i)
        ensures exists m :: i <= m < j && Accepted(ns, m) && ns[m] % 500 == 0
                            && k < if ns[m] >= 5000 then ns[m] - 5000 else ns[m] + 4_294_962_296
      {
        assert !Remembered(ms, k, i);
        var m :| i <= m < |ms| && Accepted(ms, m) && Forgets(ms[m], k);
        assert Accepted(ns, m) && Forgets(ns[m], k);
      }
    } else {
      var i: nat :| Remembered(ms, k, i);
      assert i < j && ns[i] == k && Accepted(ns, i);
      assert forall m :: i <= m < j && Accepted(ns, m) ==> Accepted(ms, m) && !Forgets(ms[m], k);
    }
  }

  /** At most one delivery per number when no pruning number is small and no arrival lags one by more than 5000. */
  lemma AtMostOnce(ns: seq<u32>, i: nat, j: nat)
    requires i < j < |ns| && ns[i] == ns[j]
    requires forall m :: i <= m < j && ns[m] % 500 == 0 ==> ns[m] >= 5000 && ns[j] >= ns[m] - 5000
    requires Accepted(ns, i)
    ensures !Accepted(ns, j)
  {
    DeliveredIff(ns, j);
  }

  /** Without that: number 500 clears the set, so number 1 is delivered a second time. */
  lemma SmallNumbersForget()
    ensures Accepted([1, 500, 1], 0) && Accepted([1, 500, 1], 1) && Accepted([1, 500, 1], 2)
  {
    var ns: seq<u32> := [1, 500, 1];
    assert ns[..0] == [] && ns[..1] == [1] && ns[..2] == [1, 500];
    assert [1 as u32, 500][..1] == [1] && [1 as u32][..0] == [];
    assert SeenAfter([1]) == {1};
    assert SeenAfter([1, 500]) == Seen({1}, 500);
    assert Forgets(500, 1);
  }
}
