/** Which packets clampMSS rewrites and to what, in terms of the bytes of the packet alone. */
module MssBytes {
  import opened Options
  import opened Bytes
  import opened Snat
  import opened Mss

  /** The first `n` bytes of the buffer are TCP over IPv4: `w` words of IP header, `d` words of TCP header. */
  predicate IsTcp(buf: seq<byte>, n: nat, w: nat, d: nat) {
    && 20 <= n <= |buf| && w <= 15 && 4 * w + 20 <= n
    && buf[0] as int == 0x40 + w && buf[9] == 6
    && d <= 15 && 16 * d <= buf[4 * w + 12] as int < 16 * d + 16
  }

  /** The second lowest flag is SYN, whatever the others are. */
  predicate IsSyn(buf: seq<byte>, w: nat)
    requires 4 * w + 13 < |buf|
  {
    buf[4 * w + 13] % 4 >= 2
  }

  lemma SynIff(buf: seq<byte>, n: nat, w: nat, d: nat)
    requires IsTcp(buf, n, w, d)
    ensures Ihl(buf[..n]) == 4 * w && HeaderEnd(buf[..n]) == 4 * w + 4 * d
    ensures SynWithOptions(buf[..n]) <==> IsSyn(buf, w) && d > 5
  {
    var pkt := buf[..n];
    assert pkt[0] == buf[0] && pkt[9] == buf[9];
    assert Upper(pkt[0]) == 4 && Lower(pkt[0]) == w;
    assert pkt[4 * w + 12] == buf[4 * w + 12] && Upper(pkt[4 * w + 12]) == d;
    assert pkt[4 * w + 13] == buf[4 * w + 13];
    SynBit(buf[4 * w + 13]);
  }

  lemma SynBit(f: byte)
    ensures SynFlag(f) <==> f % 4 >= 2
  {
    var q, r := f / 4, f % 4;
    assert f == 4 * q + r;
    assert f / 2 == 2 * q + r / 2;
  }

  /** Every other packet is left alone. */
  lemma OthersPass(buf: seq<byte>, n: nat)
    requires n <= |buf| && forall w: nat, d: nat :: IsTcp(buf, n, w, d) ==> !IsSyn(buf, w) || d <= 5
    ensures !Panics(buf, n) && ClampedIn(buf, n) == buf
  {
    var pkt := buf[..n];
    if |pkt| >= 20 && Upper(pkt[0]) == 4 && pkt[9] == 6 && |pkt| >= Ihl(pkt) + 20 {
      var w := Lower(pkt[0]);
      var d := Upper(pkt[4 * w + 12]);
      assert IsTcp(buf, n, w, d);
      SynIff(buf, n, w, d);
    }
  }

  predicate IsMssOption(o: TcpOption) {
    o.Opt? && o.kind == 2 && |o.body| == 2
  }

  /** Bytes that the first `k` options of a list take. */
  function Offset(os: seq<TcpOption>, k: nat): (i: nat)
    requires k <= |os|
  {
    if k == 0 then 0 else (if os[0].Nop? then 1 else 2 + |os[0].body|) + Offset(os[1..], k - 1)
  }

  lemma {:induction false} FirstMssAt(os: seq<TcpOption>, k: nat)
    requires forall o :: o in os ==> WellFormed(o)
    requires k < |os| && IsMssOption(os[k]) && forall j :: 0 <= j < k ==> !IsMssOption(os[j])
    ensures FirstMss(os) == Some(Offset(os, k))
  {
    if k > 0 {
      assert !IsMssOption(os[0]);
      FirstMssAt(os[1..], k - 1);
    }
  }

  lemma {:induction false} NoMss(os: seq<TcpOption>)
    requires forall o :: o in os ==> WellFormed(o) && !IsMssOption(o)
    ensures FirstMss(os) == None
  {
    if os != [] {
      assert os[0] in os;
      NoMss(os[1..]);
    }
  }

  /** The option bytes of the packet encode `os`, ended by their length or an end-of-options byte. */
  predicate HasOptions(buf: seq<byte>, w: nat, d: nat, os: seq<TcpOption>, rest: seq<byte>) {
    && (forall o :: o in os ==> WellFormed(o))
    && d > 5 && 4 * w + 4 * d <= |buf|
    && buf[4 * w + 20..4 * w + 4 * d] == EncodeAll(os) + rest
    && (rest == [] || rest[0] == 0)
  }

  /** The walk over those bytes finds the first MSS option of the list. */
  lemma OptionsFound(buf: seq<byte>, w: nat, d: nat, os: seq<TcpOption>, rest: seq<byte>)
    requires HasOptions(buf, w, d, os, rest)
    ensures FindMss(buf[4 * w + 20..4 * w + 4 * d]) == FirstMss(os)
  {
    WalkFindsFirst(os, rest);
  }

  lemma WalkOf(buf: seq<byte>, n: nat, w: nat, d: nat, found: Option<nat>)
    requires IsTcp(buf, n, w, d) && IsSyn(buf, w) && d > 5 && 4 * w + 4 * d <= |buf|
    requires FindMss(buf[4 * w + 20..4 * w + 4 * d]) == found
    ensures !Panics(buf, n)
    ensures var word := Shifted(4 * w + 22, found);
            && (word.Some? ==> word.value + 2 <= |buf|)
            && TooLargeAt(buf, n) == LargeAt(buf, word)
  {
    SynIff(buf, n, w, d);
  }

  /** A SYN or SYN-ACK leaves with its first MSS option at the smaller of its old value and 1360. */
  lemma ClampsEverySyn(buf: seq<byte>, n: nat, w: nat, d: nat, os: seq<TcpOption>, k: nat, rest: seq<byte>)
    requires IsTcp(buf, n, w, d) && IsSyn(buf, w) && HasOptions(buf, w, d, os, rest)
    requires k < |os| && IsMssOption(os[k]) && forall j :: 0 <= j < k ==> !IsMssOption(os[j])
    ensures !Panics(buf, n)
    ensures var at := 4 * w + 22 + Offset(os, k);
            && at + 2 <= |buf|
            && Get16(ClampedIn(buf, n), at) == (if Get16(buf, at) > 1360 then 1360 else Get16(buf, at))
            && Untouched(buf, ClampedIn(buf, n), at, 4 * w + 16)
  {
    FirstMssAt(os, k);
    OptionsFound(buf, w, d, os, rest);
    ClampsFirst(buf, n, w, d, Offset(os, k));
  }

  lemma ClampsFirst(buf: seq<byte>, n: nat, w: nat, d: nat, i: nat)
    requires IsTcp(buf, n, w, d) && IsSyn(buf, w) && d > 5 && 4 * w + 4 * d <= |buf|
    requires FindMss(buf[4 * w + 20..4 * w + 4 * d]) == Some(i)
    ensures !Panics(buf, n)
    ensures var at := 4 * w + 22 + i;
            && at + 2 <= |buf|
            && Get16(ClampedIn(buf, n), at) == (if Get16(buf, at) > 1360 then 1360 else Get16(buf, at))
            && Untouched(buf, ClampedIn(buf, n), at, 4 * w + 16)
  {
    WalkOf(buf, n, w, d, Some(i));
    SynIff(buf, n, w, d);
    WordAfter(buf, n, 4 * w, 4 * w + 22 + i);
  }

  lemma WordAfter(buf: seq<byte>, n: nat, ihl: nat, at: nat)
    requires n <= |buf| && 20 <= n && ihl + 18 <= n && ihl + 18 <= at && at + 2 <= |buf|
    requires !Panics(buf, n) && ihl == Ihl(buf[..n]) && TooLargeAt(buf, n) == LargeAt(buf, Some(at))
    ensures Get16(ClampedIn(buf, n), at) == (if Get16(buf, at) > 1360 then 1360 else Get16(buf, at))
    ensures Untouched(buf, ClampedIn(buf, n), at, ihl + 16)
  {
    ClampedAtKeeps(buf, n, ihl, at);
  }

  /** All bytes are the same except the words at `at` and `off`. */
  predicate Untouched(buf: seq<byte>, r: seq<byte>, at: nat, off: nat) {
    |r| == |buf| && forall j :: 0 <= j < |buf| && j != at && j != at + 1 && j != off && j != off + 1 ==> r[j] == buf[j]
  }

  lemma ClampedAtKeeps(buf: seq<byte>, n: nat, ihl: nat, at: nat)
    requires n <= |buf| && 20 <= n && ihl + 18 <= n && ihl + 18 <= at && at + 2 <= |buf|
    ensures Get16(ClampedAt(buf, n, ihl, at), at) == 1360
    ensures Untouched(buf, ClampedAt(buf, n, ihl, at), at, ihl + 16)
  {
    var b := Put16(buf, at, 1360);
    var r := ClampedAt(buf, n, ihl, at);
    assert forall j :: 0 <= j < |buf| && j != ihl + 16 && j != ihl + 17 ==> r[j] == b[j];
  }

  /** Without an MSS option nothing changes. */
  lemma NothingToClamp(buf: seq<byte>, n: nat, w: nat, d: nat, os: seq<TcpOption>, rest: seq<byte>)
    requires IsTcp(buf, n, w, d) && IsSyn(buf, w) && HasOptions(buf, w, d, os, rest)
    requires forall o :: o in os ==> !IsMssOption(o)
    ensures !Panics(buf, n) && ClampedIn(buf, n) == buf
  {
    NoMss(os);
    OptionsFound(buf, w, d, os, rest);
    WalkOf(buf, n, w, d, None);
  }
}
