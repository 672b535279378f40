/**
 The keys of the NAT table.  The source prints a flow into a string ("6:10.0.0.7:443:51000",
 "icmp:10.0.0.7:4242"); the proofs speak of the flow itself, and printing is shown to be injective.
 */
module FlowKeys {
  import opened Bytes

  /** A flow as the forwarding direction names it: remote address and port first, then the local port. */
  datatype FlowKey =
    | Ports(proto: byte, remote: IPv4, remotePort: u16, localPort: u16)
    | Echo(remote: IPv4, id: u16)

  function Digit(d: nat): (c: char)
    requires d < 10
  {
    '0' + d as char
  }

  /** %d of a non-negative integer. */
  function Decimal(n: nat): (s: string)
    ensures |s| > 0 && forall c :: c in s ==> '0' <= c <= '9'
  {
    if n < 10 then [Digit(n)] else Decimal(n / 10) + [Digit(n % 10)]
  }

  /** %s of a net.IP holding an IPv4 address. */
  function Dotted(ip: IPv4): (s: string)
    ensures ':' !in s
  {
    Decimal(ip[0]) + "." + (Decimal(ip[1]) + "." + (Decimal(ip[2]) + "." + Decimal(ip[3])))
  }

  function Print(k: FlowKey): (s: string) {
    match k
    case Ports(proto, ip, rp, lp) =>
      Decimal(proto) + ":" + (Dotted(ip) + ":" + (Decimal(rp) + ":" + Decimal(lp)))
    case Echo(ip, id) =>
      "icmp" + ":" + (Dotted(ip) + ":" + Decimal(id))
  }

  // ---- Printing loses nothing ----

  lemma {:induction false} DecimalInjective(m: nat, n: nat)
    requires Decimal(m) == Decimal(n)
    ensures m == n
    decreases m
  {
    var s := Decimal(m);
    var last := |s| - 1;
    assert m < 10 <==> |s| == 1;
    assert n < 10 <==> |s| == 1;
    assert s[last] == Digit(m % 10) == Digit(n % 10);
    if m >= 10 {
      assert s[..last] == Decimal(m / 10) == Decimal(n / 10);
      DecimalInjective(m / 10, n / 10);
    }
  }

  /** The first separator of a concatenation determines both parts. */
  lemma SplitAtSeparator(a: string, b: string, a': string, b': string, sep: char)
    requires sep !in a && sep !in a'
    requires a + [sep] + b == a' + [sep] + b'
    ensures a == a' && b == b'
  {
    var s := a + [sep] + b;
    var s' := a' + [sep] + b';
    assert s[|a|] == sep && s'[|a'|] == sep;
    assert |a| == |a'|;
    assert a == s[..|a|] && a' == s'[..|a|];
    assert b == s[|a| + 1..] && b' == s'[|a| + 1..];
  }

  lemma DottedInjective(x: IPv4, y: IPv4)
    requires Dotted(x) == Dotted(y)
    ensures x == y
  {
    var t0 := Decimal(x[2]) + "." + Decimal(x[3]);
    var u0 := Decimal(y[2]) + "." + Decimal(y[3]);
    SplitAtSeparator(Decimal(x[0]), Decimal(x[1]) + "." + t0, Decimal(y[0]), Decimal(y[1]) + "." + u0, '.');
    SplitAtSeparator(Decimal(x[1]), t0, Decimal(y[1]), u0, '.');
    SplitAtSeparator(Decimal(x[2]), Decimal(x[3]), Decimal(y[2]), Decimal(y[3]), '.');
    DecimalInjective(x[0], y[0]);
    DecimalInjective(x[1], y[1]);
    DecimalInjective(x[2], y[2]);
    DecimalInjective(x[3], y[3]);
  }

  /** The part of a printed key before its first colon. */
  function Head(k: FlowKey): (s: string)
    ensures ':' !in s
  {
    if k.Ports? then Decimal(k.proto) else "icmp"
  }

  function Tail(k: FlowKey): (s: string) {
    match k
    case Ports(_, _, rp, lp) => Decimal(rp) + ":" + Decimal(lp)
    case Echo(_, id) => Decimal(id)
  }

  lemma HeadsDiffer()
    ensures forall n: nat :: Decimal(n) != "icmp"
  {
    assert "icmp"[0] in "icmp";
  }

  lemma PrintInjective(k: FlowKey, l: FlowKey)
    requires Print(k) == Print(l)
    ensures k == l
  {
    var kr := Dotted(k.remote) + ":" + Tail(k);
    var lr := Dotted(l.remote) + ":" + Tail(l);
    SplitAtSeparator(Head(k), kr, Head(l), lr, ':');
    SplitAtSeparator(Dotted(k.remote), Tail(k), Dotted(l.remote), Tail(l), ':');
    DottedInjective(k.remote, l.remote);
    HeadsDiffer();
    if k.Ports? && l.Ports? {
      DecimalInjective(k.proto, l.proto);
      SplitAtSeparator(Decimal(k.remotePort), Decimal(k.localPort), Decimal(l.remotePort), Decimal(l.localPort), ':');
      DecimalInjective(k.remotePort, l.remotePort);
      DecimalInjective(k.localPort, l.localPort);
    } else if k.Echo? && l.Echo? {
      DecimalInjective(k.id, l.id);
    }
  }
}
