/**
 Signalling messages on one WebSocket: the server's write pump puts every message that waits into a single
 frame, separated by newlines, and the client cuts a received frame back into messages.
 */
module MessageBatch {
  import opened Bytes

  const NEWLINE: byte := 10

  /** The white space that strings.TrimSpace cuts, by the length of its encoding in UTF-8. */
  predicate Space1(a: byte) {
    9 <= a <= 13 || a == 32
  }

  predicate Space2(a: byte, b: byte) {
    a == 0xC2 && (b == 0x85 || b == 0xA0)
  }

  predicate Space3(a: byte, b: byte, c: byte) {
    || (a == 0xE1 && b == 0x9A && c == 0x80)
    || (a == 0xE2 && b == 0x80 && (0x80 <= c <= 0x8A || c == 0xA8 || c == 0xA9 || c == 0xAF))
    || (a == 0xE2 && b == 0x81 && c == 0x9F)
    || (a == 0xE3 && b == 0x80 && c == 0x80)
  }

  /** The bytes that a space at the beginning of `s` takes, if there is one. */
  function Leading(s: seq<byte>): (n: nat)
    ensures n <= |s|
  {
    if |s| >= 1 && Space1(s[0]) then 1
    else if |s| >= 2 && Space2(s[0], s[1]) then 2
    else if |s| >= 3 && Space3(s[0], s[1], s[2]) then 3
    else 0
  }

  function Trailing(s: seq<byte>): (n: nat)
    ensures n <= |s|
  {
    var k := |s|;
    if k >= 1 && Space1(s[k - 1]) then 1
    else if k >= 2 && Space2(s[k - 2], s[k - 1]) then 2
    else if k >= 3 && Space3(s[k - 3], s[k - 2], s[k - 1]) then 3
    else 0
  }

  /** Neither end is a space. */
  predicate Tight(s: seq<byte>) {
    Leading(s) == 0 && Trailing(s) == 0
  }

  /** A message that survives a batch: something, on one line, with no space at either end. */
  predicate Clean(m: seq<byte>) {
    m != [] && NEWLINE !in m && Tight(m)
  }

  // ---- The library calls ----

  function TrimSpace(s: seq<byte>): (r: seq<byte>)
    ensures Tight(r)
    ensures r == s <==> Tight(s)
    ensures |r| <= |s| && forall b :: b in r ==> b in s
  {
    if Leading(s) > 0 then TrimSpace(s[Leading(s)..])
    else if Trailing(s) > 0 then TrimSpace(s[..|s| - Trailing(s)])
    else s
  }

  /** The lines of a text that gets `b` in front. */
  function Pushed(b: byte, lines: seq<seq<byte>>): (r: seq<seq<byte>>)
    requires lines != []
  {
    if b == NEWLINE then [[]] + lines else [[b] + lines[0]] + lines[1..]
  }

  /** `strings.Split(s, "\n")`: at least one line, the last one being whatever follows the last newline. */
  function Lines(s: seq<byte>): (r: seq<seq<byte>>)
    ensures |r| >= 1
    ensures forall l :: l in r ==> NEWLINE !in l
  {
    if s == [] then [[]]
    else
      Pushed(s[0], Lines(s[1..]))
  }

  function Join(ms: seq<seq<byte>>): (s: seq<byte>) {
    if ms == [] then []
    else if |ms| == 1 then ms[0]
    else ms[0] + [NEWLINE] + Join(ms[1..])
  }

  /** Cutting into lines loses nothing. */
  lemma {:induction false} JoinLines(s: seq<byte>)
    ensures Join(Lines(s)) == s
  {
    if s != [] {
      var rest := Lines(s[1..]);
      JoinLines(s[1..]);
      if s[0] == NEWLINE {
        assert ([[]] + rest)[1..] == rest;
      } else {
        var r := [[s[0]] + rest[0]] + rest[1..];
        assert r[1..] == rest[1..];
        assert s == [s[0]] + s[1..];
      }
    }
  }

  // ---- The receiving side ----

  function Trimmed(lines: seq<seq<byte>>): (ms: seq<seq<byte>>)
    ensures |ms| == |lines| && forall i :: 0 <= i < |lines| ==> ms[i] == TrimSpace(lines[i])
  {
    seq(|lines|, i requires 0 <= i < |lines| => TrimSpace(lines[i]))
  }

  function NonBlank(lines: seq<seq<byte>>): (ms: seq<seq<byte>>) {
    if lines == [] then []
    else
      var l := lines[|lines| - 1];
      NonBlank(lines[..|lines| - 1]) + if l != [] then [l] else []
  }

  function Messages(data: seq<byte>): (ms: seq<seq<byte>>) {
    NonBlank(Trimmed(Lines(data)))
  }

  method SplitMessages(data: seq<byte>) returns (msgs: seq<seq<byte>>)
    ensures msgs == Messages(data)
  {
    msgs := [];
    var lines := Lines(data);
    ghost var trimmedLines := Trimmed(lines);
    for i := 0 to |lines|
      invariant msgs == NonBlank(trimmedLines[..i])
    {
      assert trimmedLines[..i + 1][..i] == trimmedLines[..i];
      var trimmed := TrimSpace(lines[i]);
      if trimmed != [] {
        msgs := msgs + [trimmed];
      }
    }
    assert trimmedLines[..|lines|] == trimmedLines;
  }

  // ---- The sending side ----

  /** One frame of the write pump: the message that woke it, then all those queued. */
  method WriteFrame(first: seq<byte>, queued: seq<seq<byte>>) returns (frame: seq<byte>)
    ensures frame == Join([first] + queued)
  {
    frame := first;
    var n := |queued|;
    for i := 0 to n
      invariant frame == Join([first] + queued[..i])
    {
      JoinAppend([first] + queued[..i], queued[i]);
      assert [first] + queued[..i + 1] == [first] + queued[..i] + [queued[i]];
      frame := frame + [NEWLINE];
      frame := frame + queued[i];
    }
    assert queued[..n] == queued;
  }

  lemma {:induction false} JoinAppend(ms: seq<seq<byte>>, m: seq<byte>)
    requires ms != []
    ensures Join(ms + [m]) == Join(ms) + [NEWLINE] + m
  {
    if |ms| > 1 {
      JoinAppend(ms[1..], m);
      assert (ms + [m])[1..] == ms[1..] + [m];
    }
  }

  // ---- Batches neither merge nor lose messages ----

  lemma PushFront(b: byte, p: seq<seq<byte>>, q: seq<seq<byte>>)
    requires p != []
    ensures Pushed(b, p + q) == Pushed(b, p) + q
  {
    assert (p + q)[1..] == p[1..] + q;
  }

  lemma {:induction false} LinesOfTwo(a: seq<byte>, b: seq<byte>)
    ensures Lines(a + [NEWLINE] + b) == Lines(a) + Lines(b)
  {
    var s := a + [NEWLINE] + b;
    if a == [] {
      assert s[1..] == b;
    } else {
      LinesOfTwo(a[1..], b);
      assert s[1..] == a[1..] + [NEWLINE] + b;
      PushFront(a[0], Lines(a[1..]), Lines(b));
    }
  }

  lemma {:induction false} NonBlankConcat(p: seq<seq<byte>>, q: seq<seq<byte>>)
    ensures NonBlank(p + q) == NonBlank(p) + NonBlank(q)
  {
    if q == [] {
      assert p + q == p;
    } else {
      NonBlankConcat(p, q[..|q| - 1]);
      assert (p + q)[..|p + q| - 1] == p + q[..|q| - 1];
    }
  }

  lemma TrimmedConcat(p: seq<seq<byte>>, q: seq<seq<byte>>)
    ensures Trimmed(p + q) == Trimmed(p) + Trimmed(q)
  {
    var whole, parts := Trimmed(p + q), Trimmed(p) + Trimmed(q);
    forall i | 0 <= i < |whole|
      ensures whole[i] == parts[i]
    {
      assert (p + q)[i] == if i < |p| then p[i] else q[i - |p|];
    }
  }

  lemma MessagesOfTwo(a: seq<byte>, b: seq<byte>)
    ensures Messages(a + [NEWLINE] + b) == Messages(a) + Messages(b)
  {
    LinesOfTwo(a, b);
    TrimmedConcat(Lines(a), Lines(b));
    NonBlankConcat(Trimmed(Lines(a)), Trimmed(Lines(b)));
  }

  /** The messages of each part, one part after the other. */
  function MessagesOfAll(ms: seq<seq<byte>>): (r: seq<seq<byte>>) {
    if ms == [] then [] else Messages(ms[0]) + MessagesOfAll(ms[1..])
  }

  /** Whatever was sent: a batch is read as its parts would be read one by one. */
  lemma {:induction false} BatchReadsAsParts(ms: seq<seq<byte>>)
    ensures Messages(Join(ms)) == MessagesOfAll(ms)
  {
    if |ms| == 1 {
      assert MessagesOfAll(ms[1..]) == [];
    } else if |ms| > 1 {
      MessagesOfTwo(ms[0], Join(ms[1..]));
      BatchReadsAsParts(ms[1..]);
    }
  }

  lemma {:induction false} LineOfOne(m: seq<byte>)
    requires NEWLINE !in m
    ensures Lines(m) == [m]
  {
    if m != [] {
      LineOfOne(m[1..]);
      assert [m[0]] + m[1..] == m;
    } else {
      assert m == [];
    }
  }

  lemma CleanReadsAsItself(m: seq<byte>)
    requires Clean(m)
    ensures Messages(m) == [m]
  {
    LineOfOne(m);
    assert Trimmed([m]) == [m];
    assert NonBlank([m][..0]) == [];
  }

  lemma {:induction false} CleanPartsReadAsThemselves(ms: seq<seq<byte>>)
    requires forall m :: m in ms ==> Clean(m)
    ensures MessagesOfAll(ms) == ms
  {
    if ms != [] {
      CleanReadsAsItself(ms[0]);
      CleanPartsReadAsThemselves(ms[1..]);
    }
  }

  lemma {:induction false} NonBlankMembers(lines: seq<seq<byte>>)
    ensures forall m :: m in NonBlank(lines) ==> m in lines && m != []
  {
    if lines != [] {
      NonBlankMembers(lines[..|lines| - 1]);
    }
  }

  lemma MessagesAreClean(data: seq<byte>)
    ensures forall m :: m in Messages(data) ==> Clean(m)
  {
    var lines := Lines(data);
    NonBlankMembers(Trimmed(lines));
    forall m | m in Messages(data)
      ensures Clean(m)
    {
      var i :| 0 <= i < |lines| && Trimmed(lines)[i] == m;
      assert lines[i] in lines;
    }
  }

  /** A batch comes back as sent exactly when every message in it is clean. */
  lemma RoundTripIff(ms: seq<seq<byte>>)
    ensures Messages(Join(ms)) == ms <==> forall m :: m in ms ==> Clean(m)
  {
    MessagesAreClean(Join(ms));
    if forall m :: m in ms ==> Clean(m) {
      BatchReadsAsParts(ms);
      CleanPartsReadAsThemselves(ms);
    }
  }

  // ---- White space ----

  /** The code points with the White_Space property. */
  predicate White(c: nat) {
    || 9 <= c <= 13 || c == 32 || c == 0x85 || c == 0xA0 || c == 0x1680 || 0x2000 <= c <= 0x200A
    || c == 0x2028 || c == 0x2029 || c == 0x202F || c == 0x205F || c == 0x3000
  }

  /** A code point below 0x10000 in UTF-8 (section 3 of RFC 3629). */
  function Utf8(c: nat): (s: seq<byte>)
    requires c < 0x1_0000
  {
    if c < 0x80 then [c]
    else if c < 0x800 then [0xC0 + c / 64, 0x80 + c % 64]
    else [0xE0 + c / 4096, 0x80 + c / 64 % 64, 0x80 + c % 64]
  }

  ghost predicate BeginsWith(s: seq<byte>, c: nat) {
    White(c) && Utf8(c) <= s
  }

  ghost predicate EndsIn(s: seq<byte>, c: nat) {
    White(c) && |Utf8(c)| <= |s| && s[|s| - |Utf8(c)|..] == Utf8(c)
  }

  predicate IsSpace(u: seq<byte>) {
    || (|u| == 1 && Space1(u[0]))
    || (|u| == 2 && Space2(u[0], u[1]))
    || (|u| == 3 && Space3(u[0], u[1], u[2]))
  }

  lemma WhiteSpaces(c: nat)
    requires White(c)
    ensures IsSpace(Utf8(c))
  {
  }

  /** A space at the beginning is the encoding of a white space, and the other way round. */
  lemma LeadingIff(s: seq<byte>)
    ensures Leading(s) > 0 <==> exists c :: BeginsWith(s, c)
  {
    if c :| BeginsWith(s, c) {
      WhiteSpaces(c);
    }
    if Leading(s) > 0 {
      var n := Leading(s);
      var c := Decoded(s[..n]);
      assert Utf8(c) == s[..n];
      assert BeginsWith(s, c);
    }
  }

  lemma SpaceAtEnd(s: seq<byte>, u: seq<byte>)
    requires |u| <= |s| && s[|s| - |u|..] == u && IsSpace(u)
    ensures Trailing(s) > 0
  {
    assert forall j :: 0 <= j < |u| ==> s[|s| - |u| + j] == u[j];
  }

  lemma TrailingIsSpace(s: seq<byte>)
    requires Trailing(s) > 0
    ensures IsSpace(s[|s| - Trailing(s)..])
  {
  }

  lemma TrailingIff(s: seq<byte>)
    ensures Trailing(s) > 0 <==> exists c :: EndsIn(s, c)
  {
    if c :| EndsIn(s, c) {
      WhiteSpaces(c);
      SpaceAtEnd(s, Utf8(c));
    }
    if Trailing(s) > 0 {
      TrailingIsSpace(s);
      assert EndsIn(s, Decoded(s[|s| - Trailing(s)..]));
    }
  }

  /** The white space that the bytes encode. */
  function Decoded(u: seq<byte>): (c: nat)
    requires IsSpace(u)
    ensures White(c) && Utf8(c) == u
  {
    if |u| == 1 then u[0]
    else if |u| == 2 then (u[0] as int - 0xC0) * 64 + u[1] as int - 0x80
    else (u[0] as int - 0xE0) * 4096 + (u[1] as int - 0x80) * 64 + u[2] as int - 0x80
  }

  /** A message survives exactly if it is not empty, has no newline, and no white space at either end. */
  lemma CleanIff(m: seq<byte>)
    ensures Clean(m) <==> m != [] && 10 !in m && forall c :: !BeginsWith(m, c) && !EndsIn(m, c)
  {
    LeadingIff(m);
    TrailingIff(m);
  }
}
