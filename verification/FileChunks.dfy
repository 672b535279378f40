/**
 The chunk path of file transfer: the sender cuts the file into 1 KB (direct) or 32 KB (relay) chunks
 and may change between the two at any time; the receiver appends what arrives and checks at the end.
 */
module FileChunks {
  import opened Options
  import opened Bytes

  const CHUNK_P2P: nat := 1024
  const CHUNK_RELAY: nat := 32 * 1024

  datatype FileData = FileData(seqNo: nat, offset: nat, chunk: seq<byte>)

  datatype Status = Pending | Active | Complete | Error

  /**
   The world as the sender meets it: has the transfer been cancelled before chunk k, can chunk k be read,
   is the peer direct at chunk k, does a direct or relay send of it succeed.
   */
  datatype World = World(
    cancelled: nat -> bool, readOk: nat -> bool, direct: nat -> bool, p2pOk: nat -> bool, relayOk: nat -> bool)
  {
    /** Nothing stops the transfer. */
    ghost predicate Smooth() {
      forall k :: !cancelled(k) && readOk(k) && relayOk(k)
    }
  }

  /**
   The messages cut the source from `start` up to `end` without gap or overlap, numbered from zero, into
   chunks of 1 KB or 32 KB; only what ends the source may be shorter.
   */
  ghost predicate Tiles(ms: seq<FileData>, src: seq<byte>, start: nat, end: nat)
    decreases |ms|
  {
    if ms == [] then start == end <= |src|
    else
      var m := ms[|ms| - 1];
      && m.seqNo == |ms| - 1
      && (|m.chunk| == 1024 || |m.chunk| == 32768 || (0 < |m.chunk| < 32768 && end == |src|))
      && m.offset + |m.chunk| == end <= |src|
      && m.chunk == src[m.offset..end]
      && Tiles(ms[..|ms| - 1], src, start, m.offset)
  }

  /** The path of the next chunk, and how many direct sends have failed in a row. */
  datatype Path = Path(p2p: bool, fails: nat)

  /** The path after chunk `k` has been tried: the relay after more than ten failures in a row. */
  function Tried(w: World, k: nat, p: Path): (q: Path) {
    if !p.p2p then p
    else if w.p2pOk(k) then Path(true, 0)
    else Path(p.fails + 1 <= 10, p.fails + 1)
  }

  /** Every hundredth chunk the peer's mode is looked at afresh. */
  function Rechecked(w: World, k: nat, p: Path): (q: Path) {
    if k % 100 == 0 then p.(p2p := w.direct(k)) else p
  }

  function PathAt(w: World, k: nat): (p: Path) {
    if k == 0 then Path(w.direct(0), 0) else Rechecked(w, k, Tried(w, k - 1, PathAt(w, k - 1)))
  }

  function SizeOn(p: Path): (n: nat) {
    if p.p2p then 1024 else 32768
  }

  /** The sizes that the paths of the first `n` chunks ask for. */
  function Sizes(w: World, n: nat): (sizes: seq<nat>)
    ensures |sizes| == n
  {
    if n == 0 then [] else Sizes(w, n - 1) + [SizeOn(PathAt(w, n - 1))]
  }

  /** Every chunk has its size, or ends the source before. */
  predicate Sized(ms: seq<FileData>, src: seq<byte>, sizes: seq<nat>) {
    && |ms| == |sizes|
    && forall k :: 0 <= k < |ms| ==>
         |ms[k].chunk| == sizes[k] || (|ms[k].chunk| < sizes[k] && ms[k].offset + |ms[k].chunk| == |src|)
  }

  function Content(ms: seq<FileData>): (s: seq<byte>) {
    if ms == [] then [] else Content(ms[..|ms| - 1]) + ms[|ms| - 1].chunk
  }

  lemma {:induction false} TilesContent(ms: seq<FileData>, src: seq<byte>, start: nat, end: nat)
    requires Tiles(ms, src, start, end)
    ensures start <= end <= |src| && Content(ms) == src[start..end]
  {
    if ms != [] {
      var m := ms[|ms| - 1];
      TilesContent(ms[..|ms| - 1], src, start, m.offset);
      assert src[start..end] == src[start..m.offset] + src[m.offset..end];
    }
  }

  lemma TilesSnoc(ms: seq<FileData>, m: FileData, src: seq<byte>, start: nat)
    requires Tiles(ms, src, start, m.offset)
    requires m.seqNo == |ms| && m.offset + |m.chunk| <= |src|
    requires || |m.chunk| == 1024 || |m.chunk| == 32768
             || (0 < |m.chunk| < 32768 && m.offset + |m.chunk| == |src|)
    requires m.chunk == src[m.offset..m.offset + |m.chunk|]
    ensures Tiles(ms + [m], src, start, m.offset + |m.chunk|)
  {
    assert (ms + [m])[..|ms|] == ms;
  }

  class Sender {
    const file: seq<byte>
    var position: nat
    var bytesDone: nat
    var status: Status

    constructor (file: seq<byte>)
      ensures this.file == file && position == 0 && bytesDone == 0 && status == Pending
    {
      this.file := file;
      position, bytesDone, status := 0, 0, Pending;
    }

    /** handleFileAccept. */
    method Accepted(offset: nat)
      modifies this
      ensures status == Active
      ensures offset > 0 ==> position == bytesDone == offset
      ensures offset == 0 ==> position == old(position) && bytesDone == old(bytesDone)
    {
      status := Active;
      if offset > 0 {
        position := offset;
        bytesDone := offset;
      }
    }

    /** File.Read into a buffer of `size` bytes. */
    method Read(size: nat) returns (chunk: seq<byte>)
      requires size > 0
      modifies this`position
      ensures old(position) >= |file| ==> chunk == [] && position == old(position)
      ensures old(position) < |file| ==>
                position == (if old(position) + size <= |file| then old(position) + size else |file|)
                && chunk == file[old(position)..position]
    {
      if position >= |file| {
        return [];
      }
      var end := if position + size <= |file| then position + size else |file|;
      chunk := file[position..end];
      position := end;
    }

    /** One chunk over the current path; a direct send that fails falls back to the relay. */
    method SendChunk(w: World, k: nat, p: Path) returns (sent: bool, q: Path)
      ensures sent <==> (p.p2p && w.p2pOk(k)) || w.relayOk(k)
      ensures q == Tried(w, k, p)
    {
      q := p;
      if p.p2p {
        if !w.p2pOk(k) {
          q := q.(fails := q.fails + 1);
          if q.fails > 10 {
            q := q.(p2p := false);
          }
          sent := w.relayOk(k);
        } else {
          q := q.(fails := 0);
          sent := true;
        }
      } else {
        sent := w.relayOk(k);
      }
    }

    /** One turn of the loop: chunk `k`, unless the transfer is cancelled, fails, or is at the end of the file. */
    method Turn(w: World, k: nat, path: Path) returns (m: Option<FileData>, eof: bool, next: Path)
      requires position == bytesDone <= |file|
      modifies this
      ensures m.Some? ==>
                && status == old(status) && m.value.seqNo == k && m.value.offset == old(bytesDone)
                && position == bytesDone == old(bytesDone) + |m.value.chunk| <= |file|
                && m.value.chunk == file[old(bytesDone)..bytesDone] && next == Tried(w, k, path)
                && 0 < |m.value.chunk| <= SizeOn(path) && (|m.value.chunk| == SizeOn(path) || bytesDone == |file|)
      ensures m.None? ==> bytesDone == old(bytesDone) && (status == Error || status == old(status))
      ensures eof ==> m.None? && position == bytesDone == |file| && status == old(status)
      ensures w.Smooth() ==> m.Some? || eof
    {
      m, eof, next := None, false, path;
      if w.cancelled(k) {
        return;
      }
      if !w.readOk(k) {
        status := Error;
        return;
      }
      var chunk := Read(if path.p2p then CHUNK_P2P else CHUNK_RELAY);
      if chunk == [] {
        eof := true;
        return;
      }
      var sent;
      sent, next := SendChunk(w, k, path);
      if !sent {
        status := Error;
        return;
      }
      m := Some(FileData(k, bytesDone, chunk));
      bytesDone := bytesDone + |chunk|;
    }

    /** sendFileChunks: whatever the pattern of path changes, the messages tile the file from the start offset. */
    method SendFileChunks(w: World) returns (ms: seq<FileData>)
      requires position == bytesDone <= |file|
      modifies this
      ensures Tiles(ms, file, old(position), bytesDone) && Sized(ms, file, Sizes(w, |ms|))
      ensures status == Complete || status == Error || status == old(status)
      ensures status == Complete && old(status) != Complete ==> position == bytesDone == |file|
      ensures w.Smooth() ==> status == Complete && bytesDone == |file|
    {
      ms := [];
      ghost var start, sizes := position, [];
      var seqNo, path := 0, Path(w.direct(0), 0);
      while true
        invariant position == bytesDone <= |file| && status == old(status)
        invariant seqNo == |ms| && path == PathAt(w, seqNo) && sizes == Sizes(w, seqNo)
        invariant Tiles(ms, file, start, bytesDone) && Sized(ms, file, sizes)
        decreases |file| - position
      {
        var m, eof, next := Turn(w, seqNo, path);
        if m.None? {
          if eof {
            break;
          }
          return;
        }
        assert Tiles(ms + [m.value], file, start, bytesDone) by {
          TilesSnoc(ms, m.value, file, start);
        }
        assert Sized(ms + [m.value], file, sizes + [SizeOn(path)]) by {
          SizedSnoc(ms, m.value, file, sizes, SizeOn(path));
        }
        PathNext(w, seqNo, path);
        ms, sizes := ms + [m.value], sizes + [SizeOn(path)];
        seqNo := seqNo + 1;
        path := Rechecked(w, seqNo, next);
      }
      status := Complete;
    }
  }

  // ---- Which path a chunk takes ----

  lemma PathNext(w: World, k: nat, p: Path)
    requires p == PathAt(w, k)
    ensures PathAt(w, k + 1) == Rechecked(w, k + 1, Tried(w, k, p))
    ensures Sizes(w, k + 1) == Sizes(w, k) + [SizeOn(p)]
  {
  }

  lemma SizedSnoc(ms: seq<FileData>, m: FileData, src: seq<byte>, sizes: seq<nat>, size: nat)
    requires Sized(ms, src, sizes)
    requires |m.chunk| == size || (|m.chunk| < size && m.offset + |m.chunk| == |src|)
    ensures Sized(ms + [m], src, sizes + [size])
  {
  }

  lemma {:induction false} SizeAt(w: World, n: nat, k: nat)
    requires k < n
    ensures Sizes(w, n)[k] == if PathAt(w, k).p2p then 1024 else 32768
  {
    if k < n - 1 {
      SizeAt(w, n - 1, k);
    }
  }

  /** A transfer is direct throughout if the peer is and every direct send succeeds, and relayed throughout if it never is. */
  lemma {:induction false} SteadyPath(w: World, k: nat)
    ensures (forall j :: w.direct(j) && w.p2pOk(j)) ==> PathAt(w, k).p2p
    ensures (forall j :: !w.direct(j)) ==> !PathAt(w, k).p2p
  {
    if k > 0 {
      SteadyPath(w, k - 1);
    }
  }

  /** Every hundredth chunk takes the path that the peer's mode then says. */
  lemma FreshPath(w: World, k: nat)
    requires k % 100 == 0
    ensures PathAt(w, k).p2p == w.direct(k)
  {
  }

  predicate FailsAt(w: World, k: nat) {
    !w.p2pOk(k) && (k + 1) % 100 != 0
  }

  /** Between two such looks, failures in a row leave the path direct up to ten, and turn it to the relay at eleven. */
  lemma {:induction false} ElevenFailures(w: World, k: nat, n: nat)
    requires 1 <= n <= 11 && PathAt(w, k) == Path(true, 0)
    requires forall j: nat :: k <= j < k + n ==> FailsAt(w, j)
    ensures PathAt(w, k + n) == Path(n <= 10, n)
  {
    if n > 1 {
      ElevenFailures(w, k, n - 1);
    }
    assert FailsAt(w, k + n - 1);
  }

  datatype Verdict = Missing(from: nat) | Verified | Unchecked | Mismatch

  class Receiver {
    const fileSize: nat
    var file: seq<byte>
    var open: bool
    var bytesDone: nat
    var recvChunks: map<nat, nat>
    var status: Status

    /** `existing` is what an earlier attempt left at the save path. */
    constructor (fileSize: nat, existing: seq<byte>)
      ensures this.fileSize == fileSize && file == existing && !open && bytesDone == 0 && recvChunks == map[] && status == Pending
    {
      this.fileSize := fileSize;
      file, open, bytesDone, recvChunks, status := existing, false, 0, map[], Pending;
    }

    /**
     AcceptFile: a pending transfer whose file can be opened starts, at the end of a shorter non-empty
     file, else at the beginning of an emptied one; any other is an error and changes nothing.
     */
    method AcceptFile(openOk: bool) returns (offset: Option<nat>)
      modifies this
      ensures recvChunks == old(recvChunks) && (offset.Some? <==> old(status) == Pending && openOk)
      ensures offset.None? ==> file == old(file) && open == old(open) && status == old(status) && bytesDone == old(bytesDone)
      ensures offset.Some? ==>
                && open && status == Active && bytesDone == offset.value
                && if 0 < |old(file)| < fileSize then offset.value == |old(file)| && file == old(file)
                   else offset.value == 0 && file == []
    {
      if status != Pending || !openOk {
        return None;
      }
      var resumeOffset := if 0 < |file| < fileSize then |file| else 0;
      if resumeOffset == 0 {
        file := [];
      }
      open, status, bytesDone := true, Active, resumeOffset;
      return Some(resumeOffset);
    }

    method WriteFileChunk(m: FileData)
      modifies this
      ensures open == old(open) && status == old(status)
      ensures if old(open) && old(status) == Active
              then file == old(file) + m.chunk && bytesDone == old(bytesDone) + |m.chunk|
                   && recvChunks == old(recvChunks)[m.seqNo := m.offset]
              else file == old(file) && bytesDone == old(bytesDone) && recvChunks == old(recvChunks)
    {
      if !open || status != Active {
        return;
      }
      file := file + m.chunk;
      bytesDone := bytesDone + |m.chunk|;
      recvChunks := recvChunks[m.seqNo := m.offset];
    }

    /** The messages arrive one by one, in order and without loss. */
    method Deliver(ms: seq<FileData>)
      requires open && status == Active
      modifies this
      ensures open && status == Active
      ensures file == old(file) + Content(ms) && bytesDone == old(bytesDone) + |Content(ms)|
    {
      assert old(file) + [] == old(file);
      for i := 0 to |ms|
        invariant open && status == Active
        invariant file == old(file) + Content(ms[..i]) && bytesDone == old(bytesDone) + |Content(ms[..i])|
      {
        WriteFileChunk(ms[i]);
        assert ms[..i + 1][..i] == ms[..i];
      }
      assert ms[..|ms|] == ms;
    }

    /** handleFileDone, with the hash as an arbitrary function of the contents and perhaps no hash to compare with. */
    method HandleFileDone(totalBytes: nat, hash: seq<byte> -> int, expected: Option<int>) returns (v: Verdict)
      modifies this
      ensures file == old(file) && bytesDone == old(bytesDone) && recvChunks == old(recvChunks)
      ensures bytesDone < totalBytes <==> v.Missing?
      ensures v.Missing? ==> v.from == bytesDone && open == old(open) && status == old(status)
      ensures !v.Missing? ==>
                && !open && (status == if v == Mismatch then Error else Complete)
                && v == if expected.None? then Unchecked else if hash(file) == expected.value then Verified else Mismatch
    {
      if bytesDone < totalBytes {
        return Missing(bytesDone);
      }
      open := false;
      v := Unchecked;
      if expected.Some? {
        if hash(file) != expected.value {
          status := Error;
          return Mismatch;
        }
        v := Verified;
      }
      status := Complete;
    }
  }

  /**
   A whole transfer: from any leftover at the receiver and under any pattern of path changes, if every
   message arrives in order, file_done finds no gap, and the received file is the source exactly when
   the part it resumed from was a prefix of the source.
   */
  method Transfer(src: seq<byte>, existing: seq<byte>, w: World, hash: seq<byte> -> int) returns (file: seq<byte>, v: Verdict)
    requires w.Smooth()
    ensures !v.Missing?
    ensures file == src <==> (0 < |existing| < |src| ==> existing <= src)
    ensures file == src ==> v == Verified
    ensures hash(file) != hash(src) ==> v == Mismatch
  {
    var r := new Receiver(|src|, existing);
    var s := new Sender(src);
    var accepted := r.AcceptFile(true);
    var offset := accepted.value;
    s.Accepted(offset);
    var ms := s.SendFileChunks(w);
    assert Content(ms) == src[offset..] by {
      TilesContent(ms, src, offset, |src|);
    }
    r.Deliver(ms);
    v := r.HandleFileDone(s.bytesDone, hash, Some(hash(src)));
    file := r.file;
    ResumedIff(src, existing, offset, file);
  }

  lemma ResumedIff(src: seq<byte>, left: seq<byte>, offset: nat, file: seq<byte>)
    requires offset == (if 0 < |left| < |src| then |left| else 0) && offset <= |src|
    requires file == (if offset > 0 then left else []) + src[offset..]
    ensures file == src <==> (0 < |left| < |src| ==> left <= src)
    ensures |file| == |src|
  {
    assert src == src[..offset] + src[offset..];
    if offset > 0 {
      assert file[..offset] == left && file[offset..] == src[offset..];
    }
  }
}
