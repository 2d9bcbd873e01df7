/** Docker's multiplexed exec stream: frames of an 8-byte header (stream type in byte 0, big-endian payload
  * length in bytes 4 to 7) and a payload. Outputs are kept as bytes. */
module Demux {
  newtype Byte = x: int | 0 <= x < 256

  type Bytes = seq<Byte>

  const STDERR: Byte := 2

  datatype Output = Output(stdout: Bytes, stderr: Bytes) {
    function Plus(more: Output): Output {
      Output(stdout + more.stdout, stderr + more.stderr)
    }
  }

  function ReadUInt32BE(b: Bytes): (n: nat)
    requires |b| == 4
    ensures n < 0x1_0000_0000
  {
    ((b[0] as int * 256 + b[1] as int) * 256 + b[2] as int) * 256 + b[3] as int
  }

  function WriteUInt32BE(n: nat): (b: Bytes)
    requires n < 0x1_0000_0000
    ensures |b| == 4
  {
    [(n / 0x100_0000) as Byte, (n / 0x1_0000 % 256) as Byte, (n / 0x100 % 256) as Byte, (n % 256) as Byte]
  }

  lemma UInt32RoundTrip(n: nat)
    requires n < 0x1_0000_0000
    ensures ReadUInt32BE(WriteUInt32BE(n)) == n
  {
    assert n / 0x1_0000 == n / 0x100 / 256 && n / 0x100_0000 == n / 0x1_0000 / 256;
  }

  /** A frame as the daemon sends it; bytes 1 to 3 of its header are not interpreted. */
  datatype Frame = Frame(streamType: Byte, unused: Bytes, payload: Bytes)

  predicate IsFrame(f: Frame) {
    |f.unused| == 3 && |f.payload| < 0x1_0000_0000
  }

  function Encode(f: Frame): (b: Bytes)
    requires IsFrame(f)
    ensures |b| == 8 + |f.payload|
  {
    [f.streamType] + f.unused + WriteUInt32BE(|f.payload|) + f.payload
  }

  predicate AreFrames(frames: seq<Frame>) {
    forall f <- frames :: IsFrame(f)
  }

  function EncodeAll(frames: seq<Frame>): Bytes
    requires AreFrames(frames)
  {
    if frames == [] then [] else Encode(frames[0]) + EncodeAll(frames[1..])
  }

  /** What the frames say: the payloads of each stream, in order. Stream 2 is stderr, and every other one stdout. */
  function Payloads(frames: seq<Frame>, toStderr: bool): Bytes {
    if frames == [] then []
    else (if (frames[0].streamType == 2) == toStderr then frames[0].payload else []) + Payloads(frames[1..], toStderr)
  }

  function Concat(chunks: seq<Bytes>): Bytes {
    if chunks == [] then [] else chunks[0] + Concat(chunks[1..])
  }

  // ---------- the parser ----------

  function Min(a: nat, b: nat): nat {
    if a <= b then a else b
  }

  function LengthAt(buf: Bytes, offset: nat): nat
    requires offset + 8 <= |buf|
  {
    ReadUInt32BE(buf[offset + 4..offset + 8])
  }

  function PayloadAt(buf: Bytes, offset: nat): Bytes
    requires offset + 8 <= |buf|
  {
    buf[offset + 8..Min(offset + 8 + LengthAt(buf, offset), |buf|)]
  }

  function OutputAt(buf: Bytes, offset: nat): Output
    requires offset + 8 <= |buf|
  {
    if buf[offset] == STDERR then Output([], PayloadAt(buf, offset)) else Output(PayloadAt(buf, offset), [])
  }

  function DemuxFrom(buf: Bytes, offset: nat): Output
    decreases |buf| - offset
  {
    if offset + 8 <= |buf|
    then OutputAt(buf, offset).Plus(DemuxFrom(buf, offset + 8 + LengthAt(buf, offset)))
    else Output([], [])
  }

  function Demultiplexed(buf: Bytes): Output {
    DemuxFrom(buf, 0)
  }

  /** `collectDemuxed`, over the chunks received before the stream ended. */
  method CollectDemuxed(chunks: seq<Bytes>) returns (out: Output)
    ensures out == Demultiplexed(Concat(chunks))
    ensures forall frames :: AreFrames(frames) && EncodeAll(frames) == Concat(chunks) ==>
              out == Output(Payloads(frames, false), Payloads(frames, true))
  {
    out := ParseFrames(Concat(chunks));
    forall frames | AreFrames(frames) && EncodeAll(frames) == Concat(chunks)
      ensures out == Output(Payloads(frames, false), Payloads(frames, true))
    {
      RoundTrip(frames);
    }
  }

  method ParseFrames(buf: Bytes) returns (out: Output)
    ensures out == Demultiplexed(buf)
  {
    var stdout: Bytes, stderr: Bytes := [], [];
    var offset := 0;
    PlusAssociates(Output([], []), DemuxFrom(buf, 0), Output([], []));
    while offset + 8 <= |buf|
      invariant 0 <= offset && IsParsed(buf, offset, stdout, stderr)
      decreases |buf| - offset
    {
      OneFrame(buf, offset, stdout, stderr);
      var streamType := buf[offset];
      var length := LengthAt(buf, offset);
      var payload := PayloadAt(buf, offset);
      if streamType == STDERR {
        stderr := stderr + payload;
      } else {
        stdout := stdout + payload;
      }
      offset := offset + 8 + length;
    }
    out := Output(stdout, stderr);
    PlusAssociates(out, out, out);
  }

  /** What is still to be parsed completes what has been collected. */
  ghost predicate IsParsed(buf: Bytes, offset: nat, stdout: Bytes, stderr: Bytes) {
    Output(stdout, stderr).Plus(DemuxFrom(buf, offset)) == Demultiplexed(buf)
  }

  lemma OneFrame(buf: Bytes, offset: nat, stdout: Bytes, stderr: Bytes)
    requires offset + 8 <= |buf| && IsParsed(buf, offset, stdout, stderr)
    ensures buf[offset] == STDERR ==>
              IsParsed(buf, offset + 8 + LengthAt(buf, offset), stdout, stderr + PayloadAt(buf, offset))
    ensures buf[offset] != STDERR ==>
              IsParsed(buf, offset + 8 + LengthAt(buf, offset), stdout + PayloadAt(buf, offset), stderr)
  {
    var before, rest := Output(stdout, stderr), DemuxFrom(buf, offset + 8 + LengthAt(buf, offset));
    PlusAssociates(before, OutputAt(buf, offset), rest);
    assert stdout + [] == stdout && stderr + [] == stderr;
  }

  lemma PlusAssociates(a: Output, b: Output, c: Output)
    ensures a.Plus(b).Plus(c) == a.Plus(b.Plus(c))
    ensures a.Plus(Output([], [])) == a && Output([], []).Plus(a) == a
  {
  }

  // ---------- round trips ----------

  /** Parsing does not depend on what lies before the offset. */
  lemma {:induction false} Shift(front: Bytes, buf: Bytes, offset: nat)
    ensures DemuxFrom(front + buf, |front| + offset) == DemuxFrom(buf, offset)
    decreases |buf| - offset
  {
    if offset + 8 <= |buf| {
      ShiftFrame(front, buf, offset);
      Shift(front, buf, offset + 8 + LengthAt(buf, offset));
    }
  }

  lemma ShiftFrame(front: Bytes, buf: Bytes, offset: nat)
    requires offset + 8 <= |buf|
    ensures LengthAt(front + buf, |front| + offset) == LengthAt(buf, offset)
    ensures OutputAt(front + buf, |front| + offset) == OutputAt(buf, offset)
  {
    var whole, at := front + buf, |front| + offset;
    assert whole[at + 4..at + 8] == buf[offset + 4..offset + 8];
    assert PayloadAt(whole, at) == PayloadAt(buf, offset);
    assert whole[at] == buf[offset];
  }

  lemma HeaderOf(f: Frame, rest: Bytes)
    requires IsFrame(f)
    ensures var buf := Encode(f) + rest;
            buf[0] == f.streamType && ReadUInt32BE(buf[4..8]) == |f.payload| && PayloadAt(buf, 0) == f.payload
  {
    UInt32RoundTrip(|f.payload|);
    var buf := Encode(f) + rest;
    assert buf[4..8] == WriteUInt32BE(|f.payload|);
    assert buf[8..8 + |f.payload|] == f.payload;
  }

  lemma FirstFrame(f: Frame, rest: Bytes)
    requires IsFrame(f)
    ensures Demultiplexed(Encode(f) + rest)
            == Said(f).Plus(Demultiplexed(rest))
  {
    HeaderOf(f, rest);
    Shift(Encode(f), rest, 0);
  }

  /** Decoding the encoding of any frames gives their payloads, stream by stream and in order. */
  lemma {:induction false} RoundTrip(frames: seq<Frame>)
    requires AreFrames(frames)
    ensures Demultiplexed(EncodeAll(frames)) == Output(Payloads(frames, false), Payloads(frames, true))
  {
    if frames != [] {
      FirstFrame(frames[0], EncodeAll(frames[1..]));
      RoundTrip(frames[1..]);
    }
  }

  ghost predicate IsPrefix(a: Output, b: Output) {
    a.stdout <= b.stdout && a.stderr <= b.stderr
  }

  /** Decoding a stream that broke off gives prefixes of both outputs. */
  lemma {:induction false} Truncated(frames: seq<Frame>, n: nat)
    requires AreFrames(frames) && n <= |EncodeAll(frames)|
    ensures IsPrefix(Demultiplexed(EncodeAll(frames)[..n]), Output(Payloads(frames, false), Payloads(frames, true)))
    decreases |frames|
  {
    if frames != [] {
      var f, later := frames[0], frames[1..];
      if n >= |Encode(f)| {
        Truncated(later, n - |Encode(f)|);
      }
      TruncatedOnce(f, later, n);
    }
  }

  lemma TruncatedOnce(f: Frame, later: seq<Frame>, n: nat)
    requires IsFrame(f) && AreFrames(later) && n <= |Encode(f)| + |EncodeAll(later)|
    requires n >= |Encode(f)| ==>
               IsPrefix(Demultiplexed(EncodeAll(later)[..n - |Encode(f)|]), Output(Payloads(later, false), Payloads(later, true)))
    ensures IsPrefix(Demultiplexed((Encode(f) + EncodeAll(later))[..n]),
                     Said(f).Plus(Output(Payloads(later, false), Payloads(later, true))))
  {
    if n >= |Encode(f)| {
      CutLater(f, EncodeAll(later), n);
    } else if n >= 8 {
      CutFrame(f, EncodeAll(later), n);
    }
  }

  /** What one frame says. */
  function Said(f: Frame): Output {
    if f.streamType == 2 then Output([], f.payload) else Output(f.payload, [])
  }

  lemma CutLater(f: Frame, rest: Bytes, n: nat)
    requires IsFrame(f) && |Encode(f)| <= n <= |Encode(f)| + |rest|
    ensures Demultiplexed((Encode(f) + rest)[..n])
            == Said(f).Plus(Demultiplexed(rest[..n - |Encode(f)|]))
  {
    assert (Encode(f) + rest)[..n] == Encode(f) + rest[..n - |Encode(f)|];
    FirstFrame(f, rest[..n - |Encode(f)|]);
  }

  /** A frame that breaks off inside its payload. */
  lemma CutFrame(f: Frame, rest: Bytes, n: nat)
    requires IsFrame(f) && 8 <= n < |Encode(f)|
    ensures Demultiplexed((Encode(f) + rest)[..n])
            == if f.streamType == 2 then Output([], f.payload[..n - 8]) else Output(f.payload[..n - 8], [])
  {
    HeaderOf(f, rest);
    var all, cut := Encode(f) + rest, (Encode(f) + rest)[..n];
    assert cut[4..8] == all[4..8] && cut[0] == all[0];
    assert PayloadAt(cut, 0) == f.payload[..n - 8];
    assert DemuxFrom(cut, 8 + |f.payload|) == Output([], []);
  }
}
