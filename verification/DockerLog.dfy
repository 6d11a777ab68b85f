/**
 The parser of Docker's multiplexed log stream: frames of an 8-byte header (stream, three pad bytes,
 big-endian payload size) and a payload.
 */
module DockerLog {
  type Byte = x: int | 0 <= x < 256

  // ---------- Reading ----------

  /** What a reader says when its bytes are used up. */
  datatype Fault = EndOfStream | Broken(error: string)

  datatype Read = Full(buf: seq<Byte>) | EOF | UnexpectedEOF | Error(error: string)

  /** `io.ReadFull` of `n` bytes from a reader with `rest` to go. */
  function ReadFull(rest: seq<Byte>, fault: Fault, n: nat): Read {
    if n <= |rest| then Full(rest[..n])
    else
      match fault
      case Broken(e) => Error(e)
      case EndOfStream => if |rest| == 0 then EOF else UnexpectedEOF
  }

  class LogStream {
    var rest: seq<Byte>
    const fault: Fault

    constructor (bytes: seq<Byte>, fault: Fault)
      ensures rest == bytes && this.fault == fault
    {
      this.rest, this.fault := bytes, fault;
    }

    /** Fills a buffer of n bytes, or consumes what is left. */
    method ReadBytes(n: nat) returns (r: Read)
      modifies this`rest
      ensures r == ReadFull(old(rest), fault, n)
      ensures rest == if n <= |old(rest)| then old(rest)[n..] else []
    {
      r := ReadFull(rest, fault, n);
      rest := if n <= |rest| then rest[n..] else [];
    }
  }

  // ---------- Parsing ----------

  /** One call of the callback: the stream byte and the payload, made valid UTF-8. */
  datatype Entry = Entry(streamType: int, payload: seq<Byte>)

  datatype Outcome =
    | Ok
    | ReadFailed(read: Read)
    | CallbackFailed(error: string)
    | ResponseFailed(error: string)
    | NoStream

  /** What the callback answers to its k-th call: no error, or an error. */
  datatype Answer = Accept | Refuse(error: string)
  type Callback = (nat, Entry) -> Answer

  /** The calls a parse makes, in order, and how it ends. */
  datatype Parsed = Parsed(entries: seq<Entry>, outcome: Outcome)

  function BigEndian(b: seq<Byte>): nat
    requires |b| == 4
  {
    FromBytes(b[0], b[1], b[2], b[3])
  }

  function FromBytes(a: nat, b: nat, c: nat, d: nat): nat {
    ((a * 256 + b) * 256 + c) * 256 + d
  }

  /** One turn of the read loop: the stream ends or fails, or gives a frame's stream byte and payload. */
  datatype Item = End(outcome: Outcome) | Item(streamType: Byte, payload: seq<Byte>)

  function NextItem(s: seq<Byte>, fault: Fault): (item: Item)
    ensures item.Item? ==> 8 + |item.payload| <= |s|
  {
    match ReadFull(s, fault, 8)
    case EOF => End(Ok)
    case Full(header) =>
      (match ReadFull(s[8..], fault, BigEndian(header[4..8]))
       case EOF => End(Ok)
       case Full(payload) => Item(header[0], payload)
       case r => End(ReadFailed(r)))
    case r => End(ReadFailed(r))
  }

  /** What `ProcessDockerStream` does with `s` to go, after `k` calls. */
  function Parse(s: seq<Byte>, fault: Fault, utf8: seq<Byte> -> seq<Byte>, cb: Callback, k: nat): Parsed
    decreases |s|
  {
    match NextItem(s, fault)
    case End(outcome) => Parsed([], outcome)
    case Item(streamType, payload) =>
      var entry := Entry(streamType, utf8(payload));
      match cb(k, entry)
      case Refuse(e) => Parsed([entry], CallbackFailed(e))
      case Accept =>
        var p := Parse(s[8 + |payload|..], fault, utf8, cb, k + 1);
        Parsed([entry] + p.entries, p.outcome)
  }

  lemma ParseGoesOn(s: seq<Byte>, fault: Fault, utf8: seq<Byte> -> seq<Byte>, cb: Callback, k: nat)
    requires NextItem(s, fault).Item?
    ensures var item := NextItem(s, fault);
            var entry := Entry(item.streamType, utf8(item.payload));
            var p := Parse(s[8 + |item.payload|..], fault, utf8, cb, k + 1);
            Parse(s, fault, utf8, cb, k)
            == if cb(k, entry).Refuse? then Parsed([entry], CallbackFailed(cb(k, entry).error))
               else Parsed([entry] + p.entries, p.outcome)
  {
  }

  lemma AppendAssociates<T>(a: seq<T>, b: seq<T>, c: seq<T>)
    ensures (a + b) + c == a + (b + c)
  {
  }

  datatype Response = Failed(error: string) | WithoutStream | WithStream(stream: LogStream)

  /** The read loop, calling back as it goes; `entries` are the calls made. */
  method ProcessDockerStream(response: Response, utf8: seq<Byte> -> seq<Byte>, streamLog: Callback)
    returns (entries: seq<Entry>, outcome: Outcome)
    modifies if response.WithStream? then {response.stream} else {}
    ensures response.Failed? ==> entries == [] && outcome == ResponseFailed(response.error)
    ensures response.WithoutStream? ==> entries == [] && outcome == NoStream
    ensures response.WithStream? ==>
              Parsed(entries, outcome) == Parse(old(response.stream.rest), response.stream.fault, utf8, streamLog, 0)
  {
    entries := [];
    if response.Failed? {
      return entries, ResponseFailed(response.error);
    }
    if response.WithoutStream? {
      return entries, NoStream;
    }
    var stream := response.stream;
    ghost var whole := Parse(stream.rest, stream.fault, utf8, streamLog, 0);
    while true
      invariant var p := Parse(stream.rest, stream.fault, utf8, streamLog, |entries|);
                whole == Parsed(entries + p.entries, p.outcome)
      decreases |stream.rest|
    {
      ghost var s, done := stream.rest, entries;
      var item := ReadItem(stream);
      match item {
        case End(o) => return entries, o;
        case Item(streamType, payload) =>
          ParseGoesOn(s, stream.fault, utf8, streamLog, |done|);
          var dockerLog := Entry(streamType, utf8(payload));
          var answer := streamLog(|entries|, dockerLog);
          entries := entries + [dockerLog];
          if answer.Refuse? {
            return entries, CallbackFailed(answer.error);
          }
          ghost var p := Parse(stream.rest, stream.fault, utf8, streamLog, |entries|);
          AppendAssociates(done, [dockerLog], p.entries);
      }
    }
  }

  /** The two reads of one turn of the loop. */
  method ReadItem(stream: LogStream) returns (item: Item)
    modifies stream`rest
    ensures item == NextItem(old(stream.rest), stream.fault)
    ensures item.Item? ==> stream.rest == old(stream.rest)[8 + |item.payload|..]
  {
    var header := stream.ReadBytes(8);
    match header {
      case EOF => return End(Ok);
      case Full(headerBuf) =>
        var payload := stream.ReadBytes(BigEndian(headerBuf[4..8]));
        match payload {
          case EOF => return End(Ok);
          case Full(payloadBuf) => return Item(headerBuf[0], payloadBuf);
          case _ => return End(ReadFailed(payload));
        }
      case _ => return End(ReadFailed(header));
    }
  }

  // ---------- Frames ----------

  datatype Frame = Frame(streamType: Byte, pad: seq<Byte>, payload: seq<Byte>) {
    predicate Valid() {
      |pad| == 3 && |payload| < 0x1_0000_0000
    }
  }

  function SizeBytes(n: nat): (b: seq<Byte>)
    requires n < 0x1_0000_0000
  {
    [n / 0x100_0000, n / 0x1_0000 % 256, n / 256 % 256, n % 256]
  }

  function Header(f: Frame): (h: seq<Byte>)
    requires f.Valid()
  {
    [f.streamType] + f.pad + SizeBytes(|f.payload|)
  }

  function EncodeFrame(f: Frame): seq<Byte>
    requires f.Valid()
  {
    Header(f) + f.payload
  }

  function Encode(fs: seq<Frame>): seq<Byte>
    requires forall f :: f in fs ==> f.Valid()
  {
    if |fs| == 0 then [] else EncodeFrame(fs[0]) + Encode(fs[1..])
  }

  /** The callback's view of a list of frames. */
  function Entries(fs: seq<Frame>, utf8: seq<Byte> -> seq<Byte>): seq<Entry> {
    if |fs| == 0 then [] else [Entry(fs[0].streamType, utf8(fs[0].payload))] + Entries(fs[1..], utf8)
  }

  lemma BytesRoundTrip(b: seq<Byte>)
    requires |b| == 4
    ensures BigEndian(b) < 0x1_0000_0000 && SizeBytes(BigEndian(b)) == b
  {
    SplitBytes(b[0], b[1], b[2], b[3]);
  }

  lemma SplitBytes(a: nat, b: nat, c: nat, d: nat)
    requires a < 256 && b < 256 && c < 256 && d < 256
    ensures var n := FromBytes(a, b, c, d);
            n < 0x1_0000_0000 && n / 0x100_0000 == a && n / 0x1_0000 % 256 == b && n / 256 % 256 == c && n % 256 == d
  {
    var n := FromBytes(a, b, c, d);
    assert n / 256 == (a * 256 + b) * 256 + c;
    assert n / 0x1_0000 == a * 256 + b;
  }

  ghost predicate NeverRefuses(cb: Callback) {
    forall k, e :: cb(k, e) == Accept
  }

  lemma HeaderFields(f: Frame)
    requires f.Valid()
    ensures var h := Header(f);
            |h| == 8 && h[0] == f.streamType && BigEndian(h[4..8]) == |f.payload|
  {
  }

  lemma FrameComesFirst(f: Frame, rest: seq<Byte>, fault: Fault)
    requires f.Valid()
    ensures |EncodeFrame(f)| == 8 + |f.payload|
    ensures NextItem(EncodeFrame(f) + rest, fault) == Item(f.streamType, f.payload)
  {
    var h, s := Header(f), EncodeFrame(f) + rest;
    HeaderFields(f);
    assert s[..8] == h && s[8..] == f.payload + rest;
    assert s[8..][..|f.payload|] == f.payload;
  }

  /** Frames in front of any bytes are parsed into their entries, and the parse goes on behind them. */
  lemma {:induction false} ParseFrames(
      fs: seq<Frame>, rest: seq<Byte>, fault: Fault, utf8: seq<Byte> -> seq<Byte>, cb: Callback, k: nat, m: nat)
    requires (forall f :: f in fs ==> f.Valid()) && NeverRefuses(cb) && m == k + |fs|
    ensures var p := Parse(rest, fault, utf8, cb, m);
            Parse(Encode(fs) + rest, fault, utf8, cb, k) == Parsed(Entries(fs, utf8) + p.entries, p.outcome)
  {
    if |fs| == 0 {
      assert Encode(fs) + rest == rest;
      assert forall es :: Entries(fs, utf8) + es == es;
    } else {
      ParseFirstOfFrames(fs, rest, fault, utf8, cb, k);
      ParseFrames(fs[1..], rest, fault, utf8, cb, k + 1, m);
      AppendAssociates([Entry(fs[0].streamType, utf8(fs[0].payload))], Entries(fs[1..], utf8),
                       Parse(rest, fault, utf8, cb, m).entries);
    }
  }

  lemma ParseFirstOfFrames(
      fs: seq<Frame>, rest: seq<Byte>, fault: Fault, utf8: seq<Byte> -> seq<Byte>, cb: Callback, k: nat)
    requires |fs| > 0 && (forall f :: f in fs ==> f.Valid()) && NeverRefuses(cb)
    ensures var p := Parse(Encode(fs[1..]) + rest, fault, utf8, cb, k + 1);
            Parse(Encode(fs) + rest, fault, utf8, cb, k)
            == Parsed([Entry(fs[0].streamType, utf8(fs[0].payload))] + p.entries, p.outcome)
  {
    assert Encode(fs) + rest == EncodeFrame(fs[0]) + (Encode(fs[1..]) + rest);
    ParseFrame(fs[0], Encode(fs[1..]) + rest, fault, utf8, cb, k);
  }

  lemma ParseFrame(f: Frame, behind: seq<Byte>, fault: Fault, utf8: seq<Byte> -> seq<Byte>, cb: Callback, k: nat)
    requires f.Valid() && NeverRefuses(cb)
    ensures var p := Parse(behind, fault, utf8, cb, k + 1);
            Parse(EncodeFrame(f) + behind, fault, utf8, cb, k)
            == Parsed([Entry(f.streamType, utf8(f.payload))] + p.entries, p.outcome)
  {
    var s := EncodeFrame(f) + behind;
    FrameComesFirst(f, behind, fault);
    assert s[8 + |f.payload|..] == behind;
    ParseGoesOn(s, fault, utf8, cb, k);
    assert cb(k, Entry(f.streamType, utf8(f.payload))) == Accept;
  }

  /** Parsing inverts encoding: exactly the encoded frames reach the callback, in order, and no error. */
  lemma ParseInvertsEncode(fs: seq<Frame>, utf8: seq<Byte> -> seq<Byte>, cb: Callback)
    requires (forall f :: f in fs ==> f.Valid()) && NeverRefuses(cb)
    ensures Parse(Encode(fs), EndOfStream, utf8, cb, 0) == Parsed(Entries(fs, utf8), Ok)
  {
    ParseFrames(fs, [], EndOfStream, utf8, cb, 0, |fs|);
    assert Encode(fs) + [] == Encode(fs);
  }

  // ---------- Every stream, malformed ones included ----------

  /** Each call of the callback has used up at least 8 bytes, so the loop ends. */
  lemma {:induction false} EachEntryCostsEightBytes(
      s: seq<Byte>, fault: Fault, utf8: seq<Byte> -> seq<Byte>, cb: Callback, k: nat)
    ensures 8 * |Parse(s, fault, utf8, cb, k).entries| <= |s|
    decreases |s|
  {
    var item := NextItem(s, fault);
    if item.Item? {
      EachEntryCostsEightBytes(s[8 + |item.payload|..], fault, utf8, cb, k + 1);
    }
  }

  /** What is emitted on a prefix of a stream is a prefix of what is emitted on the whole, however either ends. */
  lemma {:induction false} PrefixEmitsPrefix(
      s: seq<Byte>, n: nat, f: Fault, f': Fault, utf8: seq<Byte> -> seq<Byte>, cb: Callback, k: nat)
    requires n <= |s|
    ensures Parse(s[..n], f, utf8, cb, k).entries <= Parse(s, f', utf8, cb, k).entries
    decreases |s|
  {
    var item := NextItem(s[..n], f);
    if item.Item? {
      var m := 8 + |item.payload|;
      PrefixItem(s, n, f, f');
      assert s[..n][m..] == s[m..][..n - m];
      PrefixEmitsPrefix(s[m..], n - m, f, f', utf8, cb, k + 1);
      PrefixOfBoth(s, n, f, f', utf8, cb, k, m);
    }
  }

  lemma PrefixOfBoth(
      s: seq<Byte>, n: nat, f: Fault, f': Fault, utf8: seq<Byte> -> seq<Byte>, cb: Callback, k: nat, m: nat)
    requires n <= |s| && NextItem(s[..n], f).Item? && NextItem(s, f') == NextItem(s[..n], f)
    requires m == 8 + |NextItem(s, f').payload|
    requires Parse(s[..n][m..], f, utf8, cb, k + 1).entries <= Parse(s[m..], f', utf8, cb, k + 1).entries
    ensures Parse(s[..n], f, utf8, cb, k).entries <= Parse(s, f', utf8, cb, k).entries
  {
  }

  lemma PrefixItem(s: seq<Byte>, n: nat, f: Fault, f': Fault)
    requires n <= |s| && NextItem(s[..n], f).Item?
    ensures NextItem(s, f') == NextItem(s[..n], f)
  {
    var item := NextItem(s[..n], f);
    assert s[..n][..8] == s[..8];
    assert s[..n][8..][..|item.payload|] == s[8..][..|item.payload|];
  }

  /**
   A callback's answers only cut the parse short: it gets the entries an accepting one would get, up to
   and including the first it refuses, whose error is returned.
   */
  lemma {:induction false} CallbackOnlyCutsShort(
      s: seq<Byte>, fault: Fault, utf8: seq<Byte> -> seq<Byte>, cb: Callback, yes: Callback, k: nat)
    requires NeverRefuses(yes)
    ensures CutShort(Parse(s, fault, utf8, cb, k), Parse(s, fault, utf8, yes, k), cb, k)
    decreases |s|
  {
    var item := NextItem(s, fault);
    if item.Item? {
      var rest, entry := s[8 + |item.payload|..], Entry(item.streamType, utf8(item.payload));
      assert yes(k, entry) == Accept;
      ParseGoesOn(s, fault, utf8, cb, k);
      ParseGoesOn(s, fault, utf8, yes, k);
      if cb(k, entry) == Accept {
        CallbackOnlyCutsShort(rest, fault, utf8, cb, yes, k + 1);
        CutShortLater(entry, Parse(rest, fault, utf8, cb, k + 1), Parse(rest, fault, utf8, yes, k + 1), cb, k);
      }
    }
  }

  /** `p` is `q` up to and including the first entry that `cb` refuses, or all of `q`. */
  ghost predicate CutShort(p: Parsed, q: Parsed, cb: Callback, k: nat) {
    && p.entries <= q.entries
    && (forall i :: 0 <= i < |p.entries| - 1 ==> cb(k + i, p.entries[i]) == Accept)
    && (if p.outcome.CallbackFailed?
        then |p.entries| > 0 && cb(k + |p.entries| - 1, p.entries[|p.entries| - 1]) == Refuse(p.outcome.error)
        else p == q)
  }

  lemma CutShortLater(entry: Entry, p: Parsed, q: Parsed, cb: Callback, k: nat)
    requires CutShort(p, q, cb, k + 1) && cb(k, entry) == Accept
    ensures CutShort(Parsed([entry] + p.entries, p.outcome), Parsed([entry] + q.entries, q.outcome), cb, k)
  {
  }

  /** A stream that stops at a frame boundary, or right after a header whose payload is missing entirely. */
  ghost predicate StopsCleanly(s: seq<Byte>, fs: seq<Frame>, tail: seq<Byte>) {
    && (forall f :: f in fs ==> f.Valid())
    && s == Encode(fs) + tail
    && (tail == [] || (|tail| == 8 && BigEndian(tail[4..8]) > 0))
  }

  lemma CleanStopGivesOk(
      s: seq<Byte>, fs: seq<Frame>, tail: seq<Byte>, utf8: seq<Byte> -> seq<Byte>, cb: Callback, k: nat)
    requires StopsCleanly(s, fs, tail) && NeverRefuses(cb)
    ensures Parse(s, EndOfStream, utf8, cb, k) == Parsed(Entries(fs, utf8), Ok)
  {
    ParseFrames(fs, tail, EndOfStream, utf8, cb, k, k + |fs|);
    if |tail| == 8 {
      assert tail[..8][4..8] == tail[4..8];
    }
    assert Parse(tail, EndOfStream, utf8, cb, k + |fs|) == Parsed([], Ok);
  }

  lemma {:induction false} OkGivesCleanStop(s: seq<Byte>, utf8: seq<Byte> -> seq<Byte>, cb: Callback, k: nat)
    returns (fs: seq<Frame>, tail: seq<Byte>)
    requires NeverRefuses(cb) && Parse(s, EndOfStream, utf8, cb, k).outcome == Ok
    ensures StopsCleanly(s, fs, tail)
    decreases |s|
  {
    var item := NextItem(s, EndOfStream);
    if item.End? {
      fs, tail := [], s;
      if |s| > 0 {
        assert s[..8][4..8] == s[4..8];
      }
    } else {
      var m := 8 + |item.payload|;
      assert cb(k, Entry(item.streamType, utf8(item.payload))) == Accept;
      ParseGoesOn(s, EndOfStream, utf8, cb, k);
      fs, tail := OkGivesCleanStop(s[m..], utf8, cb, k + 1);
      var f := Frame(s[0], s[1..4], item.payload);
      FirstFrame(s, f);
      MoreStopsCleanly(s, f, fs, tail);
      fs := [f] + fs;
    }
  }

  lemma MoreStopsCleanly(s: seq<Byte>, f: Frame, fs: seq<Frame>, tail: seq<Byte>)
    requires f.Valid() && |s| >= 8 + |f.payload| && s == EncodeFrame(f) + s[8 + |f.payload|..]
    requires StopsCleanly(s[8 + |f.payload|..], fs, tail)
    ensures StopsCleanly(s, [f] + fs, tail)
  {
  }

  lemma FirstFrame(s: seq<Byte>, f: Frame)
    requires |s| >= 8 && NextItem(s, EndOfStream) == Item(f.streamType, f.payload) && f.pad == s[1..4]
    ensures f.Valid() && s == EncodeFrame(f) + s[8 + |f.payload|..]
  {
    BytesRoundTrip(s[..8][4..8]);
    assert s[..8] == [s[0]] + s[1..4] + s[..8][4..8];
    assert s == s[..8] + s[8..][..|f.payload|] + s[8 + |f.payload|..];
  }

  /**
   With a callback that never refuses and no fault but the end of the stream, the parser returns nil
   exactly on the streams that stop cleanly. A payload that is missing in part is an error; one that is
   missing in whole is not, and its frame is lost without one.
   */
  lemma NilExactlyOnCleanStops(s: seq<Byte>, utf8: seq<Byte> -> seq<Byte>, cb: Callback)
    requires NeverRefuses(cb)
    ensures Parse(s, EndOfStream, utf8, cb, 0).outcome == Ok <==> exists fs, tail :: StopsCleanly(s, fs, tail)
  {
    if Parse(s, EndOfStream, utf8, cb, 0).outcome == Ok {
      var fs, tail := OkGivesCleanStop(s, utf8, cb, 0);
    }
    if fs, tail :| StopsCleanly(s, fs, tail) {
      CleanStopGivesOk(s, fs, tail, utf8, cb, 0);
    }
  }

  lemma CutItem(f: Frame, n: nat)
    requires f.Valid() && n < 8 + |f.payload|
    ensures |EncodeFrame(f)| == 8 + |f.payload|
    ensures var item := NextItem(EncodeFrame(f)[..n], EndOfStream);
            item == End(Ok) || item == End(ReadFailed(UnexpectedEOF))
    ensures NextItem(EncodeFrame(f)[..n], EndOfStream) == End(Ok) <==> n == 0 || n == 8
  {
    HeaderFields(f);
    var s := EncodeFrame(f)[..n];
    if n >= 8 {
      assert s[..8] == Header(f);
    }
  }

  /**
   A stream cut inside a frame, after n of its bytes, is taken for a complete one exactly if nothing of the
   frame or exactly its header is there; at any other place the cut is reported.
   */
  lemma CutIsMissedExactlyAfterHeader(fs: seq<Frame>, f: Frame, n: nat, utf8: seq<Byte> -> seq<Byte>, cb: Callback)
    requires (forall g :: g in fs ==> g.Valid()) && f.Valid() && n < 8 + |f.payload| && NeverRefuses(cb)
    ensures |EncodeFrame(f)| == 8 + |f.payload|
    ensures Parse(Encode(fs) + EncodeFrame(f)[..n], EndOfStream, utf8, cb, 0)
         == Parsed(Entries(fs, utf8), if n == 0 || n == 8 then Ok else ReadFailed(UnexpectedEOF))
  {
    CutItem(f, n);
    ParseFrames(fs, EncodeFrame(f)[..n], EndOfStream, utf8, cb, 0, |fs|);
    assert Entries(fs, utf8) + [] == Entries(fs, utf8);
  }

  /** What ends a parse whose callback never refuses: the fault of the stream decides. */
  lemma {:induction false} FaultDecidesOutcome(
      s: seq<Byte>, fault: Fault, utf8: seq<Byte> -> seq<Byte>, cb: Callback, k: nat)
    requires NeverRefuses(cb)
    ensures var outcome := Parse(s, fault, utf8, cb, k).outcome;
            match fault
            case Broken(error) => outcome == ReadFailed(Error(error))
            case EndOfStream => outcome == Ok || outcome == ReadFailed(UnexpectedEOF)
    decreases |s|
  {
    var item := NextItem(s, fault);
    if item.Item? {
      assert cb(k, Entry(item.streamType, utf8(item.payload))) == Accept;
      ParseGoesOn(s, fault, utf8, cb, k);
      FaultDecidesOutcome(s[8 + |item.payload|..], fault, utf8, cb, k + 1);
    }
  }

  /**
   A stream that breaks is never taken for a complete one: whatever it brought before, its error is
   returned, and the entries are those that a stream that just ends there would give.
   */
  lemma BrokenStreamIsReported(s: seq<Byte>, error: string, utf8: seq<Byte> -> seq<Byte>, cb: Callback)
    requires NeverRefuses(cb)
    ensures Parse(s, Broken(error), utf8, cb, 0)
         == Parsed(Parse(s, EndOfStream, utf8, cb, 0).entries, ReadFailed(Error(error)))
  {
    FaultDecidesOutcome(s, Broken(error), utf8, cb, 0);
    PrefixEmitsPrefix(s, |s|, Broken(error), EndOfStream, utf8, cb, 0);
    PrefixEmitsPrefix(s, |s|, EndOfStream, Broken(error), utf8, cb, 0);
    assert s[..|s|] == s;
  }
}
