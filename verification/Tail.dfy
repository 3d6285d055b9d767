/** Tailing a session's output: the server's loop frames what it results as server-sent events, the
    command line client takes the frames apart again. */
module Tail {
  import opened Common
  import opened AnsiBytes
  import Base64

  const LF: byte := 10

  datatype ReadError = NoError | EndOfStream | Broken

  /** One return of the output reader; it can hand over bytes and an error together. */
  datatype Read = Read(data: seq<byte>, err: ReadError)

  // ---------------------------------------------------------------------------- the server

  function EventLine(): (l: seq<byte>)
    ensures |l| == 13 && l[0] == 101 && forall k :: 0 <= k < |l| ==> 32 <= l[k] < 127
  {
    Ascii("event: output")
  }

  function DataTag(): (l: seq<byte>)
    ensures l == [100, 97, 116, 97, 58]
  {
    Ascii("data:")
  }

  function DataLine(text: seq<byte>): seq<byte> {
    DataTag() + [32] + text
  }

  /** The event that carries an encoded chunk. */
  function Frame(text: seq<byte>): seq<byte> {
    EventLine() + [LF] + DataLine(text) + [LF, LF]
  }

  function Frames(texts: seq<seq<byte>>): (f: seq<seq<byte>>)
    ensures |f| == |texts|
  {
    seq(|texts|, i requires 0 <= i < |texts| => Frame(texts[i]))
  }

  function Stream(texts: seq<seq<byte>>): seq<byte> {
    Flatten(Frames(texts))
  }

  function Mapped(g: seq<byte> -> seq<byte>, chunks: seq<seq<byte>>): (t: seq<seq<byte>>)
    ensures |t| == |chunks|
  {
    seq(|chunks|, i requires 0 <= i < |chunks| => g(chunks[i]))
  }

  function Encoded(chunks: seq<seq<byte>>): seq<seq<byte>> {
    Mapped(Base64.Encode, chunks)
  }

  /** The response body for a sequence of chunks. */
  function Body(chunks: seq<seq<byte>>): seq<byte> {
    Stream(Encoded(chunks))
  }

  /** The filter a request asks for. */
  function Filter(strip: bool): seq<byte> -> seq<byte> {
    if strip then StripBytes else (data: seq<byte>) => data
  }

  /** What the reads amount to once each has gone through `code`: empty ones carry nothing, the
      first error ends them. */
  function Chunks(results: seq<Read>, code: seq<byte> -> seq<byte>): seq<seq<byte>> {
    if |results| == 0 then []
    else
      var later := if results[0].err == NoError then Chunks(results[1..], code) else [];
      if |results[0].data| == 0 then later else [code(results[0].data)] + later
  }

  function Then(filter: seq<byte> -> seq<byte>, g: seq<byte> -> seq<byte>): seq<byte> -> seq<byte> {
    (data: seq<byte>) => g(filter(data))
  }

  lemma MappedCons(g: seq<byte> -> seq<byte>, first: seq<byte>, rest: seq<seq<byte>>)
    ensures Mapped(g, [first] + rest) == [g(first)] + Mapped(g, rest)
  {
  }

  lemma {:induction false} ChunksThen(results: seq<Read>, filter: seq<byte> -> seq<byte>, g: seq<byte> -> seq<byte>,
                                       h: seq<byte> -> seq<byte>)
    requires forall data :: h(data) == g(filter(data))
    ensures Chunks(results, h) == Mapped(g, Chunks(results, filter))
  {
    if |results| > 0 {
      ChunksThen(results[1..], filter, g, h);
      var r := results[0];
      var later := if r.err == NoError then Chunks(results[1..], filter) else [];
      if |r.data| > 0 {
        MappedCons(g, filter(r.data), later);
      }
    }
  }

  predicate IsPrefix(a: seq<byte>, b: seq<byte>) {
    |a| <= |b| && a == b[..|a|]
  }

  lemma StreamAppend(a: seq<seq<byte>>, b: seq<seq<byte>>)
    ensures Stream(a + b) == Stream(a) + Stream(b)
  {
    assert Frames(a + b) == Frames(a) + Frames(b);
    FlattenAppend(Frames(a), Frames(b));
  }

  lemma BodyCons(chunks: seq<seq<byte>>)
    requires chunks != []
    ensures Body(chunks) == Frame(Base64.Encode(chunks[0])) + Body(chunks[1..])
  {
    var first := Base64.Encode(chunks[0]);
    assert Encoded(chunks) == [first] + Encoded(chunks[1..]);
    StreamAppend([first], Encoded(chunks[1..]));
    StreamOne(first);
  }

  lemma StreamOne(text: seq<byte>)
    ensures Stream([text]) == Frame(text)
  {
    assert Frames([text]) == [] + [Frame(text)];
    FlattenSnoc([], Frame(text));
  }

  /** What one read adds to the response body, and whether the loop goes on. */
  lemma BodyStep(results: seq<Read>, i: nat, code: seq<byte> -> seq<byte>)
    requires i < |results|
    ensures var r := results[i];
            var rest := if r.err == NoError then Stream(Chunks(results[i+1..], code)) else [];
            Stream(Chunks(results[i..], code)) == if |r.data| == 0 then rest else Frame(code(r.data)) + rest
  {
    var r := results[i];
    var later := if r.err == NoError then Chunks(results[i+1..], code) else [];
    assert results[i..][1..] == results[i+1..];
    if |r.data| > 0 {
      StreamAppend([code(r.data)], later);
      StreamOne(code(r.data));
    }
  }

  /** `body` is what a connection that takes `room` bytes lets through of `whole`. */
  predicate Received(body: seq<byte>, whole: seq<byte>, room: nat) {
    IsPrefix(body, whole) && |body| == if |whole| <= room then |whole| else room
  }

  lemma ReceivedCut(sent: seq<byte>, frame: seq<byte>, rest: seq<byte>, room: nat)
    requires |sent| <= room < |sent| + |frame|
    ensures Received(sent + frame[..room - |sent|], sent + (frame + rest), room)
  {
  }

  lemma Regroup(sent: seq<byte>, frame: seq<byte>, rest: seq<byte>)
    ensures sent + (frame + rest) == (sent + frame) + rest
  {
  }

  /** The loop of the tail endpoint over what the reader returns; the connection takes `room` bytes
      before a write fails. */
  method StreamOutput(results: seq<Read>, code: seq<byte> -> seq<byte>, room: nat) returns (body: seq<byte>)
    ensures Received(body, Stream(Chunks(results, code)), room)
  {
    body := [];
    ghost var whole := Stream(Chunks(results, code));
    var i := 0;
    assert results[0..] == results;
    while i < |results|
      invariant 0 <= i <= |results|
      invariant whole == body + Stream(Chunks(results[i..], code)) && |body| <= room
    {
      var read := results[i];
      ghost var rest := if read.err == NoError then Stream(Chunks(results[i+1..], code)) else [];
      BodyStep(results, i, code);
      if |read.data| > 0 {
        var encoded := code(read.data);
        var frame := EventLine() + [LF] + (DataTag() + [32] + encoded) + [LF, LF];
        assert whole == body + (frame + rest);
        if |body| + |frame| > room {
          ReceivedCut(body, frame, rest, room);
          return body + frame[..room - |body|];
        }
        Regroup(body, frame, rest);
        body := body + frame;
      }
      assert whole == body + rest;
      if read.err != NoError {
        return;
      }
      i := i + 1;
    }
  }

  method TailSessionOutput(results: seq<Read>, strip: bool, room: nat) returns (body: seq<byte>)
    ensures Received(body, Body(Chunks(results, Filter(strip))), room)
  {
    ChunksThen(results, Filter(strip), Base64.Encode, Then(Filter(strip), Base64.Encode));
    body := StreamOutput(results, Then(Filter(strip), Base64.Encode), room);
  }

  // ---------------------------------------------------------------------------- the client

  /** What line iteration yields: the body split at line feeds; an unterminated rest is a line too. */
  function Lines(body: seq<byte>): seq<seq<byte>> {
    LinesFrom(body, [])
  }

  function LinesFrom(body: seq<byte>, line: seq<byte>): seq<seq<byte>> {
    if body == [] then (if line == [] then [] else [line])
    else if body[0] == LF then [line] + LinesFrom(body[1..], [])
    else LinesFrom(body[1..], line + [body[0]])
  }

  predicate IsSpace(b: byte) {
    9 <= b <= 13 || 28 <= b <= 32 || b == 0x85 || b == 0xA0
  }

  function TrimLeft(s: seq<byte>): seq<byte> {
    if s != [] && IsSpace(s[0]) then TrimLeft(s[1..]) else s
  }

  function TrimRight(s: seq<byte>): seq<byte> {
    if s != [] && IsSpace(s[|s|-1]) then TrimRight(s[..|s|-1]) else s
  }

  function Payload(line: seq<byte>): seq<byte>
    requires |line| >= 5
  {
    TrimRight(TrimLeft(line[5..]))
  }

  /** What one line makes the client print; None when the payload does not decode. */
  function Piece(line: seq<byte>): Option<seq<byte>> {
    if !(|line| >= 5 && line[..5] == DataTag()) || Payload(line) == [] then Some([])
    else Base64.PyDecode(Payload(line))
  }

  datatype Printout = Printout(out: seq<byte>, ok: bool)

  function Print(lines: seq<seq<byte>>): Printout {
    if lines == [] then Printout([], true)
    else if Piece(lines[0]).None? then Printout([], false)
    else
      var rest := Print(lines[1..]);
      Printout(Piece(lines[0]).value + rest.out, rest.ok)
  }

  /** The client's loop. */
  method SessionTail(lines: seq<seq<byte>>) returns (out: seq<byte>, ok: bool)
    ensures Printout(out, ok) == Print(lines)
  {
    out, ok := [], true;
    assert lines[0..] == lines;
    for i := 0 to |lines|
      invariant ok && Print(lines) == Printout(out + Print(lines[i..]).out, Print(lines[i..]).ok)
    {
      var raw := lines[i];
      assert lines[i..][1..] == lines[i+1..];
      if raw == [] || !(|raw| >= 5 && raw[..5] == DataTag()) {
        assert Print(lines[i..]) == Print(lines[i+1..]);
        continue;
      }
      var encoded := Payload(raw);
      if encoded == [] {
        assert Print(lines[i..]) == Print(lines[i+1..]);
        continue;
      }
      var decoded := Base64.PyDecode(encoded);
      if decoded.None? {
        return out, false;
      }
      assert out + (decoded.value + Print(lines[i+1..]).out) == out + decoded.value + Print(lines[i+1..]).out;
      out := out + decoded.value;
    }
  }

  // ---------------------------------------------------------------------------- framing

  lemma {:induction false} LinesThrough(l: seq<byte>, line: seq<byte>, rest: seq<byte>)
    requires LF !in l
    ensures LinesFrom(l + rest, line) == LinesFrom(rest, line + l)
  {
    if l == [] {
      assert l + rest == rest && line + l == line;
    } else {
      assert (l + rest)[1..] == l[1..] + rest;
      LinesThrough(l[1..], line + [l[0]], rest);
      assert line + [l[0]] + l[1..] == line + l;
    }
  }

  lemma LinesHead(l: seq<byte>, rest: seq<byte>)
    requires LF !in l
    ensures Lines(l + [LF] + rest) == [l] + Lines(rest)
  {
    assert l + [LF] + rest == l + ([LF] + rest);
    LinesThrough(l, [], [LF] + rest);
    assert [] + l == l && ([LF] + rest)[1..] == rest;
  }

  lemma LinesLast(l: seq<byte>)
    requires LF !in l
    ensures Lines(l) == if l == [] then [] else [l]
  {
    LinesThrough(l, [], []);
    assert l + [] == l && [] + l == l;
  }

  /** A payload is printable and holds no space, so nothing in a frame but its own line feeds can be
      taken for the end of a line. */
  lemma DataLineClean(chunk: seq<byte>)
    ensures var d := DataLine(Base64.Encode(chunk)); forall k :: 0 <= k < |d| ==> d[k] >= 32
  {
    Base64.EncodeShape(chunk);
  }

  lemma FrameLines(chunk: seq<byte>, rest: seq<byte>)
    ensures Lines(Frame(Base64.Encode(chunk)) + rest) == [EventLine(), DataLine(Base64.Encode(chunk)), []] + Lines(rest)
  {
    DataLineClean(chunk);
    var e, d := EventLine(), DataLine(Base64.Encode(chunk));
    assert Frame(Base64.Encode(chunk)) + rest == e + [LF] + (d + [LF] + ([] + [LF] + rest));
    LinesHead(e, d + [LF] + ([] + [LF] + rest));
    LinesHead(d, [] + [LF] + rest);
    LinesHead([], rest);
  }

  lemma {:induction false} TrimNothing(s: seq<byte>)
    requires forall k :: 0 <= k < |s| ==> !IsSpace(s[k])
    ensures TrimLeft([32] + s) == s && TrimRight(s) == s && TrimLeft(s) == s
  {
    assert ([32] + s)[1..] == s;
  }

  /** A data line whose payload has been cut to `text`. */
  lemma PieceOfData(text: seq<byte>)
    requires forall k :: 0 <= k < |text| ==> !IsSpace(text[k])
    ensures Piece(DataTag() + [32] + text) == if text == [] then Some([]) else Base64.PyDecode(text)
  {
    var line := DataTag() + [32] + text;
    assert line[..5] == DataTag() && line[5..] == [32] + text;
    TrimNothing(text);
  }

  lemma PrintSkips(line: seq<byte>, lines: seq<seq<byte>>, piece: seq<byte>)
    requires Piece(line) == Some(piece)
    ensures Print([line] + lines) == Printout(piece + Print(lines).out, Print(lines).ok)
  {
    assert ([line] + lines)[1..] == lines;
  }

  /** A whole frame makes the client print exactly its chunk. */
  lemma PrintFrame(chunk: seq<byte>, rest: seq<byte>)
    ensures Print(Lines(Frame(Base64.Encode(chunk)) + rest)) ==
            Printout(chunk + Print(Lines(rest)).out, Print(Lines(rest)).ok)
  {
    FrameLines(chunk, rest);
    Base64.EncodeShape(chunk);
    Base64.EncodePrintable(chunk);
    PieceOfData(Base64.Encode(chunk));
    Base64.PyRoundTrip(chunk);
    var tail := Lines(rest);
    assert EventLine()[..5] != DataTag() by { assert EventLine()[..5][0] == 101; }
    PrintSkips([], tail, []);
    PrintSkips(DataLine(Base64.Encode(chunk)), [[]] + tail, chunk);
    PrintSkips(EventLine(), [DataLine(Base64.Encode(chunk))] + ([[]] + tail), []);
    assert [EventLine(), DataLine(Base64.Encode(chunk)), []] + tail ==
           [EventLine()] + ([DataLine(Base64.Encode(chunk))] + ([[]] + tail));
  }

  /** The client prints the concatenation of the chunks, each as the server filtered it. */
  lemma {:induction false} EndToEnd(chunks: seq<seq<byte>>)
    ensures Print(Lines(Body(chunks))) == Printout(Flatten(chunks), true)
  {
    if chunks != [] {
      BodyCons(chunks);
      PrintFrame(chunks[0], Body(chunks[1..]));
      EndToEnd(chunks[1..]);
    }
  }

  // ---------------------------------------------------------------------------- a connection that breaks

  /** A frame cut short prints a beginning of its chunk, or makes the decoder fail after nothing. */
  lemma CutFrame(chunk: seq<byte>, n: nat)
    requires n < |Frame(Base64.Encode(chunk))|
    ensures IsPrefix(Print(Lines(Frame(Base64.Encode(chunk))[..n])).out, chunk)
  {
    var e, d, cut := EventLine(), DataLine(Base64.Encode(chunk)), Frame(Base64.Encode(chunk))[..n];
    DataLineClean(chunk);
    assert e[..5] != DataTag() by { assert e[..5][0] == 101; }
    if n <= |e| {
      assert cut == e[..n];
      LinesLast(cut);
      assert |cut| >= 5 ==> cut[..5] == e[..5];
    } else {
      var m := n - |e| - 1;
      PrintSkips(e, Lines(cut[|e|+1..]), []);
      if m <= |d| {
        assert cut == e + [LF] + d[..m] && cut[|e|+1..] == d[..m];
        LinesHead(e, d[..m]);
        LinesLast(d[..m]);
        CutDataLine(chunk, m);
      } else {
        assert cut == e + [LF] + (d + [LF] + []) && cut[|e|+1..] == d + [LF] + [];
        LinesHead(e, d + [LF] + []);
        LinesHead(d, []);
        assert Lines([]) == [];
        CutDataLine(chunk, |d|);
        assert d[..|d|] == d && [d] + [] == [d];
      }
    }
  }

  lemma CutDataLine(chunk: seq<byte>, m: nat)
    requires m <= |DataLine(Base64.Encode(chunk))|
    ensures IsPrefix(Print([DataLine(Base64.Encode(chunk))[..m]]).out, chunk) && Print([]).out == []
  {
    var line, text := DataLine(Base64.Encode(chunk))[..m], Base64.Encode(chunk);
    var none: seq<seq<byte>> := [];
    assert [line][1..] == none;
    if m >= 6 {
      assert line == DataTag() + [32] + text[..m-6];
      Base64.EncodePrintable(chunk);
      PieceOfData(text[..m-6]);
      Base64.PyPrefix(chunk, m - 6);
    } else if m == 5 {
      assert line == DataTag() && line[5..] == [];
    }
  }

  /** Wherever the connection breaks, what the client has printed is a beginning of the output. */
  lemma {:induction false} BrokenConnection(chunks: seq<seq<byte>>, n: nat)
    requires n <= |Body(chunks)|
    ensures IsPrefix(Print(Lines(Body(chunks)[..n])).out, Flatten(chunks))
  {
    if chunks != [] {
      var first, rest := Frame(Base64.Encode(chunks[0])), Body(chunks[1..]);
      BodyCons(chunks);
      if n < |first| {
        assert Body(chunks)[..n] == first[..n];
        CutFrame(chunks[0], n);
      } else {
        assert Body(chunks)[..n] == first + rest[..n-|first|];
        PrintFrame(chunks[0], rest[..n-|first|]);
        BrokenConnection(chunks[1..], n - |first|);
      }
    }
  }

  /** From the buffer reads to the terminal: the bytes printed are those read and filtered, all of
      them when the connection holds, a beginning of them when it breaks. */
  lemma ReadsReachTheTerminal(results: seq<Read>, filter: seq<byte> -> seq<byte>, room: nat, body: seq<byte>)
    requires Received(body, Body(Chunks(results, filter)), room)
    ensures var truth, printed := Flatten(Chunks(results, filter)), Print(Lines(body));
            && IsPrefix(printed.out, truth)
            && (|Body(Chunks(results, filter))| <= room ==> printed == Printout(truth, true))
  {
    var chunks := Chunks(results, filter);
    EndToEnd(chunks);
    BrokenConnection(chunks, |body|);
    assert Body(chunks)[..|Body(chunks)|] == Body(chunks);
  }
}
