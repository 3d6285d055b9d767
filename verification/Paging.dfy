/** Reading a session's output page by page while the session keeps writing. The output buffer is a
    bounded stream: bytes have absolute offsets, and only the newest `capacity` bytes are kept. */
module Paging {
  import opened Common
  import opened AnsiBytes
  import SessionTable

  const MaxOutputReadBytes := 0x10_0000

  /** Everything ever written, and how much of its end is retained. */
  datatype Buffer = Buffer(history: seq<byte>, capacity: int)

  predicate Valid(b: Buffer) { b.capacity >= SessionTable.MinCapacity }

  /** The oldest offset still in the buffer. */
  function Oldest(b: Buffer): (o: nat)
    requires Valid(b)
    ensures o <= |b.history|
  {
    if |b.history| > b.capacity then |b.history| - b.capacity else 0
  }

  function CappedReadLimit(limit: int, capacity: int): int {
    var bounded := if limit > MaxOutputReadBytes then MaxOutputReadBytes else limit;
    if bounded > capacity then capacity else bounded
  }

  /** A positive limit stays positive, which is what lets paging make progress. */
  lemma CappedKeepsPositive(limit: int, capacity: int)
    requires capacity >= SessionTable.MinCapacity
    ensures limit >= 1 <==> CappedReadLimit(limit, capacity) >= 1
    ensures CappedReadLimit(limit, capacity) <= limit && CappedReadLimit(limit, capacity) <= capacity
    ensures CappedReadLimit(limit, capacity) <= MaxOutputReadBytes
    ensures limit <= SessionTable.MinCapacity ==> CappedReadLimit(limit, capacity) == limit
  {
  }

  /** Where a read that asks for `offset` starts: moved forward when that has aged out. */
  function ActualOffset(b: Buffer, offset: nat): (a: nat)
    requires Valid(b)
  {
    if offset < Oldest(b) then Oldest(b) else offset
  }

  function Count(b: Buffer, start: nat, room: nat): (n: nat)
    ensures n <= room && (n > 0 ==> start + n <= |b.history|)
  {
    if start >= |b.history| then 0
    else if |b.history| - start < room then |b.history| - start else room
  }

  /** A read fills the front of the receive buffer. */
  method Fill(b: Buffer, start: nat, readBuf: array<byte>) returns (count: nat)
    modifies readBuf
    ensures count == Count(b, start, readBuf.Length)
    ensures count > 0 ==> readBuf[..count] == b.history[start..start+count]
    ensures readBuf[count..] == old(readBuf[count..])
  {
    count := Count(b, start, readBuf.Length);
    for k := 0 to count
      invariant forall i :: 0 <= i < k ==> readBuf[i] == b.history[start + i]
      invariant forall i :: k <= i < readBuf.Length ==> readBuf[i] == old(readBuf[i])
    {
      readBuf[k] := b.history[start + k];
    }
  }

  datatype OutputRead = OutputRead(actualOffset: nat, read: nat, data: seq<byte>)

  datatype ReadError = NotFound | BufferUnavailable | ReadFailed

  /** What a successful chunk read reports. */
  function ChunkAt(b: Buffer, offset: nat, limit: int, strip: bool): OutputRead
    requires Valid(b) && limit >= 1
  {
    var start := ActualOffset(b, offset);
    var n := Count(b, start, CappedReadLimit(limit, b.capacity));
    var raw := if n > 0 then b.history[start..start+n] else [];
    OutputRead(start, n, if strip then StripBytes(raw) else raw)
  }

  function NewestChunk(b: Buffer, limit: int, strip: bool): OutputRead
    requires Valid(b) && limit >= 1
  {
    var room := CappedReadLimit(limit, b.capacity);
    var start := if |b.history| > room then |b.history| - room else 0;
    var raw := b.history[start..];
    OutputRead(start, |raw|, if strip then StripBytes(raw) else raw)
  }

  /** `session` is the buffer of the named session, if there is one. */
  method ReadSessionOutputChunk(session: Option<Buffer>, offset: nat, limit: int, strip: bool, handleWorks: bool,
                                readWorks: bool)
      returns (r: Result<OutputRead, ReadError>)
    requires limit >= 1 && (session.Some? ==> Valid(session.value))
    ensures r.Ok? <==> session.Some? && handleWorks && readWorks
    ensures session.None? ==> r == Err(NotFound)
    ensures r.Ok? ==> r.value == ChunkAt(session.value, offset, limit, strip)
  {
    if session.None? { return Err(NotFound); }
    if !handleWorks { return Err(BufferUnavailable); }
    var b := session.value;
    var readLimit := CappedReadLimit(limit, b.capacity);
    var readBuf := new byte[readLimit](_ => 0);
    if !readWorks { return Err(ReadFailed); }
    var actualOffset := ActualOffset(b, offset);
    var readCount := Fill(b, actualOffset, readBuf);
    var outData := readBuf[..readCount];
    if strip {
      outData := StripBytes(outData);
    }
    return Ok(OutputRead(actualOffset, readCount, outData));
  }

  method ReadSessionOutputNewest(session: Option<Buffer>, limit: int, strip: bool, handleWorks: bool, readWorks: bool)
      returns (r: Result<OutputRead, ReadError>)
    requires limit >= 1 && (session.Some? ==> Valid(session.value))
    ensures r.Ok? <==> session.Some? && handleWorks && readWorks
    ensures session.None? ==> r == Err(NotFound)
    ensures r.Ok? ==> r.value == NewestChunk(session.value, limit, strip)
  {
    if session.None? { return Err(NotFound); }
    if !handleWorks { return Err(BufferUnavailable); }
    var b := session.value;
    var readLimit := CappedReadLimit(limit, b.capacity);
    var readBuf := new byte[readLimit](_ => 0);
    if !readWorks { return Err(ReadFailed); }
    var start := if |b.history| > readLimit then |b.history| - readLimit else 0;
    var readCount := Fill(b, start, readBuf);
    var outData := readBuf[..readCount];
    assert outData == b.history[start..];
    if strip {
      outData := StripBytes(outData);
    }
    return Ok(OutputRead(start, readCount, outData));
  }

  /** The newest bytes end where the stream ends, and paging on from there misses nothing that was
      retained after them. */
  lemma NewestIsTheEnd(b: Buffer, limit: int, later: seq<byte>, next: int)
    requires Valid(b) && limit >= 1 && next >= 1
    ensures var r := NewestChunk(b, limit, false);
            && r.actualOffset + r.read == |b.history| && r.data == b.history[r.actualOffset..]
            && Oldest(b) <= r.actualOffset
            && (r.read == limit || r.actualOffset == 0 || r.read == MaxOutputReadBytes || r.read == b.capacity)
            && (|later| <= b.capacity ==>
                  ChunkAt(b.(history := b.history + later), r.actualOffset + r.read, next, false).actualOffset
                  == |b.history|)
  {
  }

  // ---------------------------------------------------------------------------- following the stream

  /** A client that asks for the offset right after what it read last. `floor` is the oldest
      offset that was left when a piece was read. */
  datatype Piece = Piece(at: nat, bytes: seq<byte>, floor: nat)

  datatype Follower = Follower(buffer: Buffer, start: nat, next: nat, pieces: seq<Piece>)

  datatype Step = Write(data: seq<byte>) | Read(limit: int)

  predicate Enabled(s: Step) { s.Read? ==> s.limit >= 1 }

  function Next(f: Follower, s: Step): (f': Follower)
    requires Valid(f.buffer) && Enabled(s)
    ensures Valid(f'.buffer)
  {
    match s
    case Write(data) => f.(buffer := f.buffer.(history := f.buffer.history + data))
    case Read(limit) =>
      var r := ChunkAt(f.buffer, f.next, limit, false);
      f.(next := r.actualOffset + r.read, pieces := f.pieces + [Piece(r.actualOffset, r.data, Oldest(f.buffer))])
  }

  function After(f: Follower, steps: seq<Step>): (f': Follower)
    requires Valid(f.buffer) && forall s :: s in steps ==> Enabled(s)
    ensures Valid(f'.buffer)
    decreases |steps|
  {
    if steps == [] then f else After(Next(f, steps[0]), steps[1..])
  }

  predicate Fresh(f: Follower) {
    Valid(f.buffer) && f.pieces == [] && f.next == f.start
  }

  /** Where piece `i` was expected to start. */
  function Wanted(f: Follower, i: nat): nat
    requires i <= |f.pieces|
  {
    if i == 0 then f.start else f.pieces[i-1].at + |f.pieces[i-1].bytes|
  }

  /** The piece is what the history holds at its place. */
  predicate IsSlice(p: Piece, history: seq<byte>) {
    p.bytes != [] ==> p.at + |p.bytes| <= |history| && p.bytes == history[p.at..p.at+|p.bytes|]
  }

  /** A piece is a true slice and starts where it was expected to, or at the oldest byte that was
      left; an oldest byte other than the first means that a full buffer lies behind it. */
  predicate PieceOk(f: Follower, i: nat)
    requires i < |f.pieces|
  {
    var p := f.pieces[i];
    && IsSlice(p, f.buffer.history)
    && p.at == (if Wanted(f, i) < p.floor then p.floor else Wanted(f, i))
    && (p.floor > 0 ==> p.floor + f.buffer.capacity <= |f.buffer.history|)
  }

  predicate Inv(f: Follower) {
    && Valid(f.buffer) && f.next == Wanted(f, |f.pieces|)
    && forall i :: 0 <= i < |f.pieces| ==> PieceOk(f, i)
  }

  lemma NextKeepsInv(f: Follower, s: Step)
    requires Inv(f) && Enabled(s)
    ensures Inv(Next(f, s))
  {
    var f' := Next(f, s);
    forall i | 0 <= i < |f.pieces| ensures PieceOk(f', i) {
      assert PieceOk(f, i) && Wanted(f', i) == Wanted(f, i) && f'.pieces[i] == f.pieces[i];
    }
    if s.Read? {
      var n := |f.pieces|;
      assert Wanted(f', n) == Wanted(f, n) && PieceOk(f', n);
    }
  }

  lemma {:induction false} RunKeepsInv(f: Follower, steps: seq<Step>)
    requires Inv(f) && forall s :: s in steps ==> Enabled(s)
    ensures Inv(After(f, steps))
    decreases |steps|
  {
    if steps != [] {
      NextKeepsInv(f, steps[0]);
      RunKeepsInv(Next(f, steps[0]), steps[1..]);
    }
  }

  lemma {:induction false} Advancing(f: Follower, i: nat, j: nat)
    requires Inv(f) && i < j < |f.pieces|
    ensures f.pieces[i].at + |f.pieces[i].bytes| <= f.pieces[j].at
    decreases j
  {
    assert PieceOk(f, j) && PieceOk(f, j - 1);
    if i < j - 1 {
      Advancing(f, i, j - 1);
    }
  }

  predicate Covers(p: Piece, k: int) {
    p.at <= k < p.at + |p.bytes|
  }

  /** Offset `k` is in one of the first `n` pieces, or had aged out when the client got there. */
  ghost predicate Accounted(f: Follower, k: int, n: int)
    requires n <= |f.pieces|
  {
    exists i :: 0 <= i < n && (Covers(f.pieces[i], k) || Wanted(f, i) <= k < f.pieces[i].floor)
  }

  /** Every offset the client has gone past is accounted for. */
  lemma {:induction false} NothingElseMissing(f: Follower, k: nat, n: nat)
    requires Inv(f) && n <= |f.pieces| && f.start <= k < Wanted(f, n)
    ensures Accounted(f, k, n)
    decreases n
  {
    assert n > 0 && PieceOk(f, n - 1);
    if k < Wanted(f, n - 1) {
      NothingElseMissing(f, k, n - 1);
    } else {
      assert Covers(f.pieces[n-1], k) || Wanted(f, n - 1) <= k < f.pieces[n-1].floor;
    }
  }

  /** Whatever is written in between and whatever the limits, the pieces are true slices of the
      history, in order and disjoint, and only aged-out bytes are missing between them. */
  lemma FollowingIsFaithful(f0: Follower, steps: seq<Step>)
    requires Fresh(f0) && forall s :: s in steps ==> Enabled(s)
    ensures var f := After(f0, steps);
            && (forall i :: 0 <= i < |f.pieces| ==> IsSlice(f.pieces[i], f.buffer.history))
            && (forall i, j :: 0 <= i < j < |f.pieces| ==> f.pieces[i].at + |f.pieces[i].bytes| <= f.pieces[j].at)
            && (forall k :: f.start <= k < f.next ==> Accounted(f, k, |f.pieces|))
  {
    RunKeepsInv(f0, steps);
    var f := After(f0, steps);
    forall i | 0 <= i < |f.pieces| ensures IsSlice(f.pieces[i], f.buffer.history) {
      assert PieceOk(f, i);
    }
    forall i, j | 0 <= i < j < |f.pieces| ensures f.pieces[i].at + |f.pieces[i].bytes| <= f.pieces[j].at {
      Advancing(f, i, j);
    }
    forall k | f.start <= k < f.next ensures Accounted(f, k, |f.pieces|) {
      NothingElseMissing(f, k, |f.pieces|);
    }
  }

  // ---------------------------------------------------------------------------- losing nothing

  function Parts(pieces: seq<Piece>): (p: seq<seq<byte>>)
    ensures |p| == |pieces|
  {
    seq(|pieces|, i requires 0 <= i < |pieces| => pieces[i].bytes)
  }

  function Collected(f: Follower): seq<byte> {
    Flatten(Parts(f.pieces))
  }

  /** No read came too late. */
  predicate KeptUp(f: Follower) {
    forall i :: 0 <= i < |f.pieces| ==> f.pieces[i].floor <= Wanted(f, i)
  }

  /** The follower one piece earlier. */
  function Before(f: Follower): Follower
    requires |f.pieces| > 0
  {
    var n := |f.pieces| - 1;
    f.(pieces := f.pieces[..n], next := Wanted(f, n))
  }

  lemma BeforeKeepsInv(f: Follower)
    requires Inv(f) && |f.pieces| > 0
    ensures Inv(Before(f)) && Collected(f) == Collected(Before(f)) + f.pieces[|f.pieces|-1].bytes
    ensures forall i :: 0 <= i < |f.pieces| ==> Wanted(Before(f), i) == Wanted(f, i)
  {
    var n := |f.pieces| - 1;
    forall i | 0 <= i < n ensures PieceOk(Before(f), i) {
      assert PieceOk(f, i);
    }
    assert Parts(f.pieces) == Parts(f.pieces[..n]) + [f.pieces[n].bytes];
    FlattenSnoc(Parts(f.pieces[..n]), f.pieces[n].bytes);
  }

  lemma KeptUpBefore(f: Follower)
    requires Inv(f) && |f.pieces| > 0
    ensures var n := |f.pieces| - 1;
            KeptUp(f) <==> KeptUp(Before(f)) && f.pieces[n].floor <= Wanted(f, n)
  {
    var n := |f.pieces| - 1;
    BeforeKeepsInv(f);
    assert forall i :: 0 <= i < n ==> Before(f).pieces[i] == f.pieces[i];
  }

  /** The last piece: how far it went and what it added. */
  lemma LastPiece(f: Follower)
    requires Inv(f) && |f.pieces| > 0
    ensures var n, p := |f.pieces| - 1, f.pieces[|f.pieces|-1];
            && IsSlice(p, f.buffer.history) && f.next == p.at + |p.bytes|
            && p.at == if Wanted(f, n) < p.floor then p.floor else Wanted(f, n)
  {
    assert PieceOk(f, |f.pieces| - 1);
  }

  lemma {:induction false} CollectedLength(f: Follower)
    requires Inv(f)
    ensures |Collected(f)| <= f.next - f.start
    ensures |Collected(f)| == f.next - f.start <==> KeptUp(f)
    decreases |f.pieces|
  {
    if |f.pieces| > 0 {
      BeforeKeepsInv(f);
      LastPiece(f);
      KeptUpBefore(f);
      CollectedLength(Before(f));
    }
  }

  lemma SliceJoin(h: seq<byte>, a: nat, m: nat, n: nat)
    requires a <= m <= n <= |h|
    ensures h[a..n] == h[a..m] + h[m..n]
  {
  }

  lemma {:induction false} CollectedIsHistory(f: Follower)
    requires Inv(f) && KeptUp(f) && f.start <= f.next <= |f.buffer.history|
    ensures Collected(f) == f.buffer.history[f.start..f.next]
    decreases |f.pieces|
  {
    if |f.pieces| > 0 {
      var m := Wanted(f, |f.pieces| - 1);
      BeforeKeepsInv(f);
      LastPiece(f);
      KeptUpBefore(f);
      CollectedLength(Before(f));
      CollectedIsHistory(Before(f));
      SliceJoin(f.buffer.history, f.start, m, f.next);
    }
  }

  /** What was collected is everything from the start up to the next offset exactly when every read
      came before the byte it asked for had aged out. */
  lemma CompleteExact(f0: Follower, steps: seq<Step>)
    requires Fresh(f0) && f0.start <= |f0.buffer.history| && forall s :: s in steps ==> Enabled(s)
    ensures var f := After(f0, steps);
            && f.start == f0.start <= f.next <= |f.buffer.history|
            && (Collected(f) == f.buffer.history[f0.start..f.next] <==> KeptUp(f))
  {
    RunKeepsInv(f0, steps);
    StaysInside(f0, steps);
    var f := After(f0, steps);
    CollectedLength(f);
    if KeptUp(f) {
      CollectedIsHistory(f);
    }
  }

  lemma {:induction false} StaysInside(f: Follower, steps: seq<Step>)
    requires Valid(f.buffer) && f.start <= f.next <= |f.buffer.history| && forall s :: s in steps ==> Enabled(s)
    ensures var f' := After(f, steps);
            && f'.start == f.start && f.next <= f'.next <= |f'.buffer.history|
            && |f'.buffer.history| >= |f.buffer.history|
    decreases |steps|
  {
    if steps != [] {
      StaysInside(Next(f, steps[0]), steps[1..]);
    }
  }

  // ---------------------------------------------------------------------------- coming to an end

  /** A read brings nothing exactly when the client has caught up, whatever its limit. */
  lemma EmptyReadExact(f: Follower, limit: int)
    requires Valid(f.buffer) && limit >= 1 && f.next <= |f.buffer.history|
    ensures ChunkAt(f.buffer, f.next, limit, false).read == 0 <==> f.next == |f.buffer.history|
  {
    CappedKeepsPositive(limit, f.buffer.capacity);
  }

  /** How many bytes these reads may bring together. */
  function CappedSum(b: Buffer, pages: seq<Step>): (n: int)
    requires Valid(b) && forall s :: s in pages ==> s.Read? && s.limit >= 1
    ensures n >= |pages|
  {
    if pages == [] then 0
    else
      CappedKeepsPositive(pages[0].limit, b.capacity);
      CappedReadLimit(pages[0].limit, b.capacity) + CappedSum(b, pages[1..])
  }

  lemma ReadMoves(f: Follower, limit: int)
    requires Valid(f.buffer) && limit >= 1 && f.next <= |f.buffer.history|
    ensures var f' := Next(f, Read(limit));
            var reach := ActualOffset(f.buffer, f.next) + CappedReadLimit(limit, f.buffer.capacity);
            && f'.buffer == f.buffer && f'.next == (if reach < |f.buffer.history| then reach else |f.buffer.history|)
            && Oldest(f.buffer) <= f'.next
  {
    CappedKeepsPositive(limit, f.buffer.capacity);
  }

  /** Exactly how far paging gets once writing stops: the first read skips what has aged out, and from
      there every read brings its capped limit until the end is reached. So the client has caught up
      if and only if the capped limits add up to the retained backlog; as each is at least one, as many
      reads as there are bytes left always do. */
  lemma {:induction false} PagingEnds(f: Follower, pages: seq<Step>)
    requires Valid(f.buffer) && f.next <= |f.buffer.history| && pages != []
    requires forall s :: s in pages ==> s.Read? && s.limit >= 1
    ensures var f' := After(f, pages);
            var reach := ActualOffset(f.buffer, f.next) + CappedSum(f.buffer, pages);
            && f'.buffer == f.buffer && f'.next == (if reach < |f.buffer.history| then reach else |f.buffer.history|)
            && (f'.next == |f.buffer.history| <==>
                  CappedSum(f.buffer, pages) >= |f.buffer.history| - ActualOffset(f.buffer, f.next))
            && (|pages| >= |f.buffer.history| - f.next ==> f'.next == |f.buffer.history|)
    decreases |pages|
  {
    var f1 := Next(f, pages[0]);
    ReadMoves(f, pages[0].limit);
    assert After(f, pages) == After(f1, pages[1..]);
    if |pages| > 1 {
      PagingEnds(f1, pages[1..]);
    } else {
      assert pages[1..] == [];
    }
  }
}
