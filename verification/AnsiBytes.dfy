/** The filter as the server applies it, to bytes read as UTF-8. */
module AnsiBytes {
  import opened Common
  import opened Scanning
  import opened AnsiStrip

  const Replacement := 0xFFFD

  predicate Continuation(b: byte) { 0x80 <= b <= 0xBF }

  /** Length of the encoding a lead byte announces, 0 when it is no lead byte. */
  function Width(b: byte): nat {
    if b < 0x80 then 1 else if 0xC2 <= b <= 0xDF then 2 else if 0xE0 <= b <= 0xEF then 3
    else if 0xF0 <= b <= 0xF4 then 4 else 0
  }

  /** The second byte of an encoding; overlong forms, surrogates and values past 0x10FFFF are out. */
  predicate Second(lead: byte, b: byte) {
    && Continuation(b)
    && (lead == 0xE0 ==> b >= 0xA0) && (lead == 0xED ==> b <= 0x9F)
    && (lead == 0xF0 ==> b >= 0x90) && (lead == 0xF4 ==> b <= 0x8F)
  }

  /** `s` begins with a valid encoding of `n` bytes. */
  predicate Encoded(s: seq<byte>, n: nat) {
    && 0 < n <= |s| && Width(s[0]) == n
    && (n > 1 ==> Second(s[0], s[1]))
    && (n > 2 ==> Continuation(s[2]))
    && (n > 3 ==> Continuation(s[3]))
  }

  function Point(s: seq<byte>, n: nat): nat
    requires Encoded(s, n)
  {
    var x: int, y: int := s[0], if n > 1 then s[1] - 0x80 else 0;
    var z: int, w: int := if n > 2 then s[2] - 0x80 else 0, if n > 3 then s[3] - 0x80 else 0;
    if n == 1 then x
    else if n == 2 then (x - 0xC0) * 64 + y
    else if n == 3 then ((x - 0xE0) * 64 + y) * 64 + z
    else (((x - 0xF0) * 64 + y) * 64 + z) * 64 + w
  }

  /** The first code point; a byte that begins none stands for the replacement character. */
  function Decode(s: seq<byte>): (g: Glyph)
    requires s != []
    ensures 0 < |g.raw| <= |s| && g.raw == s[..|g.raw|]
  {
    var n := Width(s[0]);
    if Encoded(s, n) then Glyph(Point(s, n), s[..n]) else Glyph(Replacement, s[..1])
  }

  function Glyphs(data: seq<byte>): Text {
    if data == [] then [] else [Decode(data)] + Glyphs(data[|Decode(data).raw|..])
  }

  function Raws(t: Text): (r: seq<seq<byte>>)
    ensures |r| == |t|
  {
    seq(|t|, i requires 0 <= i < |t| => t[i].raw)
  }

  function Raw(t: Text): seq<byte> {
    Flatten(Raws(t))
  }

  function StripBytes(data: seq<byte>): seq<byte> {
    Raw(Strip(Glyphs(data)))
  }

  lemma RawAppend(a: Text, b: Text)
    ensures Raw(a + b) == Raw(a) + Raw(b)
  {
    assert Raws(a + b) == Raws(a) + Raws(b);
    FlattenAppend(Raws(a), Raws(b));
  }

  lemma RawOne(g: Glyph)
    ensures Raw([g]) == g.raw
  {
    assert Raws([g]) == [] + [g.raw];
    FlattenSnoc([], g.raw);
  }

  /** Decoding forgets no byte, valid or not. */
  lemma {:induction false} GlyphsLossless(data: seq<byte>)
    ensures Raw(Glyphs(data)) == data
  {
    if data != [] {
      var g := Decode(data);
      GlyphsLossless(data[|g.raw|..]);
      RawAppend([g], Glyphs(data[|g.raw|..]));
      RawOne(g);
    }
  }

  lemma C1NeedsLead(s: seq<byte>)
    requires s != [] && 0x80 <= Decode(s).point <= 0x9F
    ensures s[0] == 0xC2
  {
  }

  lemma {:induction false} NoStartsIn(data: seq<byte>)
    requires 0x1B !in data && 0xC2 !in data
    ensures forall g :: g in Glyphs(data) ==> g.point != ESC && !(0x80 <= g.point <= 0x9F)
  {
    if data != [] {
      var g := Decode(data);
      NoStartsIn(data[|g.raw|..]);
      if 0x80 <= g.point <= 0x9F {
        C1NeedsLead(data);
      }
    }
  }

  /** Bytes without an escape and without the lead byte 0xC2 are left alone, so a raw 8-bit control
      such as 0x9B is not stripped: only its two-byte encoding is. */
  lemma RawControlsSurvive(data: seq<byte>)
    requires 0x1B !in data && 0xC2 !in data
    ensures StripBytes(data) == data
  {
    NoStartsIn(data);
    NoStarts(Glyphs(data));
    GlyphsLossless(data);
  }

  // ---------------------------------------------------------------------------- which bytes are removed

  /** One flag per byte: its glyph's. */
  function Spread(t: Text, flags: seq<bool>): seq<bool>
    requires |flags| == |t|
  {
    if t == [] then [] else Repeat(|t[0].raw|, flags[0]) + Spread(t[1..], flags[1..])
  }

  function KeptBytes(data: seq<byte>): seq<bool> {
    Spread(Glyphs(data), Flags(MatchLen, Glyphs(data)))
  }

  /** The glyph that byte `p` belongs to. */
  function GlyphAt(data: seq<byte>, p: nat): (j: nat)
    requires p < |data|
    ensures j < |Glyphs(data)|
  {
    var n := |Decode(data).raw|;
    if p < n then 0 else 1 + GlyphAt(data[n..], p - n)
  }

  lemma {:induction false} SpreadAt(data: seq<byte>, flags: seq<bool>, p: nat)
    requires |flags| == |Glyphs(data)| && p < |data|
    ensures var j := GlyphAt(data, p);
            && |Spread(Glyphs(data), flags)| == |data| && Spread(Glyphs(data), flags)[p] == flags[j]
            && data[p] in Glyphs(data)[j].raw
  {
    var t, n := Glyphs(data), |Decode(data).raw|;
    assert t[0] == Decode(data) && t[1..] == Glyphs(data[n..]);
    if p < n {
      if data[n..] != [] { SpreadAt(data[n..], flags[1..], 0); }
      assert data[p] == t[0].raw[p];
    } else {
      SpreadAt(data[n..], flags[1..], p - n);
    }
  }

  lemma {:induction false} SpreadSelects(data: seq<byte>, flags: seq<bool>)
    requires |flags| == |Glyphs(data)|
    ensures |Spread(Glyphs(data), flags)| == |data|
    ensures Raw(Select(Glyphs(data), flags)) == Select(data, Spread(Glyphs(data), flags))
  {
    if data != [] {
      var t, n := Glyphs(data), |Decode(data).raw|;
      assert t[1..] == Glyphs(data[n..]);
      SpreadSelects(data[n..], flags[1..]);
      SelectAppend(data[..n], Repeat(n, flags[0]), data[n..], Spread(t[1..], flags[1..]));
      SelectSame(data[..n], flags[0]);
      assert data == data[..n] + data[n..];
      RawAppend(if flags[0] then [t[0]] else [], Select(t[1..], flags[1..]));
      RawOne(t[0]);
    }
  }

  /** The filter keeps the bytes that are flagged. */
  lemma StripSelects(data: seq<byte>)
    ensures |KeptBytes(data)| == |data| && StripBytes(data) == Select(data, KeptBytes(data))
  {
    var t := Glyphs(data);
    DeleteIsSelect(MatchLen, t);
    SpreadSelects(data, Flags(MatchLen, t));
  }

  lemma {:induction false} GlyphsDecode(data: seq<byte>, j: nat) returns (rest: seq<byte>)
    requires j < |Glyphs(data)|
    ensures rest != [] && Glyphs(data)[j] == Decode(rest)
  {
    var n := |Decode(data).raw|;
    if j == 0 {
      rest := data;
    } else {
      rest := GlyphsDecode(data[n..], j - 1);
    }
  }

  /** What a code point's bytes say of it: a byte past ASCII is undecodable, or part of a longer code
      point; and an 8-bit control is always 0xC2 and its value. */
  lemma DecodedBytes(s: seq<byte>)
    requires s != []
    ensures var g := Decode(s);
            && (g.point <= 0x7F ==> |g.raw| == 1 && g.raw[0] < 0x80)
            && (0x80 <= g.point <= 0x9F <==> |g.raw| == 2 && g.raw[0] == 0xC2 && g.raw[1] <= 0x9F)
            && (0x80 <= g.point <= 0x9F ==> g.raw == [0xC2, g.point])
            && (|g.raw| == 1 && g.raw[0] >= 0x80 ==> g.point == Replacement)
  {
  }

  /** The encoding of an 8-bit control. */
  predicate ControlBytes(raw: seq<byte>) {
    |raw| == 2 && raw[0] == 0xC2 && raw[1] <= 0x9F
  }

  lemma HighGlyphRemovedExact(data: seq<byte>, j: nat)
    requires j < |Glyphs(data)| && exists b :: b in Glyphs(data)[j].raw && b >= 0x80
    ensures var t := Glyphs(data);
            && (InMatch(t, j) ==> ControlBytes(t[j].raw))
            && (ControlBytes(t[j].raw) ==> (InMatch(t, j) <==> t[j].raw[1] != CSI || MatchLen(t[j..]) > 0))
  {
    var t := Glyphs(data);
    var rest := GlyphsDecode(data, j);
    DecodedBytes(rest);
    if InMatch(t, j) {
      var i, n :| MatchAt(t, i, n) && i <= j < n;
      MatchOpens(t, i, n);
    }
    if 0x80 <= t[j].point <= 0x9F {
      ControlRemovedExact(t, j);
    }
  }

  /** Which bytes past ASCII are removed, for every input: those that stand for an 8-bit control, its
      0xC2 and its value, in a match; which is every such control but an introducer that begins no
      sequence. In particular a byte that does not decode is always kept. */
  lemma HighByteRemovedExact(data: seq<byte>, p: nat)
    requires p < |data| && data[p] >= 0x80
    ensures var t, j := Glyphs(data), GlyphAt(data, p);
            && |KeptBytes(data)| == |data| && data[p] in t[j].raw
            && (!KeptBytes(data)[p] <==> ControlBytes(t[j].raw) && InMatch(t, j))
            && (!KeptBytes(data)[p] <==> ControlBytes(t[j].raw) && (t[j].raw[1] != CSI || MatchLen(t[j..]) > 0))
            && (|t[j].raw| == 1 ==> KeptBytes(data)[p])
  {
    var t, j := Glyphs(data), GlyphAt(data, p);
    SpreadAt(data, Flags(MatchLen, t), p);
    RemovedExact(t, j);
    HighGlyphRemovedExact(data, j);
  }

  /** The filter leaves the data alone exactly when no glyph lies in a match. */
  lemma UnchangedExact(data: seq<byte>)
    ensures StripBytes(data) == data <==> forall j :: 0 <= j < |Glyphs(data)| ==> !InMatch(Glyphs(data), j)
  {
    var t := Glyphs(data);
    var flags := Flags(MatchLen, t);
    StripSelects(data);
    SelectAll(data, KeptBytes(data));
    forall j | 0 <= j < |t| ensures !flags[j] <==> InMatch(t, j) {
      RemovedExact(t, j);
    }
    forall p | 0 <= p < |data| ensures KeptBytes(data)[p] == flags[GlyphAt(data, p)] {
      SpreadAt(data, flags, p);
    }
    if StripBytes(data) == data {
      forall j | 0 <= j < |t| ensures flags[j] {
        var p := ByteOf(data, j);
      }
    }
  }

  /** A byte that glyph `j` was decoded from. */
  lemma {:induction false} ByteOf(data: seq<byte>, j: nat) returns (p: nat)
    requires j < |Glyphs(data)|
    ensures p < |data| && GlyphAt(data, p) == j
  {
    var n := |Decode(data).raw|;
    if j == 0 {
      p := 0;
    } else {
      p := ByteOf(data[n..], j - 1);
      p := p + n;
    }
  }

  // ---------------------------------------------------------------------------- chunks of bytes

  lemma DecodePrefix(a: seq<byte>, b: seq<byte>)
    requires a != [] && |Decode(a + b).raw| <= |a|
    ensures Decode(a + b) == Decode(a)
  {
    var s := a + b;
    var n := Width(s[0]);
    assert forall i :: 0 <= i < |a| ==> s[i] == a[i];
    if n <= |a| {
      assert Encoded(s, n) <==> Encoded(a, n);
      assert s[..n] == a[..n];
    } else {
      assert !Encoded(s, n) && !Encoded(a, n);
    }
    assert s[..1] == a[..1];
  }

  /** The first `p` bytes of `a` decode the same in the whole, and the rest goes with what follows. */
  predicate SplitsAt(a: seq<byte>, b: seq<byte>, p: nat) {
    p <= |a| && Glyphs(a) == Glyphs(a[..p]) + Glyphs(a[p..]) && Glyphs(a + b) == Glyphs(a[..p]) + Glyphs(a[p..] + b)
  }

  /** Where the cut falls: what is left of `a` is nothing or the beginning of a longer code point. */
  lemma {:induction false} CutAt(a: seq<byte>, b: seq<byte>) returns (p: nat)
    ensures SplitsAt(a, b, p) && (p < |a| ==> |Decode(a[p..] + b).raw| > |a| - p)
    decreases |a|
  {
    if a == [] || |Decode(a + b).raw| > |a| {
      assert a[..0] == [] && a[0..] == a;
      p := 0;
    } else {
      DecodePrefix(a, b);
      var n := |Decode(a).raw|;
      var q := CutAt(a[n..], b);
      SplitsLater(a, b, q);
      p := n + q;
      assert a[n..][q..] == a[p..];
    }
  }

  lemma SplitsLater(a: seq<byte>, b: seq<byte>, q: nat)
    requires a != [] && Decode(a + b) == Decode(a) && SplitsAt(a[|Decode(a).raw|..], b, q)
    ensures SplitsAt(a, b, |Decode(a).raw| + q)
  {
    var n := |Decode(a).raw|;
    var front, back := a[n..][..q], a[n+q..];
    assert a[n..][q..] == back;
    GlyphsFirst(a, b);
    FrontGlyph(a, q);
    ConsApart(Decode(a), Glyphs(front), Glyphs(back));
    ConsApart(Decode(a), Glyphs(front), Glyphs(back + b));
  }

  lemma GlyphsFirst(a: seq<byte>, b: seq<byte>)
    requires a != [] && Decode(a + b) == Decode(a)
    ensures var n := |Decode(a).raw|;
            Glyphs(a) == [Decode(a)] + Glyphs(a[n..]) && Glyphs(a + b) == [Decode(a)] + Glyphs(a[n..] + b)
  {
    var n := |Decode(a).raw|;
    assert (a + b)[n..] == a[n..] + b;
  }

  /** The first glyph of `a`, and of what is left of it when the end is cut off. */
  lemma FrontGlyph(a: seq<byte>, q: nat)
    requires a != [] && |Decode(a).raw| + q <= |a|
    ensures var n := |Decode(a).raw|; Glyphs(a[..n+q]) == [Decode(a)] + Glyphs(a[n..][..q])
  {
    var n := |Decode(a).raw|;
    var f := a[..n+q];
    assert f + a[n+q..] == a;
    DecodePrefix(f, a[n+q..]);
    assert f[n..] == a[n..][..q];
  }

  lemma ConsApart(g: Glyph, x: Text, y: Text)
    ensures [g] + (x + y) == ([g] + x) + y
  {
  }

  lemma StraddleContinues(t: seq<byte>, b: seq<byte>)
    requires t != [] && |Decode(t + b).raw| > |t|
    ensures b != [] && Continuation(b[0])
  {
    var s := t + b;
    assert Encoded(s, |Decode(s).raw|) && s[|t|] == b[0];
  }

  lemma NoCut(a: seq<byte>, b: seq<byte>)
    requires b == [] || !Continuation(b[0])
    ensures Glyphs(a + b) == Glyphs(a) + Glyphs(b)
  {
    var p := CutAt(a, b);
    if p < |a| {
      StraddleContinues(a[p..], b);
    }
    assert a[|a|..] == [] && a[..|a|] == a && [] + b == b;
  }

  /** Bytes that do not decode, one glyph each. */
  function Singles(s: seq<byte>): (t: Text)
    ensures |t| == |s|
  {
    seq(|s|, i requires 0 <= i < |s| => Glyph(Replacement, [s[i]]))
  }

  lemma {:induction false} ContinuationSingles(x: seq<byte>, c: seq<byte>)
    requires forall k :: 0 <= k < |x| ==> Continuation(x[k])
    ensures Glyphs(x + c) == Singles(x) + Glyphs(c)
  {
    if x == [] {
      assert x + c == c;
    } else {
      var s := x + c;
      assert s[0] == x[0] && Width(s[0]) == 0 && s[..1] == [x[0]];
      assert s[1..] == x[1..] + c;
      ContinuationSingles(x[1..], c);
      assert Singles(x) == [Glyph(Replacement, [x[0]])] + Singles(x[1..]);
    }
  }

  lemma SinglesCons(x: seq<byte>)
    requires x != []
    ensures Singles(x) == [Glyph(Replacement, [x[0]])] + Singles(x[1..])
  {
  }

  lemma {:induction false} SinglesStay(x: seq<byte>, c: Text)
    ensures Strip(Singles(x) + c) == Singles(x) + Strip(c)
    decreases |x|
  {
    if x == [] {
      assert Singles(x) + c == c;
    } else {
      var g, rest := Glyph(Replacement, [x[0]]), Singles(x[1..]);
      SinglesCons(x);
      ConsApart(g, rest, c);
      InertHead(g, rest + c);
      SinglesStay(x[1..], c);
      ConsApart(g, rest, Strip(c));
    }
  }

  lemma InertHead(g: Glyph, y: Text)
    requires g.point >= 0xA0
    ensures Strip([g] + y) == [g] + Strip(y)
  {
    var t := [g] + y;
    assert t[1..] == y && MatchLen(t) == 0;
    StripHead(t);
  }

  lemma SinglesSplit(a: Text, x: seq<byte>, c: Text)
    requires x != []
    ensures Strip(a + (Singles(x) + c)) == Strip(a) + (Singles(x) + Strip(c))
  {
    SinglesCons(x);
    BreakerSplits(a, Singles(x) + c);
    SinglesStay(x, c);
  }

  /** ... and nothing after it. */
  lemma SinglesEnd(a: Text, x: seq<byte>)
    requires x != []
    ensures Raw(Strip(a + Singles(x))) == Raw(Strip(a)) + x
  {
    SinglesSplit(a, x, []);
    assert Singles(x) + [] == Singles(x) && Singles(x) + Strip([]) == Singles(x);
    RawAppend(Strip(a), Singles(x));
    SinglesRaw(x);
  }

  lemma SinglesFirst(x: seq<byte>, c: Text)
    ensures Raw(Strip(Singles(x) + c)) == x + Raw(Strip(c))
  {
    SinglesStay(x, c);
    RawAppend(Singles(x), Strip(c));
    SinglesRaw(x);
  }

  lemma {:induction false} SinglesRaw(x: seq<byte>)
    ensures Raw(Singles(x)) == x
  {
    if x != [] {
      SinglesRaw(x[1..]);
      assert Singles(x) == [Glyph(Replacement, [x[0]])] + Singles(x[1..]);
      RawAppend([Glyph(Replacement, [x[0]])], Singles(x[1..]));
      RawOne(Glyph(Replacement, [x[0]]));
    }
  }

  /** The first half of a code point decodes to nothing, byte by byte. */
  lemma FirstHalf(t: seq<byte>, b: seq<byte>)
    requires t != [] && |Decode(t + b).raw| > |t|
    ensures Glyphs(t) == Singles(t)
  {
    var s, n := t + b, |Decode(t + b).raw|;
    assert Encoded(s, n) && t[0] == s[0];
    var rest := t[1..];
    forall k | 0 <= k < |rest| ensures Continuation(rest[k]) {
      assert rest[k] == s[k+1];
    }
    ContinuationSingles(rest, []);
    assert rest + [] == rest && Singles(rest) + Glyphs([]) == Singles(rest);
    assert t[..1] == [t[0]] && !Encoded(t, n);
    SinglesCons(t);
  }

  /** A code point cut in two: its halves decode to nothing, byte by byte. */
  lemma CutCodePoint(t: seq<byte>, b: seq<byte>) returns (x: seq<byte>, c: seq<byte>)
    requires t != [] && |Decode(t + b).raw| > |t|
    ensures x != [] && b == x + c && Decode(t + b).raw == t + x
    ensures Glyphs(t) == Singles(t) && Glyphs(b) == Singles(x) + Glyphs(c)
    ensures Glyphs(t + b) == [Decode(t + b)] + Glyphs(c)
    ensures t[|t|-1] != 0xC2 ==> Decode(t + b).point >= 0xA0
  {
    var s, n := t + b, |Decode(t + b).raw|;
    x, c := b[..n-|t|], b[n-|t|..];
    assert b == x + c && s[..n] == t + x && s[n..] == c;
    FirstHalf(t, b);
    forall k | 0 <= k < |x| ensures Continuation(x[k]) {
      assert Encoded(s, n) && x[k] == s[|t| + k];
    }
    ContinuationSingles(x, c);
    if t[|t|-1] != 0xC2 { LongPoint(t, b); }
  }

  /** Only 0xC2 begins a control; whatever else is longer than a byte is past them all. */
  lemma LongPoint(t: seq<byte>, b: seq<byte>)
    requires t != [] && |Decode(t + b).raw| > |t| && t[|t|-1] != 0xC2
    ensures Decode(t + b).point >= 0xA0
  {
    var s := t + b;
    DecodedBytes(s);
    assert s[|t|-1] == t[|t|-1];
  }

  /** A code point that is neither ASCII nor a control stands between two texts. */
  lemma GlyphBetween(a: Text, g: Glyph, y: Text)
    requires g.point >= 0xA0
    ensures Raw(Strip(a + ([g] + y))) == Raw(Strip(a)) + (g.raw + Raw(Strip(y)))
  {
    BreakerSplits(a, [g] + y);
    InertHead(g, y);
    RawAppend(Strip(a), [g] + Strip(y));
    RawAppend([g], Strip(y));
    RawOne(g);
  }

  /** Cutting a code point in two changes nothing, unless the bytes are an 8-bit control's. */
  lemma CutSplits(a: Text, t: seq<byte>, b: seq<byte>)
    requires t != [] && |Decode(t + b).raw| > |t| && t[|t|-1] != 0xC2
    ensures Raw(Strip(a + Glyphs(t + b))) == Raw(Strip(a + Glyphs(t))) + Raw(Strip(Glyphs(b)))
  {
    var x, c := CutCodePoint(t, b);
    GlyphBetween(a, Decode(t + b), Glyphs(c));
    SinglesEnd(a, t);
    SinglesFirst(x, Glyphs(c));
    Halves(Raw(Strip(a)), t, x, Raw(Strip(Glyphs(c))));
  }

  lemma Halves(before: seq<byte>, t: seq<byte>, x: seq<byte>, after: seq<byte>)
    ensures before + ((t + x) + after) == (before + t) + (x + after)
  {
  }

  lemma ChunksAgree(a: seq<byte>, b: seq<byte>)
    requires a != [] ==> a[|a|-1] != 0xC2
    requires Settled(Glyphs(a))
    ensures StripBytes(a + b) == StripBytes(a) + StripBytes(b)
  {
    var p := CutAt(a, b);
    if p < |a| {
      CutChunks(a, b, p);
    } else {
      WholeEnds(a, b, p);
      WholeChunks(a, b);
    }
  }

  lemma WholeEnds(a: seq<byte>, b: seq<byte>, p: nat)
    requires p == |a| && SplitsAt(a, b, p)
    ensures Glyphs(a + b) == Glyphs(a) + Glyphs(b)
  {
    assert a[..p] == a && a[p..] + b == b;
  }

  lemma CutChunks(a: seq<byte>, b: seq<byte>, p: nat)
    requires p < |a| && a[|a|-1] != 0xC2 && |Decode(a[p..] + b).raw| > |a| - p && SplitsAt(a, b, p)
    ensures StripBytes(a + b) == StripBytes(a) + StripBytes(b)
  {
    CutSplits(Glyphs(a[..p]), a[p..], b);
  }

  lemma WholeChunks(a: seq<byte>, b: seq<byte>)
    requires Settled(Glyphs(a)) && Glyphs(a + b) == Glyphs(a) + Glyphs(b)
    ensures StripBytes(a + b) == StripBytes(a) + StripBytes(b)
  {
    StripAppend(Glyphs(a), Glyphs(b));
    RawAppend(Strip(Glyphs(a)), Strip(Glyphs(b)));
  }

  lemma LoneLead()
    ensures Glyphs([0xC2]) == Singles([0xC2])
  {
    var s: seq<byte> := [0xC2];
    assert s[1..] == [] && s[..1] == [s[0]] && !Encoded(s, 2);
  }

  lemma WholeControl()
    ensures Glyphs([0xC2, 0x85]) == [Glyph(0x85, [0xC2, 0x85])]
  {
    var s: seq<byte> := [0xC2, 0x85];
    assert s[2..] == [] && s[..2] == s && Encoded(s, 2);
  }

  lemma ControlGoes(a: Text, g: Glyph)
    requires C1(g)
    ensures Strip(a + [g]) == Strip(a)
  {
    BreakerSplits(a, [g]);
    assert [g][..1] == [g] && [g][1..] == [];
    StripAt([g], 1);
    assert Strip(a) + [] == Strip(a);
  }

  /** A dangling 0xC2 is kept by itself and removed with the control it introduces. */
  lemma DanglingLeadBreaks(a: seq<byte>)
    requires a != [] && a[|a|-1] == 0xC2
    ensures StripBytes(a + [0x85]) != StripBytes(a) + StripBytes([0x85])
  {
    var q := a[..|a|-1];
    assert a == q + [0xC2] && a + [0x85] == q + [0xC2, 0x85];
    NoCut(q, [0xC2]);
    NoCut(q, [0xC2, 0x85]);
    LoneLead();
    WholeControl();
    SinglesEnd(Glyphs(q), [0xC2]);
    ControlGoes(Glyphs(q), Glyph(0x85, [0xC2, 0x85]));
  }

  lemma CloserGlyph()
    ensures Glyphs([0x40]) == Closer
  {
    var s: seq<byte> := [0x40];
    assert s[1..] == [] && s[..1] == s;
  }

  lemma OpenTailBreaks(a: seq<byte>, i: nat)
    requires i < |Glyphs(a)| && Open(Glyphs(a)[i..])
    ensures StripBytes(a + [0x40]) != StripBytes(a) + StripBytes([0x40])
  {
    NoCut(a, [0x40]);
    CloserGlyph();
    CloserStays();
    RawOne(Closer[0]);
    StripBreaks(Glyphs(a), i);
    PrefixRaw(Strip(Glyphs(a) + Closer), Strip(Glyphs(a)));
  }

  lemma PrefixRaw(part: Text, whole: Text)
    requires |part| <= |whole| && part == whole[..|part|]
    ensures |Raw(part)| <= |Raw(whole)|
  {
    assert whole == part + whole[|part|..];
    RawAppend(part, whole[|part|..]);
  }

  /** Stripping byte chunk by byte chunk, as the tail does, equals stripping the whole, for every
      continuation, exactly when the chunk does not end in 0xC2 and no tail of its code points is the
      beginning of a longer sequence. A cut inside any other code point is harmless. */
  lemma ChunkwiseBytesExact(a: seq<byte>)
    ensures (forall b :: StripBytes(a + b) == StripBytes(a) + StripBytes(b)) <==>
            (a != [] ==> a[|a|-1] != 0xC2) && forall i :: 0 <= i < |Glyphs(a)| ==> !Unfinished(Glyphs(a)[i..])
  {
    var t := Glyphs(a);
    SettledIsFinished(t);
    if a != [] && a[|a|-1] == 0xC2 {
      DanglingLeadBreaks(a);
    } else if i :| 0 <= i < |t| && Open(t[i..]) {
      OpenTailBreaks(a, i);
    } else {
      forall b ensures StripBytes(a + b) == StripBytes(a) + StripBytes(b) {
        ChunksAgree(a, b);
      }
    }
  }
}
