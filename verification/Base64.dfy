/** The standard Base64 encoding of section 4 of RFC 4648, on bytes: Go's encoder and decoder,
    and the lenient decoder of Python's base64 module. A text is a sequence of codes, 0 to 63 for
    the alphabet and 64 for the pad, each written as one byte. */
module Base64 {
  import opened Common

  type code = x: int | 0 <= x <= 64

  const Pad: code := 64

  /** A-Z, a-z, 0-9, +, / and the pad. */
  function Symbol(v: code): (c: byte)
    ensures CodeOf(c) == Some(v) && c > 32
  {
    if v < 26 then 65 + v else if v < 52 then 97 + v - 26 else if v < 62 then 48 + v - 52
    else if v == 62 then 43 else if v == 63 then 47 else 61
  }

  function CodeOf(c: byte): Option<code> {
    if 65 <= c <= 90 then Some(c - 65)
    else if 97 <= c <= 122 then Some(c - 97 + 26)
    else if 48 <= c <= 57 then Some(c - 48 + 52)
    else if c == 43 then Some(62)
    else if c == 47 then Some(63)
    else if c == 61 then Some(Pad)
    else None
  }

  function Text(codes: seq<code>): (s: seq<byte>)
    ensures |s| == |codes|
  {
    seq(|codes|, i requires 0 <= i < |codes| => Symbol(codes[i]))
  }

  // ---------------------------------------------------------------------------- groups

  function Codes3(a: byte, b: byte, c: byte): seq<code> {
    [a / 4, a % 4 * 16 + b / 16, b % 16 * 4 + c / 64, c % 64]
  }

  function Codes2(a: byte, b: byte): seq<code> {
    [a / 4, a % 4 * 16 + b / 16, b % 16 * 4, Pad]
  }

  function Codes1(a: byte): seq<code> {
    [a / 4, a % 4 * 16, Pad, Pad]
  }

  function EncodeCodes(s: seq<byte>): seq<code> {
    if s == [] then []
    else if |s| == 1 then Codes1(s[0])
    else if |s| == 2 then Codes2(s[0], s[1])
    else Codes3(s[0], s[1], s[2]) + EncodeCodes(s[3..])
  }

  function Encode(s: seq<byte>): seq<byte> {
    Text(EncodeCodes(s))
  }

  /** How many bytes a group of four codes stands for; 0 when it is malformed. */
  function GroupSize(q: seq<code>): (n: nat)
    requires |q| == 4
  {
    if q[0] == Pad || q[1] == Pad then 0
    else if q[2] != Pad && q[3] != Pad then 3
    else if q[2] != Pad then 2
    else if q[3] == Pad then 1
    else 0
  }

  function GroupBytes(q: seq<code>, n: nat): (r: seq<byte>)
    requires |q| == 4 && 1 <= n == GroupSize(q)
    ensures |r| == n
  {
    var x: int, y: int, z: int, w: int := q[0], q[1], q[2], q[3];
    if n == 1 then [x * 4 + y / 16]
    else if n == 2 then [x * 4 + y / 16, y % 16 * 16 + z / 4]
    else [x * 4 + y / 16, y % 16 * 16 + z / 4, z % 4 * 64 + w]
  }

  lemma GroupRoundTrip(a: byte, b: byte, c: byte)
    ensures GroupSize(Codes3(a, b, c)) == 3 && GroupBytes(Codes3(a, b, c), 3) == [a, b, c]
    ensures GroupSize(Codes2(a, b)) == 2 && GroupBytes(Codes2(a, b), 2) == [a, b]
    ensures GroupSize(Codes1(a)) == 1 && GroupBytes(Codes1(a), 1) == [a]
  {
    var y, z := a % 4 * 16 + b / 16, b % 16 * 4 + c / 64;
    assert y / 16 == a % 4 && y % 16 == b / 16;
    assert z / 4 == b % 16 && z % 4 == c / 64;
  }

  /** Only the last group may be padded; the spare bits are not looked at. */
  function DecodeCodes(q: seq<code>): Option<seq<byte>> {
    if q == [] then Some([])
    else if |q| < 4 || GroupSize(q[..4]) == 0 then None
    else if GroupSize(q[..4]) < 3 then
      if |q| == 4 then Some(GroupBytes(q[..4], GroupSize(q[..4]))) else None
    else
      var rest := DecodeCodes(q[4..]);
      if rest.None? then None else Some(GroupBytes(q[..4], 3) + rest.value)
  }

  // ---------------------------------------------------------------------------- Go

  predicate IsBreak(c: byte) {
    c == 10 || c == 13
  }

  /** The codes of a text; line breaks are skipped, anything else foreign is an error. */
  function GoCodes(s: seq<byte>): Option<seq<code>> {
    if s == [] then Some([])
    else
      var rest := GoCodes(s[1..]);
      if IsBreak(s[0]) then rest
      else if CodeOf(s[0]).None? || rest.None? then None
      else Some([CodeOf(s[0]).value] + rest.value)
  }

  function GoDecode(s: seq<byte>): Option<seq<byte>> {
    var codes := GoCodes(s);
    if codes.None? then None else DecodeCodes(codes.value)
  }

  // ---------------------------------------------------------------------------- Python

  /** Python drops whatever is outside the alphabet. */
  function PyCodes(s: seq<byte>): seq<code> {
    if s == [] then []
    else (if CodeOf(s[0]).Some? then [CodeOf(s[0]).value] else []) + PyCodes(s[1..])
  }

  /** ... and reads code by code. `got` are the codes of the current group so far; the pad that
      completes a group ends the text, whatever follows. */
  function PyRead(q: seq<code>, got: seq<code>, pads: nat): Option<seq<byte>>
    requires |got| <= 3 && forall k :: 0 <= k < |got| ==> got[k] != Pad
  {
    if q == [] then (if got == [] then Some([]) else None)
    else if q[0] == Pad then
      if |got| >= 2 && |got| + pads + 1 >= 4 then
        Some(if |got| == 2 then GroupBytes(got + [Pad, Pad], 1) else GroupBytes(got + [Pad], 2))
      else PyRead(q[1..], got, if |got| >= 2 then pads + 1 else pads)
    else if |got| < 3 then PyRead(q[1..], got + [q[0]], 0)
    else
      var rest := PyRead(q[1..], [], 0);
      if rest.None? then None else Some(GroupBytes(got + [q[0]], 3) + rest.value)
  }

  function PyDecode(s: seq<byte>): Option<seq<byte>> {
    PyRead(PyCodes(s), [], 0)
  }

  // ---------------------------------------------------------------------------- round trips

  /** An encoded text is four symbols per group and has neither spaces nor line breaks. */
  lemma {:induction false} EncodeShape(s: seq<byte>)
    ensures |Encode(s)| % 4 == 0 && (Encode(s) == [] <==> s == [])
    ensures forall k :: 0 <= k < |Encode(s)| ==> Encode(s)[k] > 32
  {
    if |s| > 2 {
      EncodeShape(s[3..]);
    }
  }

  lemma {:induction false} DecodeEncodeCodes(s: seq<byte>)
    ensures DecodeCodes(EncodeCodes(s)) == Some(s)
  {
    if s != [] {
      GroupRoundTrip(s[0], if |s| > 1 then s[1] else 0, if |s| > 2 then s[2] else 0);
      var e := EncodeCodes(s);
      if |s| <= 2 {
        assert e[..4] == e && s == (if |s| == 1 then [s[0]] else [s[0], s[1]]);
      } else {
        DecodeEncodeCodes(s[3..]);
        assert e[..4] == Codes3(s[0], s[1], s[2]) && e[4..] == EncodeCodes(s[3..]);
        assert s == [s[0], s[1], s[2]] + s[3..];
      }
    }
  }

  lemma {:induction false} CodesOfText(q: seq<code>)
    ensures GoCodes(Text(q)) == Some(q) && PyCodes(Text(q)) == q
  {
    if q != [] {
      CodesOfText(q[1..]);
      assert Text(q)[1..] == Text(q[1..]);
      assert q == [q[0]] + q[1..];
    }
  }

  /** Go reads back what it encoded. */
  lemma GoRoundTrip(s: seq<byte>)
    ensures GoDecode(Encode(s)) == Some(s)
  {
    CodesOfText(EncodeCodes(s));
    DecodeEncodeCodes(s);
  }

  lemma PyGroup(q: seq<code>, rest: seq<code>)
    requires |q| == 4 && GroupSize(q) == 3
    ensures PyRead(q + rest, [], 0) ==
            var tail := PyRead(rest, [], 0);
            if tail.None? then None else Some(GroupBytes(q, 3) + tail.value)
  {
    var t := q + rest;
    assert PyRead(t, [], 0) == PyRead(t[1..], [q[0]], 0) by { assert [] + [q[0]] == [q[0]]; }
    assert PyRead(t[1..], [q[0]], 0) == PyRead(t[2..], [q[0], q[1]], 0) by {
      assert [q[0]] + [q[1]] == [q[0], q[1]] && t[1..][1..] == t[2..];
    }
    assert PyRead(t[2..], [q[0], q[1]], 0) == PyRead(t[3..], [q[0], q[1], q[2]], 0) by {
      assert [q[0], q[1]] + [q[2]] == [q[0], q[1], q[2]] && t[2..][1..] == t[3..];
    }
    assert [q[0], q[1], q[2]] + [q[3]] == q && t[3..][1..] == rest;
  }

  lemma PyLastGroup(q: seq<code>)
    requires |q| == 4 && 1 <= GroupSize(q) <= 2
    ensures PyRead(q, [], 0) == Some(GroupBytes(q, GroupSize(q)))
  {
    assert PyRead(q, [], 0) == PyRead(q[1..], [q[0]], 0) by { assert [] + [q[0]] == [q[0]]; }
    assert PyRead(q[1..], [q[0]], 0) == PyRead(q[2..], [q[0], q[1]], 0) by {
      assert [q[0]] + [q[1]] == [q[0], q[1]] && q[1..][1..] == q[2..];
    }
    if q[2] == Pad {
      assert PyRead(q[2..], [q[0], q[1]], 0) == PyRead(q[3..], [q[0], q[1]], 1) by { assert q[2..][1..] == q[3..]; }
      assert [q[0], q[1]] + [Pad, Pad] == q;
    } else {
      assert PyRead(q[2..], [q[0], q[1]], 0) == PyRead(q[3..], [q[0], q[1], q[2]], 0) by {
        assert [q[0], q[1]] + [q[2]] == [q[0], q[1], q[2]] && q[2..][1..] == q[3..];
      }
      assert [q[0], q[1], q[2]] + [Pad] == q;
    }
  }

  lemma {:induction false} PyReadEncoded(s: seq<byte>)
    ensures PyRead(EncodeCodes(s), [], 0) == Some(s)
  {
    if s != [] {
      GroupRoundTrip(s[0], if |s| > 1 then s[1] else 0, if |s| > 2 then s[2] else 0);
      if |s| <= 2 {
        PyLastGroup(EncodeCodes(s));
        assert s == (if |s| == 1 then [s[0]] else [s[0], s[1]]);
      } else {
        PyGroup(Codes3(s[0], s[1], s[2]), EncodeCodes(s[3..]));
        PyReadEncoded(s[3..]);
        assert s == [s[0], s[1], s[2]] + s[3..];
      }
    }
  }

  /** Python reads back what Go encoded. */
  lemma PyRoundTrip(s: seq<byte>)
    ensures PyDecode(Encode(s)) == Some(s)
  {
    CodesOfText(EncodeCodes(s));
    PyReadEncoded(s);
  }

  /** No symbol is a space, however wide the notion of a space. */
  lemma {:induction false} EncodePrintable(s: seq<byte>)
    ensures forall k :: 0 <= k < |Encode(s)| ==> 33 <= Encode(s)[k] <= 122
  {
    forall k | 0 <= k < |Encode(s)| ensures 33 <= Encode(s)[k] <= 122 {
      assert Encode(s)[k] == Symbol(EncodeCodes(s)[k]);
    }
  }

  lemma {:induction false} PyReadPrefix(s: seq<byte>, n: nat)
    requires n <= |EncodeCodes(s)|
    ensures var r := PyRead(EncodeCodes(s)[..n], [], 0);
            r.Some? ==> |r.value| <= |s| && r.value == s[..|r.value|]
  {
    var e := EncodeCodes(s);
    if n >= 4 && |s| > 2 {
      var q := Codes3(s[0], s[1], s[2]);
      assert e == q + EncodeCodes(s[3..]) && e[..n] == q + EncodeCodes(s[3..])[..n-4];
      GroupRoundTrip(s[0], s[1], s[2]);
      PyGroup(q, EncodeCodes(s[3..])[..n-4]);
      PyReadPrefix(s[3..], n - 4);
    } else if n >= 4 {
      assert e[..n] == e;
      PyReadEncoded(s);
    } else if n > 0 {
      ShortReadFails(e[..n]);
    }
  }

  /** One to three codes of a group, at most the last of them a pad, are no text. */
  lemma ShortReadFails(q: seq<code>)
    requires 1 <= |q| <= 3 && q[0] != Pad && (|q| > 1 ==> q[1] != Pad)
    ensures PyRead(q, [], 0).None?
  {
    assert PyRead(q, [], 0) == PyRead(q[1..], [q[0]], 0) by { assert [] + [q[0]] == [q[0]]; }
    if |q| == 1 {
      assert q[1..] == [];
    } else {
      assert PyRead(q[1..], [q[0]], 0) == PyRead(q[2..], [q[0], q[1]], 0) by {
        assert [q[0]] + [q[1]] == [q[0], q[1]] && q[1..][1..] == q[2..];
      }
      if |q| == 2 {
        assert q[2..] == [];
      } else {
        var t := q[2..];
        assert t == [q[2]] && t[1..] == [];
        assert PyRead(t, [q[0], q[1]], 0).None?;
      }
    }
  }

  /** A text cut short decodes to a beginning of the data, or not at all. */
  lemma PyPrefix(s: seq<byte>, n: nat)
    requires n <= |Encode(s)|
    ensures var r := PyDecode(Encode(s)[..n]);
            r.Some? ==> |r.value| <= |s| && r.value == s[..|r.value|]
  {
    var e := EncodeCodes(s);
    assert Encode(s)[..n] == Text(e[..n]);
    CodesOfText(e[..n]);
    PyReadPrefix(s, n);
  }
}
