/** Deleting from left to right whatever a scanner finds. */
module Scanning {
  /** `len` gives the length of the match at the front, 0 for none. */
  function Delete<T>(len: seq<T> -> nat, s: seq<T>): seq<T>
    decreases |s|
  {
    if s == [] then [] else Kept(len, s) + Delete(len, s[Turn(len, s)..])
  }

  /** How far one turn of the scan goes, and what it keeps. */
  function Turn<T>(len: seq<T> -> nat, s: seq<T>): (n: nat)
    requires s != []
    ensures 0 < n <= |s|
  {
    if 0 < len(s) <= |s| then len(s) else 1
  }

  function Kept<T>(len: seq<T> -> nat, s: seq<T>): seq<T>
    requires s != []
  {
    if 0 < len(s) <= |s| then [] else [s[0]]
  }

  /** With no match before `i`, everything up to there is kept. */
  lemma {:induction false} DeleteKeeps<T>(len: seq<T> -> nat, s: seq<T>, i: nat)
    requires i <= |s| && forall j :: 0 <= j < i ==> len(s[j..]) == 0
    ensures Delete(len, s) == s[..i] + Delete(len, s[i..])
    decreases i
  {
    assert s[0..] == s;
    if i > 0 {
      var t := s[1..];
      forall j | 0 <= j < i - 1 ensures len(t[j..]) == 0 {
        assert t[j..] == s[j+1..];
      }
      DeleteKeeps(len, t, i - 1);
      assert t[i-1..] == s[i..] && s[..i] == [s[0]] + t[..i-1];
    }
  }

  /** Which elements are kept. */
  function Flags<T>(len: seq<T> -> nat, s: seq<T>): (f: seq<bool>)
    ensures |f| == |s|
    decreases |s|
  {
    if s == [] then []
    else Repeat(Turn(len, s), Kept(len, s) != []) + Flags(len, s[Turn(len, s)..])
  }

  function Repeat(n: nat, keep: bool): (f: seq<bool>)
    ensures |f| == n && forall k :: 0 <= k < n ==> f[k] == keep
  {
    seq(n, i => keep)
  }

  /** The elements whose flag is set. */
  function Select<T>(s: seq<T>, flags: seq<bool>): seq<T>
    requires |flags| == |s|
  {
    if s == [] then [] else (if flags[0] then [s[0]] else []) + Select(s[1..], flags[1..])
  }

  lemma Assoc<T>(x: seq<T>, y: seq<T>, z: seq<T>)
    ensures x + (y + z) == (x + y) + z
  {
  }

  lemma {:induction false} SelectAppend<T>(a: seq<T>, fa: seq<bool>, b: seq<T>, fb: seq<bool>)
    requires |fa| == |a| && |fb| == |b|
    ensures Select(a + b, fa + fb) == Select(a, fa) + Select(b, fb)
  {
    if a == [] {
      assert a + b == b && fa + fb == fb;
    } else {
      assert (a + b)[1..] == a[1..] + b && (fa + fb)[1..] == fa[1..] + fb;
      SelectAppend(a[1..], fa[1..], b, fb);
      Assoc(if fa[0] then [a[0]] else [], Select(a[1..], fa[1..]), Select(b, fb));
    }
  }

  lemma {:induction false} SelectSame<T>(s: seq<T>, keep: bool)
    ensures Select(s, Repeat(|s|, keep)) == if keep then s else []
  {
    if s != [] {
      assert Repeat(|s|, keep)[1..] == Repeat(|s[1..]|, keep);
      SelectSame(s[1..], keep);
    }
  }

  /** Everything is kept exactly when every flag is set. */
  lemma {:induction false} SelectAll<T>(s: seq<T>, flags: seq<bool>)
    requires |flags| == |s|
    ensures |Select(s, flags)| <= |s|
    ensures Select(s, flags) == s <==> forall k :: 0 <= k < |flags| ==> flags[k]
  {
    if s != [] {
      SelectAll(s[1..], flags[1..]);
      if flags[0] {
        assert s == [s[0]] + s[1..];
        assert Select(s, flags)[1..] == Select(s[1..], flags[1..]);
        assert (forall k :: 0 <= k < |flags| ==> flags[k])
               <==> (forall k :: 0 <= k < |flags[1..]| ==> flags[1..][k]) by {
          if forall k :: 0 <= k < |flags[1..]| ==> flags[1..][k] {
            forall k | 0 <= k < |flags| ensures flags[k] {
              if k > 0 { assert flags[1..][k-1]; }
            }
          }
        }
      }
    }
  }

  lemma SelectTurn<T>(len: seq<T> -> nat, s: seq<T>)
    requires s != []
    ensures var n := Turn(len, s);
            Select(s, Flags(len, s)) == Kept(len, s) + Select(s[n..], Flags(len, s[n..]))
  {
    var n := Turn(len, s);
    KeptIs(len, s);
    SelectFirst(s, n, Kept(len, s) != [], Flags(len, s[n..]));
  }

  lemma SelectFirst<T>(s: seq<T>, n: nat, keep: bool, rest: seq<bool>)
    requires n <= |s| && |rest| == |s| - n
    ensures Select(s, Repeat(n, keep) + rest) == (if keep then s[..n] else []) + Select(s[n..], rest)
  {
    SelectAppend(s[..n], Repeat(n, keep), s[n..], rest);
    SelectSame(s[..n], keep);
    assert s == s[..n] + s[n..];
  }

  lemma KeptIs<T>(len: seq<T> -> nat, s: seq<T>)
    requires s != []
    ensures Kept(len, s) == if Kept(len, s) != [] then s[..Turn(len, s)] else []
  {
  }

  lemma {:induction false} DeleteIsSelect<T>(len: seq<T> -> nat, s: seq<T>)
    ensures Delete(len, s) == Select(s, Flags(len, s))
    decreases |s|
  {
    if s != [] {
      SelectTurn(len, s);
      DeleteIsSelect(len, s[Turn(len, s)..]);
    }
  }

  /** When the first turn over `a` does not depend on what follows, the rest decides. */
  lemma DeleteAppendStep<T>(len: seq<T> -> nat, a: seq<T>, b: seq<T>)
    requires a != [] && len(a + b) == len(a) <= |a|
    ensures var n := Turn(len, a);
            (Delete(len, a + b) == Delete(len, a) + Delete(len, b)) <==>
            (Delete(len, a[n..] + b) == Delete(len, a[n..]) + Delete(len, b))
  {
    var n, keep := Turn(len, a), Kept(len, a);
    assert (a + b)[n..] == a[n..] + b && Kept(len, a + b) == keep;
    var l, r := Delete(len, a[n..] + b), Delete(len, a[n..]) + Delete(len, b);
    assert Delete(len, a + b) == keep + l;
    assert Delete(len, a) + Delete(len, b) == keep + r;
    assert (keep + l)[|keep|..] == l && (keep + r)[|keep|..] == r;
  }
}

/** The ANSI escape filter: what the regular expression matches, a scanner for it, and deletion of
    every match. Go's regular expressions see code points, so a text is a sequence of glyphs. */
module AnsiStrip {
  import opened Common
  import opened Scanning

  /** One decoded code point and the bytes it was decoded from. */
  datatype Glyph = Glyph(point: nat, raw: seq<byte>)

  type Text = seq<Glyph>

  const ESC := 0x1B
  const BRACKET := 0x5B
  const CSI := 0x9B

  // ---------------------------------------------------------------------------- the pattern

  /** `[@-Z\\-_]` */
  predicate Fe(g: Glyph) { 0x40 <= g.point <= 0x5A || 0x5C <= g.point <= 0x5F }

  /** `[\x80-\x9A\x9C-\x9F]` */
  predicate C1(g: Glyph) { 0x80 <= g.point <= 0x9A || 0x9C <= g.point <= 0x9F }

  predicate Param(g: Glyph) { 0x30 <= g.point <= 0x3F }

  predicate Inter(g: Glyph) { 0x20 <= g.point <= 0x2F }

  predicate Final(g: Glyph) { 0x40 <= g.point <= 0x7E }

  /** Length of the control sequence introducer `m` begins with, 0 when there is none. */
  function Intro(m: Text): nat {
    if |m| >= 2 && m[0].point == ESC && m[1].point == BRACKET then 2
    else if |m| >= 1 && m[0].point == CSI then 1
    else 0
  }

  /** Parameters from `k` to `p`, intermediates from `p` to `q`. */
  predicate Body(m: Text, k: nat, p: int, q: int) {
    && k <= p <= q <= |m|
    && (forall i :: k <= i < p ==> Param(m[i]))
    && (forall i :: p <= i < q ==> Inter(m[i]))
  }

  /** From its introducer to `q`, `m` is parameters and then intermediates. */
  ghost predicate HasBody(m: Text, q: int) {
    exists p :: Body(m, Intro(m), p, q)
  }

  /** The words the pattern matches. */
  ghost predicate Sequence(m: Text) {
    || (|m| == 2 && m[0].point == ESC && Fe(m[1]))
    || (|m| == 1 && C1(m[0]))
    || (Intro(m) > 0 && HasBody(m, |m|-1) && Final(m[|m|-1]))
  }

  // ---------------------------------------------------------------------------- the scanner

  function SpanParam(s: Text, k: nat): (r: nat)
    requires k <= |s|
    ensures k <= r <= |s|
    decreases |s| - k
  {
    if k < |s| && Param(s[k]) then SpanParam(s, k + 1) else k
  }

  function SpanInter(s: Text, k: nat): (r: nat)
    requires k <= |s|
    ensures k <= r <= |s|
    decreases |s| - k
  {
    if k < |s| && Inter(s[k]) then SpanInter(s, k + 1) else k
  }

  lemma {:induction false} SpanParamExact(s: Text, k: nat)
    requires k <= |s|
    ensures var r := SpanParam(s, k); (forall i :: k <= i < r ==> Param(s[i])) && (r < |s| ==> !Param(s[r]))
    decreases |s| - k
  {
    if k < |s| && Param(s[k]) {
      SpanParamExact(s, k + 1);
    }
  }

  lemma {:induction false} SpanInterExact(s: Text, k: nat)
    requires k <= |s|
    ensures var r := SpanInter(s, k); (forall i :: k <= i < r ==> Inter(s[i])) && (r < |s| ==> !Inter(s[r]))
    decreases |s| - k
  {
    if k < |s| && Inter(s[k]) {
      SpanInterExact(s, k + 1);
    }
  }

  /** Where the body of a control sequence that starts at the front of `s` stops. */
  function BodyEnd(s: Text): (q: nat)
    ensures q <= |s|
  {
    SpanInter(s, SpanParam(s, Intro(s)))
  }

  lemma BodyEndExact(s: Text)
    ensures var q := BodyEnd(s);
            && Intro(s) <= q <= |s| && HasBody(s, q)
            && (q < |s| ==> !Inter(s[q]) && (Param(s[q]) ==> exists i :: Intro(s) <= i < q && Inter(s[i])))
  {
    var p := SpanParam(s, Intro(s));
    var q := SpanInter(s, p);
    SpanParamExact(s, Intro(s));
    SpanInterExact(s, p);
    assert Body(s, Intro(s), p, q);
    assert q > p ==> Inter(s[p]);
  }

  /** Length of the sequence at the front of `s`, 0 when there is none. */
  function MatchLen(s: Text): (n: nat)
    ensures n <= |s|
  {
    if Intro(s) > 0 then
      var q := BodyEnd(s);
      if q < |s| && Final(s[q]) then q + 1 else 0
    else if |s| >= 2 && s[0].point == ESC && Fe(s[1]) then 2
    else if |s| >= 1 && C1(s[0]) then 1
    else 0
  }

  /** Two bodies of one control sequence that are both followed by a final end at the same place. */
  lemma BodyUnique(s: Text, k: nat, p: int, q: int, p': int, q': int)
    requires Body(s, k, p, q) && Body(s, k, p', q') && q < |s| && Final(s[q])
    requires q' < |s| ==> !Inter(s[q']) && (Param(s[q']) ==> exists i :: k <= i < q' && Inter(s[i]))
    ensures q == q'
  {
  }

  /** The scanner finds exactly the words of the pattern; so no word is a proper prefix of another
      and the alternatives need no order. */
  lemma ScannerExact(s: Text, n: nat)
    requires 0 < n <= |s|
    ensures Sequence(s[..n]) <==> MatchLen(s) == n
  {
    var m := s[..n];
    if Intro(s) > 0 {
      var k := Intro(s);
      var q' := BodyEnd(s);
      BodyEndExact(s);
      var p' :| Body(s, k, p', q');
      if Sequence(m) {
        assert Intro(m) == k;
        var p :| Body(m, k, p, n - 1);
        assert m[n-1] == s[n-1];
        assert Body(s, k, p, n - 1) by {
          assert forall i :: k <= i < n - 1 ==> m[i] == s[i];
        }
        BodyUnique(s, k, p, n - 1, p', q');
      }
      if MatchLen(s) == n {
        assert Intro(m) == k;
        assert Body(m, k, p', n - 1) by {
          assert forall i :: k <= i < n - 1 ==> m[i] == s[i];
        }
      }
    }
  }

  lemma PrefixFree(s: Text, m: nat, n: nat)
    requires 0 < m <= n <= |s| && Sequence(s[..m]) && Sequence(s[..n])
    ensures m == n
  {
    ScannerExact(s, m);
    ScannerExact(s, n);
  }

  // ---------------------------------------------------------------------------- deletion

  /** One greedy scan from left to right. */
  function Strip(s: Text): Text {
    Delete(MatchLen, s)
  }

  /** `[i..n]` is a match. */
  ghost predicate MatchAt(s: Text, i: int, n: int) {
    0 <= i < n <= |s| && Sequence(s[i..n])
  }

  /** ... that starts no later than any other. */
  ghost predicate Leftmost(s: Text, i: int, n: int) {
    MatchAt(s, i, n) && NoMatchBefore(s, i)
  }

  ghost predicate NoMatchBefore(s: Text, i: int) {
    forall j, m :: j < i ==> !MatchAt(s, j, m)
  }

  /** What replacing all matches by nothing means: up to the leftmost match everything is kept,
      the match goes, and the same holds of what follows. */
  ghost predicate ReplacedAll(s: Text, out: Text)
    decreases |s|
  {
    || (out == s && NoMatchBefore(s, |s|))
    || exists i, n :: Leftmost(s, i, n) && i <= |out| && out[..i] == s[..i] && ReplacedAll(s[n..], out[i..])
  }

  lemma FoundAt(s: Text, j: nat)
    requires j <= |s| && MatchLen(s[j..]) > 0
    ensures MatchAt(s, j, j + MatchLen(s[j..]))
  {
    var t, n := s[j..], MatchLen(s[j..]);
    ScannerExact(t, n);
    assert t[..n] == s[j..j+n];
  }

  lemma NoneAt(s: Text, j: nat)
    requires j <= |s| && forall m :: !MatchAt(s, j, m)
    ensures MatchLen(s[j..]) == 0
  {
    if MatchLen(s[j..]) > 0 {
      FoundAt(s, j);
    }
  }

  /** Either there is no match at all or there is a leftmost one. */
  lemma {:induction false} LeftmostFrom(s: Text, i: nat) returns (k: nat, n: nat)
    requires i <= |s| && NoMatchBefore(s, i)
    ensures n > 0 ==> Leftmost(s, k, n)
    ensures n == 0 ==> NoMatchBefore(s, |s|)
    decreases |s| - i
  {
    if i == |s| {
      return i, 0;
    }
    var t := s[i..];
    forall m | i < m <= |s| ensures MatchAt(s, i, m) <==> MatchLen(t) == m - i {
      ScannerExact(t, m - i);
      assert t[..m-i] == s[i..m];
    }
    if MatchLen(t) > 0 {
      assert MatchAt(s, i, i + MatchLen(t));
      return i, i + MatchLen(t);
    }
    k, n := LeftmostFrom(s, i + 1);
  }

  lemma StripAt(t: Text, n: nat)
    requires 0 < n <= |t| && Sequence(t[..n])
    ensures Strip(t) == Strip(t[n..])
  {
    ScannerExact(t, n);
    assert Turn(MatchLen, t) == n && Kept(MatchLen, t) == [];
  }

  lemma StripHead(t: Text)
    requires t != [] && MatchLen(t) == 0
    ensures Strip(t) == [t[0]] + Strip(t[1..])
  {
    assert Turn(MatchLen, t) == 1 && Kept(MatchLen, t) == [t[0]];
  }

  /** The scan deletes through the leftmost match and goes on after it. */
  lemma StripThrough(s: Text, i: int, n: int)
    requires Leftmost(s, i, n)
    ensures Strip(s) == s[..i] + Strip(s[n..])
  {
    forall j | 0 <= j < i ensures MatchLen(s[j..]) == 0 {
      NoneAt(s, j);
    }
    DeleteKeeps(MatchLen, s, i);
    assert s[i..][..n-i] == s[i..n] && s[i..][n-i..] == s[n..];
    StripAt(s[i..], n - i);
  }

  lemma NothingFound(s: Text)
    requires NoMatchBefore(s, |s|)
    ensures Strip(s) == s
  {
    forall j | 0 <= j < |s| ensures MatchLen(s[j..]) == 0 {
      NoneAt(s, j);
    }
    DeleteKeeps(MatchLen, s, |s|);
  }

  lemma {:induction false} ReplacedIsStrip(s: Text, out: Text)
    requires ReplacedAll(s, out)
    ensures out == Strip(s)
    decreases |s|
  {
    if out == s && NoMatchBefore(s, |s|) {
      NothingFound(s);
    } else {
      var i, n :| Leftmost(s, i, n) && i <= |out| && out[..i] == s[..i] && ReplacedAll(s[n..], out[i..]);
      ReplacedIsStrip(s[n..], out[i..]);
      ReplacedOnce(s, i, n, out);
    }
  }

  lemma ReplacedOnce(s: Text, i: int, n: int, out: Text)
    requires Leftmost(s, i, n) && i <= |out| && out[..i] == s[..i] && out[i..] == Strip(s[n..])
    ensures out == Strip(s)
  {
    StripThrough(s, i, n);
    assert out == out[..i] + out[i..];
  }

  lemma {:induction false} StripReplaces(s: Text)
    ensures ReplacedAll(s, Strip(s))
    decreases |s|
  {
    var i, n := LeftmostFrom(s, 0);
    if n == 0 {
      NothingFound(s);
    } else {
      StripThrough(s, i, n);
      StripReplaces(s[n..]);
      assert Strip(s)[..i] == s[..i] && Strip(s)[i..] == Strip(s[n..]);
    }
  }

  /** The greedy scan computes exactly the leftmost replacement of all matches. */
  lemma StripIsReplaceAll(s: Text, out: Text)
    ensures ReplacedAll(s, out) <==> out == Strip(s)
  {
    StripReplaces(s);
    if ReplacedAll(s, out) {
      ReplacedIsStrip(s, out);
    }
  }

  /** Without an escape or an 8-bit control there is nothing to strip. */
  lemma {:induction false} NoStarts(t: Text)
    requires forall g :: g in t ==> g.point != ESC && !(0x80 <= g.point <= 0x9F)
    ensures Strip(t) == t
  {
    if t != [] {
      StripHead(t);
      NoStarts(t[1..]);
    }
  }

  // ---------------------------------------------------------------------------- chunk by chunk

  /** `t` can be continued to a sequence. */
  ghost predicate Unfinished(t: Text) {
    exists x: Text :: x != [] && Sequence(t + x)
  }

  /** The computable form: a lone escape, or a control sequence that lacks its final. */
  predicate Open(t: Text) {
    (|t| == 1 && t[0].point == ESC) || (Intro(t) > 0 && BodyEnd(t) == |t|)
  }

  lemma OpenIsUnfinished(t: Text)
    requires Open(t)
    ensures Sequence(t + [Glyph(0x40, [0x40])])
  {
    var m := t + [Glyph(0x40, [0x40])];
    if Intro(t) > 0 {
      BodyEndExact(t);
      var p :| Body(t, Intro(t), p, |t|);
      assert Intro(m) == Intro(t) && Body(m, Intro(t), p, |m| - 1);
    } else {
      assert |m| == 2 && m[0].point == ESC && Fe(m[1]);
    }
  }

  lemma UnfinishedIsOpen(t: Text, x: Text)
    requires t != [] && x != [] && Sequence(t + x)
    ensures Open(t)
  {
    var m := t + x;
    assert m[0] == t[0];
    if Intro(t) > 0 {
      assert Intro(m) == Intro(t);
      var k := Intro(t);
      var p :| Body(m, k, p, |m| - 1);
      BodyEndExact(t);
      assert forall i :: 0 <= i < |t| ==> t[i] == m[i];
    }
  }

  lemma {:induction false} SpanAppend(s: Text, b: Text, k: nat)
    requires k <= |s|
    ensures SpanParam(s, k) < |s| ==> SpanParam(s + b, k) == SpanParam(s, k)
    ensures SpanInter(s, k) < |s| ==> SpanInter(s + b, k) == SpanInter(s, k)
    decreases |s| - k
  {
    if k < |s| {
      assert (s + b)[k] == s[k];
      SpanAppend(s, b, k + 1);
    }
  }

  /** What follows does not change what is found at the front, unless the front was unfinished. */
  lemma MatchLenAppend(s: Text, b: Text)
    requires s != [] && !Open(s)
    ensures MatchLen(s + b) == MatchLen(s)
  {
    assert (s + b)[0] == s[0] && (|s| > 1 ==> (s + b)[1] == s[1]);
    if Intro(s) > 0 {
      var p := SpanParam(s, Intro(s));
      SpanAppend(s, b, Intro(s));
      SpanAppend(s, b, p);
      assert BodyEnd(s + b) == BodyEnd(s);
      assert (s + b)[BodyEnd(s)] == s[BodyEnd(s)];
    }
  }

  /** No tail of `a` is unfinished. */
  predicate Settled(a: Text) {
    forall i :: 0 <= i < |a| ==> !Open(a[i..])
  }

  lemma SettledTail(a: Text, n: nat)
    requires Settled(a) && n <= |a|
    ensures Settled(a[n..])
  {
    forall i | 0 <= i < |a[n..]| ensures !Open(a[n..][i..]) {
      assert a[n..][i..] == a[n+i..];
    }
  }

  lemma {:induction false} StripAppend(a: Text, b: Text)
    requires Settled(a)
    ensures Strip(a + b) == Strip(a) + Strip(b)
    decreases |a|
  {
    if a == [] {
      assert a + b == b;
    } else {
      assert a[0..] == a;
      MatchLenAppend(a, b);
      SettledTail(a, Turn(MatchLen, a));
      StripAppend(a[Turn(MatchLen, a)..], b);
      DeleteAppendStep(MatchLen, a, b);
    }
  }

  /** A sequence holds no escape and no introducer after its own, so an open tail starts after it. */
  lemma OpenAfterMatch(a: Text, i: nat)
    requires 0 < i < |a| && Open(a[i..]) && MatchLen(a) > 0
    ensures MatchLen(a) <= i
  {
    assert a[i..][0] == a[i];
    if Intro(a) > 0 {
      var q := BodyEnd(a);
      BodyEndExact(a);
      var p :| Body(a, Intro(a), p, q);
      assert i >= Intro(a);
    }
  }

  lemma {:induction false} OpenStripsToItself(t: Text, i: nat)
    requires Open(t) && i <= |t|
    ensures Strip(t[i..]) == t[i..]
    decreases |t| - i
  {
    if i < |t| {
      OpenStripsToItself(t, i + 1);
      var u := t[i..];
      assert u[1..] == t[i+1..] && u[0] == t[i];
      if i == 0 {
        assert u == t;
      } else if Intro(t) > 0 {
        BodyEndExact(t);
        var p :| Body(t, Intro(t), p, |t|);
        assert i < Intro(t) || Param(t[i]) || Inter(t[i]);
      }
      assert MatchLen(u) == 0;
    }
  }

  /** '@' ends every unfinished sequence. */
  const Closer: Text := [Glyph(0x40, [0x40])]

  lemma OpenCompletes(a: Text)
    requires Open(a)
    ensures Strip(a + Closer) == []
  {
    var t := a + Closer;
    OpenIsUnfinished(a);
    assert t[..|t|] == t;
    StripAt(t, |t|);
  }

  lemma CloserStays()
    ensures Strip(Closer) == Closer
  {
    NoStarts(Closer);
  }

  /** After an unfinished tail the rest can complete it: of the whole, less is left than of the first
      chunk alone. */
  lemma {:induction false} StripBreaks(a: Text, i: nat)
    requires i < |a| && Open(a[i..])
    ensures var p := Strip(a + Closer); |p| < |Strip(a)| && p == Strip(a)[..|p|]
    decreases |a|
  {
    assert a[0..] == a;
    if Open(a) {
      OpenCompletes(a);
      OpenStripsToItself(a, 0);
    } else {
      MatchLenAppend(a, Closer);
      var n := Turn(MatchLen, a);
      if MatchLen(a) > 0 {
        OpenAfterMatch(a, i);
      }
      assert a[n..][i-n..] == a[i..];
      StripBreaks(a[n..], i - n);
      StripTurn(a, Closer);
      PrefixUnder(Kept(MatchLen, a), Strip(a[n..]), Strip(a[n..] + Closer));
    }
  }

  lemma PrefixUnder(k: Text, whole: Text, part: Text)
    requires |part| < |whole| && part == whole[..|part|]
    ensures |k + part| < |k + whole| && k + part == (k + whole)[..|k + part|]
  {
  }

  lemma StripTurn(a: Text, b: Text)
    requires a != [] && MatchLen(a + b) == MatchLen(a)
    ensures var n := Turn(MatchLen, a);
            Strip(a) == Kept(MatchLen, a) + Strip(a[n..]) && Strip(a + b) == Kept(MatchLen, a) + Strip(a[n..] + b)
  {
    var n := Turn(MatchLen, a);
    assert (a + b)[n..] == a[n..] + b;
  }

  lemma SettledIsFinished(a: Text)
    ensures Settled(a) <==> forall i :: 0 <= i < |a| ==> !Unfinished(a[i..])
  {
    forall i | 0 <= i < |a| ensures Open(a[i..]) <==> Unfinished(a[i..]) {
      if Open(a[i..]) {
        OpenIsUnfinished(a[i..]);
      }
      if Unfinished(a[i..]) {
        var x :| x != [] && Sequence(a[i..] + x);
        UnfinishedIsOpen(a[i..], x);
      }
    }
  }

  /** Stripping chunk by chunk is stripping the whole, for every continuation, exactly when no tail
      of the first chunk is the beginning of a longer sequence. */
  lemma ChunkwiseExact(a: Text)
    ensures (forall b :: Strip(a + b) == Strip(a) + Strip(b)) <==> (forall i :: 0 <= i < |a| ==> !Unfinished(a[i..]))
  {
    SettledIsFinished(a);
    if Settled(a) {
      forall b ensures Strip(a + b) == Strip(a) + Strip(b) {
        StripAppend(a, b);
      }
    } else {
      var i :| 0 <= i < |a| && Open(a[i..]);
      StripBreaks(a, i);
      CloserStays();
    }
  }

  /** The shortest control sequences, such as ESC [ m. */
  predicate Short(r: Text) {
    |r| == 3 && r[0].point == ESC && r[1].point == BRACKET && Final(r[2])
  }

  lemma ShortGoes(r: Text, rest: Text)
    requires Short(r)
    ensures Strip(r + rest) == Strip(rest)
  {
    var t := r + rest;
    assert Body(r, 2, 2, 2);
    assert t[..3] == r && t[3..] == rest;
    StripAt(t, 3);
  }

  lemma DoubleEscape(s: Text)
    requires |s| > 1 && s[0].point == s[1].point == ESC
    ensures MatchLen(s) == 0
  {
  }

  lemma ShortAlone(r: Text)
    requires Short(r)
    ensures Strip(r) == []
  {
    ShortGoes(r, []);
    assert r + [] == r;
  }

  lemma ShortTail(r: Text)
    requires Short(r)
    ensures Strip(r + r[1..]) == r[1..]
  {
    ShortGoes(r, r[1..]);
    NoStarts(r[1..]);
  }

  /** Stripping is not idempotent: from ESC ESC [ m [ m the inner sequence goes, and what is left
      closes up to a new one; likewise for any short sequence. */
  lemma NotIdempotent(r: Text, s: Text)
    requires Short(r) && s == [r[0]] + (r + r[1..])
    ensures Strip(s) == r && Strip(r) == []
  {
    var t := s[1..];
    assert t == r + r[1..];
    ShortTail(r);
    DoubleEscape(s);
    StripHead(s);
    assert [r[0]] + r[1..] == r;
    ShortAlone(r);
  }

  // ---------------------------------------------------------------------------- what is removed

  /** Glyph `j` lies in a match, wherever the scan may have been. */
  ghost predicate InMatch(s: Text, j: int) {
    exists i, n :: MatchAt(s, i, n) && i <= j < n
  }

  predicate Opener(g: Glyph) {
    g.point == ESC || 0x80 <= g.point <= 0x9F
  }

  lemma MatchOpens(s: Text, i: int, n: int)
    requires MatchAt(s, i, n)
    ensures Opener(s[i]) && forall j :: i < j < n ==> 0x20 <= s[j].point <= 0x7E
  {
    var m := s[i..n];
    assert m[0] == s[i];
    forall j | i < j < n ensures 0x20 <= s[j].point <= 0x7E {
      assert m[j-i] == s[j];
      if Intro(m) > 0 && HasBody(m, |m| - 1) {
        var p :| Body(m, Intro(m), p, |m| - 1);
        assert j - i < Intro(m) || j - i == |m| - 1 || Param(m[j-i]) || Inter(m[j-i]);
      }
    }
  }

  /** A match at the front has the scanner's length, and none begins inside it. */
  lemma FrontMatch(s: Text, i: int, n: int)
    requires MatchAt(s, i, n) && MatchLen(s) > 0 && i < MatchLen(s)
    ensures i == 0 && n == MatchLen(s)
  {
    assert s[0..] == s;
    FoundAt(s, 0);
    MatchOpens(s, i, n);
    MatchOpens(s, 0, MatchLen(s));
    if i == 0 {
      assert s[0..n] == s[..n];
      ScannerExact(s, n);
    }
  }

  lemma NoFrontMatch(s: Text, m: int)
    requires MatchLen(s) == 0
    ensures !MatchAt(s, 0, m)
  {
    if 0 < m <= |s| {
      assert s[0..m] == s[..m];
      ScannerExact(s, m);
    }
  }

  lemma MatchShift(s: Text, n: int, i: int, m: int)
    requires 0 <= n <= i && n <= |s|
    ensures MatchAt(s, i, m) <==> MatchAt(s[n..], i - n, m - n)
  {
    if i < m <= |s| {
      assert s[n..][i-n..m-n] == s[i..m];
    }
  }

  /** After the first turn of the scan, the rest decides what lies in a match. */
  lemma InMatchShift(s: Text, j: int)
    requires s != [] && Turn(MatchLen, s) <= j
    ensures var n := Turn(MatchLen, s); InMatch(s, j) <==> InMatch(s[n..], j - n)
  {
    var n := Turn(MatchLen, s);
    if InMatch(s, j) {
      var i, m :| MatchAt(s, i, m) && i <= j < m;
      if i < n {
        if MatchLen(s) > 0 {
          FrontMatch(s, i, m);
        } else {
          NoFrontMatch(s, m);
        }
      }
      MatchShift(s, n, i, m);
    }
    if InMatch(s[n..], j - n) {
      var i, m :| MatchAt(s[n..], i, m) && i <= j - n < m;
      MatchShift(s, n, i + n, m + n);
    }
  }

  /** A glyph is removed exactly when it lies in a match. */
  lemma {:induction false} RemovedExact(s: Text, j: nat)
    requires j < |s|
    ensures !Flags(MatchLen, s)[j] <==> InMatch(s, j)
    decreases |s|
  {
    var n := Turn(MatchLen, s);
    if j >= n {
      InMatchShift(s, j);
      RemovedExact(s[n..], j - n);
    } else if MatchLen(s) > 0 {
      FoundAt(s, 0);
      assert s[0..] == s && MatchAt(s, 0, n);
    } else {
      forall m ensures !MatchAt(s, 0, m) {
        NoFrontMatch(s, m);
      }
    }
  }

  /** An 8-bit control is always removed, except an introducer that begins no sequence. */
  lemma ControlRemovedExact(s: Text, j: nat)
    requires j < |s| && 0x80 <= s[j].point <= 0x9F
    ensures InMatch(s, j) <==> s[j].point != CSI || MatchLen(s[j..]) > 0
  {
    assert s[j..][0] == s[j];
    if MatchLen(s[j..]) > 0 {
      FoundAt(s, j);
    }
    if InMatch(s, j) {
      var i, n :| MatchAt(s, i, n) && i <= j < n;
      MatchOpens(s, i, n);
      assert s[j..][..n-j] == s[j..n];
      ScannerExact(s[j..], n - j);
    }
  }

  // ---------------------------------------------------------------------------- glyphs that break a sequence

  lemma {:induction false} SpanBreaks(s: Text, b: Text, k: nat)
    requires k <= |s| && b != [] && !(0x20 <= b[0].point <= 0x7E)
    ensures SpanParam(s + b, k) == SpanParam(s, k) && SpanInter(s + b, k) == SpanInter(s, k)
    decreases |s| - k
  {
    if k < |s| {
      assert (s + b)[k] == s[k];
      SpanBreaks(s, b, k + 1);
    } else {
      assert (s + b)[k] == b[0];
    }
  }

  /** What is no part of a body ends every unfinished sequence before it. */
  lemma MatchLenBreaks(s: Text, b: Text)
    requires s != [] && b != [] && !(0x20 <= b[0].point <= 0x7E)
    ensures MatchLen(s + b) == MatchLen(s)
  {
    var u := s + b;
    assert u[0] == s[0] && (|s| > 1 ==> u[1] == s[1]) && (|s| == 1 ==> u[1] == b[0]);
    assert Intro(u) == Intro(s);
    if Intro(s) > 0 {
      SpanBreaks(s, b, Intro(s));
      SpanBreaks(s, b, SpanParam(s, Intro(s)));
      var q := BodyEnd(s);
      assert u[q] == if q < |s| then s[q] else b[0];
    }
  }

  /** So the text splits there for the filter, whatever comes before. */
  lemma {:induction false} BreakerSplits(s: Text, b: Text)
    requires b != [] && !(0x20 <= b[0].point <= 0x7E)
    ensures Strip(s + b) == Strip(s) + Strip(b)
    decreases |s|
  {
    if s == [] {
      assert s + b == b;
    } else {
      MatchLenBreaks(s, b);
      BreakerSplits(s[Turn(MatchLen, s)..], b);
      DeleteAppendStep(MatchLen, s, b);
    }
  }
}
