/** Colon-separated entries of the command line client. */
module Colons {
  function Split(s: string): (parts: seq<string>)
    ensures parts != []
  {
    if s == [] then [[]]
    else
      var rest := Split(s[1..]);
      if s[0] == ':' then [[]] + rest else [[s[0]] + rest[0]] + rest[1..]
  }

  function Join(parts: seq<string>): string
    requires parts != []
  {
    if |parts| == 1 then parts[0] else parts[0] + [':'] + Join(parts[1..])
  }

  lemma JoinTwo(a: string, b: string)
    ensures Join([a, b]) == a + [':'] + b
  {
    assert [a, b][1..] == [b];
  }

  lemma JoinThree(a: string, b: string, c: string)
    ensures Join([a, b, c]) == a + [':'] + b + [':'] + c
  {
    assert [a, b, c][1..] == [b, c];
    JoinTwo(b, c);
  }

  predicate NoColon(s: string) { ':' !in s }

  predicate Absolute(path: string) { path != [] && path[0] == '/' }

  /** A character before the first part is one before the whole. */
  lemma JoinPrepend(c: char, parts: seq<string>)
    requires parts != []
    ensures Join([[c] + parts[0]] + parts[1..]) == [c] + Join(parts)
  {
    var longer := [[c] + parts[0]] + parts[1..];
    if |parts| == 1 {
      assert longer == [[c] + parts[0]];
    } else {
      assert longer[1..] == parts[1..];
      assert [c] + parts[0] + [':'] + Join(parts[1..]) == [c] + (parts[0] + [':'] + Join(parts[1..]));
    }
  }

  lemma {:induction false} JoinSplit(s: string)
    ensures Join(Split(s)) == s && forall i :: 0 <= i < |Split(s)| ==> NoColon(Split(s)[i])
  {
    if s == [] {
      assert Split(s) == [[]];
    } else {
      var rest := Split(s[1..]);
      JoinSplit(s[1..]);
      if s[0] == ':' {
        assert Split(s) == [[]] + rest;
        assert Split(s)[0] == [] && Split(s)[1..] == rest;
        assert Join(Split(s)) == [':'] + s[1..];
      } else {
        assert Split(s) == [[s[0]] + rest[0]] + rest[1..];
        assert NoColon([s[0]] + rest[0]) by { assert NoColon(rest[0]); }
        JoinPrepend(s[0], rest);
      }
      assert [s[0]] + s[1..] == s;
    }
  }

  lemma {:induction false} SplitPart(p: string, rest: string)
    requires NoColon(p)
    ensures Split(p) == [p] && Split(p + [':'] + rest) == [p] + Split(rest)
  {
    if p != [] {
      SplitPart(p[1..], rest);
      assert [p[0]] + p[1..] == p;
      assert [p[1..]][1..] == [];
      assert (p + [':'] + rest)[1..] == p[1..] + [':'] + rest;
      assert ([p[1..]] + Split(rest))[1..] == Split(rest);
    } else {
      assert (p + [':'] + rest)[1..] == rest;
    }
  }

  lemma {:induction false} SplitJoin(parts: seq<string>)
    requires parts != [] && forall i :: 0 <= i < |parts| ==> NoColon(parts[i])
    ensures Split(Join(parts)) == parts
  {
    if |parts| == 1 {
      SplitPart(parts[0], []);
    } else {
      SplitPart(parts[0], Join(parts[1..]));
      SplitJoin(parts[1..]);
    }
  }
}

/** Host mounts: 'HOST_PATH[:CONTAINER_PATH][:ro|rw]'. */
module HostMounts {
  import opened Common
  import opened Colons

  datatype HostMount = HostMount(path: string, mountPath: Option<string>, readOnly: Option<bool>)

  datatype MountError = TooManyParts | RelativeHost | RelativeContainer | Trailing

  /** What the client itself can write down. */
  predicate Canonical(m: HostMount) {
    && Absolute(m.path) && NoColon(m.path)
    && (m.mountPath.Some? ==> Absolute(m.mountPath.value) && NoColon(m.mountPath.value))
  }

  function Mode(readOnly: bool): string { if readOnly then "ro" else "rw" }

  /** The colon-separated parts of a rendered mount. */
  function Parts(m: HostMount): (p: seq<string>)
    ensures p != []
  {
    [m.path] + (if m.mountPath.Some? && m.mountPath.value != [] then [m.mountPath.value] else [])
    + (if m.readOnly.Some? then [Mode(m.readOnly.value)] else [])
  }

  function Rendered(m: HostMount): string { Join(Parts(m)) }

  method RenderHostMount(m: HostMount) returns (text: string)
    ensures text == Rendered(m)
  {
    text := m.path;
    if m.mountPath.Some? && m.mountPath.value != [] {
      text := text + [':'] + m.mountPath.value;
    }
    if m.readOnly.Some? {
      text := text + (if m.readOnly.value then ":ro" else ":rw");
    }
    assert ":ro" == [':'] + "ro" && ":rw" == [':'] + "rw";
    var parts := Parts(m);
    if |parts| == 3 {
      JoinThree(parts[0], parts[1], parts[2]);
      assert parts == [parts[0], parts[1], parts[2]];
    } else if |parts| == 2 {
      JoinTwo(parts[0], parts[1]);
      assert parts == [parts[0], parts[1]];
    }
  }

  lemma PartsOfCanonical(m: HostMount)
    requires Canonical(m)
    ensures Split(Rendered(m)) == Parts(m)
  {
    SplitJoin(Parts(m));
  }

  /** Canonical mounts that render alike are alike. */
  lemma RenderedInjective(m: HostMount, n: HostMount)
    requires Canonical(m) && Canonical(n) && Rendered(m) == Rendered(n)
    ensures m == n
  {
    PartsOfCanonical(m);
    PartsOfCanonical(n);
    var p := Parts(m);
    assert p == Parts(n) && p[0] == m.path == n.path;
    assert m.mountPath.Some? <==> |p| > 1 && p[1][0] == '/';
    assert n.mountPath.Some? <==> |p| > 1 && p[1][0] == '/';
    assert m.readOnly.Some? ==> p[|p|-1] == Mode(m.readOnly.value);
    assert n.readOnly.Some? ==> p[|p|-1] == Mode(n.readOnly.value);
    assert "ro"[1] != "rw"[1];
  }

  /** Accepts exactly the renderings of canonical mounts, and returns the mount rendered; so any
      mount comes back from its rendering exactly when it is canonical. */
  method ParseHostMount(entry: string) returns (r: Result<HostMount, MountError>)
    ensures r.Ok? ==> Canonical(r.value) && Rendered(r.value) == entry
    ensures forall m :: Rendered(m) == entry ==> (r == Ok(m) <==> Canonical(m))
  {
    var parts := Split(entry);
    JoinSplit(entry);
    forall m | Canonical(m) && Rendered(m) == entry ensures parts == Parts(m) {
      PartsOfCanonical(m);
    }
    if |parts| > 3 { return Err(TooManyParts); }
    var hostPath, rest := parts[0], parts[1..];
    if !Absolute(hostPath) { return Err(RelativeHost); }
    var mount := HostMount(hostPath, None, None);
    if rest != [] && (rest[|rest|-1] == "ro" || rest[|rest|-1] == "rw") {
      mount := mount.(readOnly := Some(rest[|rest|-1] == "ro"));
      rest := rest[..|rest|-1];
    }
    if rest != [] {
      var containerPath := rest[0];
      rest := rest[1..];
      if !Absolute(containerPath) { return Err(RelativeContainer); }
      mount := mount.(mountPath := Some(containerPath));
    }
    if rest != [] { return Err(Trailing); }
    assert Parts(mount) == parts;
    r := Ok(mount);
    forall m | Canonical(m) && Rendered(m) == entry ensures m == mount {
      RenderedInjective(m, mount);
    }
  }
}

/** Writable directories: 'PATH[:SIZE]'. */
module WritableDirs {
  import opened Common
  import opened Colons
  import Floats
  import Powers
  import MemorySize

  datatype WritableDir = WritableDir(path: string, sizeLimit: nat)

  datatype DirError = TooManyParts | RelativePath | BadSize(why: MemorySize.SizeError)

  const DefaultSize: nat := 8388608

  function Parse(entry: string): Result<WritableDir, DirError> {
    var parts := Split(entry);
    if |parts| > 2 then Err(TooManyParts)
    else if !Absolute(parts[0]) then Err(RelativePath)
    else if |parts| == 1 then Ok(WritableDir(parts[0], DefaultSize))
    else
      match MemorySize.MemoryToBytes(parts[1])
      case Err(e) => Err(BadSize(e))
      case Ok(size) => Ok(WritableDir(parts[0], size))
  }

  function Render(d: WritableDir): string {
    if d.sizeLimit != 0 then d.path + [':'] + MemorySize.FormatBytes(d.sizeLimit) else d.path
  }

  lemma ParseAccepts(entry: string)
    ensures Parse(entry).Ok? ==> Absolute(Parse(entry).value.path) && NoColon(Parse(entry).value.path)
  {
    JoinSplit(entry);
  }

  lemma FormattedNoColon(count: nat)
    ensures NoColon(MemorySize.FormatBytes(count))
  {
    var d := MemorySize.Decimal(MemorySize.HowMany(count));
    assert forall c :: c in d ==> MemorySize.IsDigit(c);
  }

  /** A directory comes back from its rendering exactly when its path is absolute and free of
      colons and its size is positive and survives floating point. */
  lemma RoundTripExact(d: WritableDir)
    ensures Parse(Render(d)) == Ok(d) <==>
            Absolute(d.path) && NoColon(d.path) && d.sizeLimit > 0
            && Floats.Representable(MemorySize.Bits, d.sizeLimit) && Powers.Below(d.sizeLimit, MemorySize.MaxBits)
  {
    ParseAccepts(Render(d));
    if Absolute(d.path) && NoColon(d.path) {
      if d.sizeLimit == 0 {
        SplitPart(d.path, []);
      } else {
        var size := MemorySize.FormatBytes(d.sizeLimit);
        FormattedNoColon(d.sizeLimit);
        SplitPart(d.path, size);
        SplitPart(size, []);
        MemorySize.FormatRoundTripExact(d.sizeLimit);
      }
    }
  }
}

/** Environment variables: 'NAME=VALUE', or a bare 'NAME' taken from the shell. */
module EnvVars {
  import opened Common
  import MemorySize

  datatype EnvVar = EnvVar(name: string, value: string)

  datatype EnvError = BadName | NotSet

  predicate NameStart(c: char) { 'A' <= c <= 'Z' || 'a' <= c <= 'z' || c == '_' }

  predicate NameRest(c: char) { NameStart(c) || '0' <= c <= '9' }

  predicate IsName(s: string) {
    s != [] && NameStart(s[0]) && forall i :: 0 <= i < |s| ==> NameRest(s[i])
  }

  /** Index of the first '=', or the length when there is none. */
  function Equals(s: string): (k: nat)
    ensures k <= |s| && '=' !in s[..k] && (k < |s| ==> s[k] == '=')
  {
    if s == [] || s[0] == '=' then 0
    else
      assert forall k :: 0 <= k < |s| ==> s[..k+1] == [s[0]] + s[1..][..k];
      1 + Equals(s[1..])
  }

  function Parse(entry: string, environ: map<string, string>): Result<EnvVar, EnvError> {
    var k := Equals(entry);
    var name := MemorySize.Strip(entry[..k]);
    if !IsName(name) then Err(BadName)
    else if k < |entry| then Ok(EnvVar(name, entry[k+1..]))
    else if name in environ then Ok(EnvVar(name, environ[name]))
    else Err(NotSet)
  }

  function Render(v: EnvVar): string { v.name + ['='] + v.value }

  lemma {:induction false} EqualsAt(name: string, value: string)
    requires '=' !in name
    ensures Equals(name + ['='] + value) == |name|
  {
    if name != [] {
      assert (name + ['='] + value)[1..] == name[1..] + ['='] + value;
      EqualsAt(name[1..], value);
    }
  }

  /** A variable comes back from its rendering exactly when its name is a name, whatever the value
      and whatever the shell holds. */
  lemma RoundTripExact(v: EnvVar, environ: map<string, string>)
    ensures Parse(Render(v), environ) == Ok(v) <==> IsName(v.name)
  {
    if IsName(v.name) {
      var entry := Render(v);
      EqualsAt(v.name, v.value);
      assert entry[..|v.name|] == v.name && entry[|v.name|+1..] == v.value;
      MemorySize.NoSpaces(v.name);
    }
  }

  lemma AroundEquals(name: string, entry: string, k: nat)
    requires k < |entry| && entry[k] == '='
    ensures name + ['='] + entry[k+1..] == name + entry[k..]
  {
  }

  /** An accepted assignment renders as itself, up to blanks around the name; a bare name stands for
      the assignment the shell already makes. */
  lemma RenderParsed(entry: string, environ: map<string, string>)
    requires Parse(entry, environ).Ok?
    ensures var v, k := Parse(entry, environ).value, Equals(entry);
            && IsName(v.name) && v.name == MemorySize.Strip(entry[..k])
            && (k < |entry| ==> Render(v) == v.name + entry[k..])
            && (k == |entry| ==> v.name in environ && v.value == environ[v.name])
  {
    var k := Equals(entry);
    if k < |entry| {
      AroundEquals(MemorySize.Strip(entry[..k]), entry, k);
    }
  }

  // ---------------------------------------------------------------------------- repeated names

  /** Where a name is first seen; the length when it never is. */
  function First(entries: seq<EnvVar>, name: string): (i: nat)
    ensures i <= |entries|
  {
    if |entries| == 0 || entries[0].name == name then 0 else 1 + First(entries[1..], name)
  }

  lemma {:induction false} FirstExact(entries: seq<EnvVar>, name: string)
    ensures var i := First(entries, name);
            (i < |entries| ==> entries[i].name == name) && forall j :: 0 <= j < i ==> entries[j].name != name
  {
    if |entries| > 0 && entries[0].name != name {
      FirstExact(entries[1..], name);
    }
  }

  /** Where a name is last seen; -1 when it never is. */
  function Last(entries: seq<EnvVar>, name: string): (i: int)
    ensures -1 <= i < |entries|
  {
    var n := |entries|;
    if n == 0 || entries[n-1].name == name then n - 1 else Last(entries[..n-1], name)
  }

  lemma {:induction false} LastExact(entries: seq<EnvVar>, name: string)
    ensures var i := Last(entries, name);
            (i >= 0 ==> entries[i].name == name) && forall j :: i < j < |entries| ==> entries[j].name != name
  {
    var n := |entries|;
    if n > 0 && entries[n-1].name != name {
      LastExact(entries[..n-1], name);
    }
  }

  predicate Named(entries: seq<EnvVar>, name: string) { First(entries, name) < |entries| }

  predicate LastValue(entries: seq<EnvVar>, v: EnvVar) {
    Last(entries, v.name) >= 0 && entries[Last(entries, v.name)] == v
  }

  /** Distinct names, exactly those of the entries, in the order first seen, each with its last value. */
  ghost predicate Deduped(entries: seq<EnvVar>, out: seq<EnvVar>) {
    && (forall name :: Named(out, name) <==> Named(entries, name))
    && (forall i :: 0 <= i < |out| ==> LastValue(entries, out[i]))
    && (forall i, j :: 0 <= i < j < |out| ==> First(entries, out[i].name) < First(entries, out[j].name))
  }

  /** A dictionary that keeps the order of insertion, filled with these entries. */
  ghost predicate Filled(entries: seq<EnvVar>, order: seq<string>, byName: map<string, EnvVar>) {
    && (forall name :: name in byName <==> Named(entries, name))
    && (forall name :: name in order <==> name in byName)
    && (forall name :: name in byName ==> byName[name].name == name && LastValue(entries, byName[name]))
    && (forall i, j :: 0 <= i < j < |order| ==> First(entries, order[i]) < First(entries, order[j]))
  }

  lemma Snoc(entries: seq<EnvVar>, all: seq<EnvVar>, v: EnvVar, name: string)
    requires all == entries + [v]
    ensures Named(entries, name) ==> First(all, name) == First(entries, name)
    ensures !Named(entries, name) ==> First(all, name) == if name == v.name then |entries| else |all|
    ensures Last(all, name) == if name == v.name then |entries| else Last(entries, name)
  {
    assert all[|entries|] == v && all[..|entries|] == entries;
    assert forall i :: 0 <= i < |entries| ==> all[i] == entries[i];
    FirstExact(entries, name);
    FirstExact(all, name);
  }

  lemma FilledSnoc(entries: seq<EnvVar>, all: seq<EnvVar>, order: seq<string>, byName: map<string, EnvVar>, v: EnvVar)
    requires Filled(entries, order, byName) && all == entries + [v]
    ensures Filled(all, if v.name in byName then order else order + [v.name], byName[v.name := v])
  {
    var order', byName' := if v.name in byName then order else order + [v.name], byName[v.name := v];
    forall name ensures name in byName' <==> Named(all, name) {
      Snoc(entries, all, v, name);
    }
    forall name | name in byName' ensures byName'[name].name == name && LastValue(all, byName'[name]) {
      Snoc(entries, all, v, name);
    }
    forall i, j | 0 <= i < j < |order'| ensures First(all, order'[i]) < First(all, order'[j]) {
      assert order[i] in order;
      assert j < |order| ==> order[j] in order;
      Snoc(entries, all, v, order'[i]);
      Snoc(entries, all, v, order'[j]);
    }
  }

  function Values(order: seq<string>, byName: map<string, EnvVar>): (out: seq<EnvVar>)
    requires forall name :: name in order ==> name in byName
    ensures |out| == |order| && forall i :: 0 <= i < |out| ==> out[i] == byName[order[i]]
  {
    seq(|order|, i requires 0 <= i < |order| => byName[order[i]])
  }

  lemma FilledList(entries: seq<EnvVar>, order: seq<string>, byName: map<string, EnvVar>)
    requires Filled(entries, order, byName)
    ensures Deduped(entries, Values(order, byName))
  {
    var out := Values(order, byName);
    forall i | 0 <= i < |out|
      ensures LastValue(entries, out[i]) && out[i].name == order[i] && Named(entries, out[i].name)
    {
      assert order[i] in order;
    }
    forall name ensures Named(out, name) <==> Named(entries, name) {
      if name in order {
        var i :| 0 <= i < |order| && order[i] == name;
        assert out[i].name == name;
      }
      FirstExact(out, name);
    }
  }

  /** Collapses repeated names. */
  method DedupeEnvVars(entries: seq<EnvVar>) returns (out: seq<EnvVar>)
    ensures Deduped(entries, out)
  {
    var order: seq<string> := [];
    var byName: map<string, EnvVar> := map[];
    for k := 0 to |entries|
      invariant Filled(entries[..k], order, byName)
    {
      var v := entries[k];
      FilledSnoc(entries[..k], entries[..k+1], order, byName, v);
      if v.name !in byName {
        order := order + [v.name];
      }
      byName := byName[v.name := v];
    }
    assert entries[..|entries|] == entries;
    FilledList(entries, order, byName);
    out := Values(order, byName);
  }

  // ---------------------------------------------------------------------------- the result is determined

  /** What stands at place `k` of one result stands at the same place of the other, once they agree
      before it. */
  lemma SameNameAt(entries: seq<EnvVar>, a: seq<EnvVar>, b: seq<EnvVar>, k: nat)
    requires Deduped(entries, a) && Deduped(entries, b) && k < |a|
    requires k <= |b| && forall i :: 0 <= i < k ==> a[i].name == b[i].name
    ensures k < |b| && First(entries, b[k].name) <= First(entries, a[k].name)
  {
    FirstExact(a, a[k].name);
    assert Named(a, a[k].name);
    var j := First(b, a[k].name);
    FirstExact(b, a[k].name);
    assert j < |b| && b[j].name == a[k].name;
    assert forall i :: 0 <= i < k ==> First(entries, a[i].name) < First(entries, a[k].name);
  }

  lemma {:induction false} SameNames(entries: seq<EnvVar>, a: seq<EnvVar>, b: seq<EnvVar>, n: nat)
    requires Deduped(entries, a) && Deduped(entries, b) && n <= |a|
    ensures n <= |b| && forall i :: 0 <= i < n ==> a[i].name == b[i].name
  {
    if n > 0 {
      SameNames(entries, a, b, n - 1);
      SameNameAt(entries, a, b, n - 1);
      SameNameAt(entries, b, a, n - 1);
      FirstTells(entries, a[n-1], b[n-1]);
    }
  }

  lemma FirstTells(entries: seq<EnvVar>, v: EnvVar, w: EnvVar)
    requires LastValue(entries, v) && LastValue(entries, w) && First(entries, v.name) == First(entries, w.name)
    ensures v == w
  {
    FirstExact(entries, v.name);
    FirstExact(entries, w.name);
    LastExact(entries, v.name);
    LastExact(entries, w.name);
  }

  /** Order, names and values together leave nothing open. */
  lemma DedupedUnique(entries: seq<EnvVar>, a: seq<EnvVar>, b: seq<EnvVar>)
    requires Deduped(entries, a) && Deduped(entries, b)
    ensures a == b
  {
    SameNames(entries, a, b, |a|);
    SameNames(entries, b, a, |b|);
    forall i | 0 <= i < |a| ensures a[i] == b[i] {
      FirstTells(entries, a[i], b[i]);
    }
  }
}
