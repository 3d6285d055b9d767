/** Changing a session's output buffer capacity touches two stores that share no transaction: the
    ring buffer store and the session record. The buffer is dropped first, the record updated
    second, and the buffer comes back lazily at whatever capacity the record shows. */
module CapacityChange {
  import opened Common
  import opened SessionTable

  /** `buffers`: the output ring buffers that exist, by session id, with their capacity. */
  datatype Stores = Stores(table: Table, buffers: map<string, int>)

  datatype CapacityFaults = CapacityFaults(read: bool, idle: Faults, drop: bool, update: Faults)

  /** Force a session READY without a runner back to IDLE; an IDLE one is left alone. */
  function ForcedIdle(t: Table, i: nat, f: Faults): (Table, Outcome)
    requires i < |t|
  {
    if t[i].state == Idle then (t, Ok(())) else Apply(t, SetState(t[i].name, Idle), f)
  }

  /** First half: the checks and the drop. The flag says whether the record is to be updated next. */
  function DropHalf(st: Stores, loaded: set<string>, name: string, f: CapacityFaults): (Stores, bool) {
    var i := Find(st.table, name);
    if f.read || i == |st.table| || name in loaded then (st, false)
    else
      var (t, r) := ForcedIdle(st.table, i, f.idle);
      if r.Err? || f.drop then (st.(table := t), false)
      else (Stores(t, st.buffers - {st.table[i].id}), true)
  }

  function RecordHalf(st: Stores, name: string, newCap: int, f: Faults): (Stores, bool) {
    var (t, r) := Apply(st.table, SetCapacity(name, newCap), f);
    (st.(table := t), r.Ok?)
  }

  function Change(st: Stores, loaded: set<string>, name: string, newCap: int, f: CapacityFaults): (Stores, bool) {
    var (st', proceed) := DropHalf(st, loaded, name, f);
    if proceed then RecordHalf(st', name, newCap, f.update) else (st', false)
  }

  /** What a read of the record tells a user of the buffer, to start a driver or to read output. */
  datatype Fetched = Fetched(id: string, capacity: int)

  /** Opening a buffer by what was fetched; it is made at that capacity unless it is there. */
  function Open(st: Stores, r: Fetched): Stores {
    if r.id in st.buffers then st else st.(buffers := st.buffers[r.id := r.capacity])
  }

  /** A buffer that exists has the size its record says. */
  predicate Agree(st: Stores) {
    forall k :: 0 <= k < |st.table| && st.table[k].id in st.buffers ==>
      st.buffers[st.table[k].id] == st.table[k].capacity
  }

  // ---------------------------------------------------------------------------- runs

  /** `pending`: the manager is between the two halves of this change. `inFlight`: what was fetched
      and may yet be opened. */
  datatype World = World(st: Stores, loaded: set<string>, pending: Option<(string, int)>, inFlight: set<Fetched>)

  datatype Move =
    | Edit(op: Op, f: Faults)
    | Fetch(name: string)
    | OpenBuffer(r: Fetched)
    | ForgetRead(r: Fetched)
    | Begin(name: string, newCap: int, cf: CapacityFaults)
    | Commit(f: Faults)
    | Load(name: string)
    | Unload(name: string)
    | Restart

  function Step(w: World, m: Move): World {
    match m
    case Edit(op, f) => if op.SetCapacity? then w else w.(st := w.st.(table := Apply(w.st.table, op, f).0))
    case Fetch(name) =>
      var i := Find(w.st.table, name);
      if i == |w.st.table| then w
      else w.(inFlight := w.inFlight + {Fetched(w.st.table[i].id, w.st.table[i].capacity)})
    case OpenBuffer(r) => if r in w.inFlight then w.(st := Open(w.st, r)) else w
    case ForgetRead(r) => w.(inFlight := w.inFlight - {r})
    case Begin(name, newCap, f) =>
      if w.pending.Some? then w
      else
        var (st, proceed) := DropHalf(w.st, w.loaded, name, f);
        w.(st := st, pending := if proceed then Some((name, newCap)) else None)
    case Commit(f) =>
      if w.pending.None? then w
      else w.(st := RecordHalf(w.st, w.pending.value.0, w.pending.value.1, f).0, pending := None)
    case Load(name) => if w.pending.Some? then w else w.(loaded := w.loaded + {name})
    case Unload(name) => if w.pending.Some? then w else w.(loaded := w.loaded - {name})
    case Restart => World(w.st, {}, None, {})
  }

  /** Reads in flight do not straddle a change. Between its halves nobody opens that session's buffer;
      when it commits, nobody still holds another capacity of that session; and no session takes
      over its name by a rename. A new session's generated id is unknown to buffers and reads. */
  predicate Quiet(w: World, m: Move) {
    && (w.pending.Some? ==>
          var i := Find(w.st.table, w.pending.value.0);
          && (i < |w.st.table| && m.OpenBuffer? ==> m.r.id != w.st.table[i].id)
          && (i < |w.st.table| && m.Commit? && RecordHalf(w.st, w.pending.value.0, w.pending.value.1, m.f).1 ==>
                forall r :: r in w.inFlight && r.id == w.st.table[i].id ==> r.capacity == w.pending.value.1)
          && (m.Edit? && m.op.Rename? ==> m.op.newName != w.pending.value.0))
    && (m.Edit? && m.op.Define? ==> m.op.id !in w.st.buffers && forall r :: r in w.inFlight ==> r.id != m.op.id)
  }

  /** Whoever is about to open a buffer knows the size the record says. */
  predicate ReadsAgree(w: World) {
    forall k, r :: 0 <= k < |w.st.table| && r in w.inFlight && r.id == w.st.table[k].id ==>
      r.capacity == w.st.table[k].capacity
  }

  predicate Good(w: World) {
    && TableInv(w.st.table) && Agree(w.st) && ReadsAgree(w)
    && (w.pending.Some? ==>
          var i := Find(w.st.table, w.pending.value.0);
          i < |w.st.table| ==> w.st.table[i].id !in w.st.buffers)
  }

  function Steps(w: World, ms: seq<Move>): World
    decreases |ms|
  {
    if ms == [] then w else Steps(Step(w, ms[0]), ms[1..])
  }

  predicate QuietRun(w: World, ms: seq<Move>)
    decreases |ms|
  {
    ms == [] || (Quiet(w, ms[0]) && QuietRun(Step(w, ms[0]), ms[1..]))
  }

  /** An edit of anything but the capacity. */
  lemma EditKeepsCapacity(t: Table, op: Op, f: Faults, k: nat)
    requires TableInv(t) && !op.SetCapacity? && k < |Apply(t, op, f).0|
    ensures var t' := Apply(t, op, f).0;
            (op.Define? && t'[k].id == op.id)
            || exists j :: 0 <= j < |t| && t'[k].id == t[j].id && t'[k].capacity == t[j].capacity
  {
    var t' := Apply(t, op, f).0;
    if t' == t {
      assert t'[k].id == t[k].id;
    } else if op.Define? {
      if k < |t| { assert t'[k] == t[k]; }
    } else {
      var i := Find(t, op.name);
      if op.Delete? {
        assert t' == t[..i] + t[i+1..];
        assert t'[k] == t[if k < i then k else k + 1];
      } else {
        assert t' == t[i := Edited(t[i], op)];
        assert t'[k].id == t[k].id && t'[k].capacity == t[k].capacity;
      }
    }
  }

  /** The row found under a name is the row found before, unless another took the name over. */
  lemma EditKeepsHolder(t: Table, op: Op, f: Faults, name: string)
    requires TableInv(t) && (op.Rename? ==> op.newName != name)
    ensures var t' := Apply(t, op, f).0;
            var i, i' := Find(t, name), Find(t', name);
            i' < |t'| ==> (op.Define? && t'[i'].id == op.id) || (i < |t| && t'[i'].id == t[i].id)
  {
    var t' := Apply(t, op, f).0;
    var i' := Find(t', name);
    if i' < |t'| {
      ApplyProvenance(t, op, f, i');
      forall j | 0 <= j < |t| && t[j].name == name ensures j == Find(t, name) {
        FindUnique(t, name, j);
      }
    }
  }

  lemma IdleKeepsPlaces(t: Table, i: nat, f: Faults, name: string)
    requires TableInv(t) && i < |t|
    ensures var (t', r) := ForcedIdle(t, i, f);
            && TableInv(t') && |t'| == |t| && Find(t', name) == Find(t, name)
            && (r.Ok? ==> t'[i].state == Idle)
            && forall k :: 0 <= k < |t| ==> t'[k].id == t[k].id && t'[k].capacity == t[k].capacity
  {
    var (t', r) := ForcedIdle(t, i, f);
    FindUnique(t, t[i].name, i);
    if t' != t {
      ApplyKeepsInv(t, SetState(t[i].name, Idle), f);
      assert t' == t[i := t[i].(state := Idle)];
      var k := Find(t, name);
      forall j | 0 <= j < k ensures t'[j].name != name {
        assert t'[j].name == t[j].name;
      }
      if k < |t| { FindUnique(t', name, k); }
    }
  }

  /** The same rows over fewer buffers. */
  lemma FewerBuffersAgree(st: Stores, t: Table, dropped: set<string>)
    requires Agree(st) && |t| == |st.table|
    requires forall k :: 0 <= k < |t| ==> t[k].id == st.table[k].id && t[k].capacity == st.table[k].capacity
    ensures Agree(Stores(t, st.buffers - dropped))
  {
  }

  lemma DropKeepsGood(st: Stores, loaded: set<string>, name: string, f: CapacityFaults)
    requires TableInv(st.table) && Agree(st)
    ensures var (st', proceed) := DropHalf(st, loaded, name, f);
            && TableInv(st'.table) && Agree(st')
            && |st'.table| == |st.table|
            && (proceed ==> && Find(st'.table, name) == Find(st.table, name) < |st.table|
                            && st'.table[Find(st.table, name)].id !in st'.buffers
                            && st'.table[Find(st.table, name)].state == Idle)
  {
    var i := Find(st.table, name);
    if i < |st.table| {
      IdleKeepsPlaces(st.table, i, f.idle, name);
      var t := ForcedIdle(st.table, i, f.idle).0;
      FewerBuffersAgree(st, t, {});
      FewerBuffersAgree(st, t, {st.table[i].id});
    }
  }

  lemma EditKeepsGood(w: World, op: Op, f: Faults)
    requires Good(w) && Quiet(w, Edit(op, f)) && !op.SetCapacity?
    ensures Good(Step(w, Edit(op, f)))
  {
    var w' := Step(w, Edit(op, f));
    ApplyKeepsInv(w.st.table, op, f);
    forall k | 0 <= k < |w'.st.table|
      ensures w'.st.table[k].id in w'.st.buffers ==> w'.st.buffers[w'.st.table[k].id] == w'.st.table[k].capacity
      ensures forall r :: r in w.inFlight && r.id == w'.st.table[k].id ==> r.capacity == w'.st.table[k].capacity
    {
      EditKeepsCapacity(w.st.table, op, f, k);
    }
    if w.pending.Some? { EditKeepsHolder(w.st.table, op, f, w.pending.value.0); }
  }

  lemma DropKeepsRows(st: Stores, loaded: set<string>, name: string, f: CapacityFaults)
    requires TableInv(st.table)
    ensures var st' := DropHalf(st, loaded, name, f).0;
            |st'.table| == |st.table| &&
            forall k :: 0 <= k < |st.table| ==>
              st'.table[k].id == st.table[k].id && st'.table[k].capacity == st.table[k].capacity
  {
    var i := Find(st.table, name);
    if i < |st.table| {
      IdleKeepsPlaces(st.table, i, f.idle, name);
    }
  }

  lemma StepKeepsGood(w: World, m: Move)
    requires Good(w) && Quiet(w, m)
    ensures Good(Step(w, m))
  {
    match m
    case Edit(op, f) => if !op.SetCapacity? { EditKeepsGood(w, op, f); }
    case Begin(name, newCap, f) => if w.pending.None? { BeginKeepsGood(w, name, newCap, f); }
    case Commit(f) => if w.pending.Some? { CommitKeepsGood(w, f); }
    case Fetch(name) => FetchKeepsGood(w, name);
    case _ =>
  }

  lemma FetchKeepsGood(w: World, name: string)
    requires Good(w)
    ensures Good(Step(w, Fetch(name)))
  {
    var i := Find(w.st.table, name);
    forall k | 0 <= k < |w.st.table| && i < |w.st.table| && w.st.table[k].id == w.st.table[i].id ensures k == i {
    }
  }

  lemma BeginKeepsGood(w: World, name: string, newCap: int, f: CapacityFaults)
    requires Good(w) && w.pending.None?
    ensures Good(Step(w, Begin(name, newCap, f)))
  {
    DropKeepsGood(w.st, w.loaded, name, f);
    DropKeepsRows(w.st, w.loaded, name, f);
  }

  lemma CommitKeepsGood(w: World, f: Faults)
    requires Good(w) && w.pending.Some? && Quiet(w, Commit(f))
    ensures Good(Step(w, Commit(f)))
  {
    var (name, newCap) := w.pending.value;
    var i := Find(w.st.table, name);
    ApplyKeepsInv(w.st.table, SetCapacity(name, newCap), f);
    var t := Apply(w.st.table, SetCapacity(name, newCap), f).0;
    if t != w.st.table {
      assert t == w.st.table[i := w.st.table[i].(capacity := newCap)];
    }
  }

  /** Main result: across any failures, retries and restarts, an output buffer is either absent or
      sized as the record says, as long as the two halves of a change are not intruded upon. */
  lemma {:induction false} BuffersAgree(w: World, ms: seq<Move>)
    requires Good(w) && QuietRun(w, ms)
    ensures Good(Steps(w, ms)) && Agree(Steps(w, ms).st)
    decreases |ms|
  {
    if ms != [] {
      StepKeepsGood(w, ms[0]);
      BuffersAgree(Step(w, ms[0]), ms[1..]);
    }
  }

  /** From any such state a failure-free change of an unloaded session goes through, and whoever
      fetches the record after it opens the buffer at the new capacity. */
  lemma RetryInstalls(w: World, name: string, newCap: int)
    requires Good(w) && w.pending.None? && name !in w.loaded && newCap >= MinCapacity
    requires Find(w.st.table, name) < |w.st.table|
    ensures var no := Faults(false, false);
            var (st, ok) := Change(w.st, w.loaded, name, newCap, CapacityFaults(false, no, false, no));
            var i := Find(w.st.table, name);
            && ok && |st.table| == |w.st.table|
            && st.table[i].capacity == newCap && st.table[i].id !in st.buffers
            && Find(st.table, name) == i
            && Open(st, Fetched(st.table[i].id, st.table[i].capacity)).buffers[st.table[i].id] == newCap
  {
    var no := Faults(false, false);
    var f := CapacityFaults(false, no, false, no);
    var i := Find(w.st.table, name);
    DropKeepsGood(w.st, w.loaded, name, f);
    DropGoesThrough(w.st, w.loaded, name);
    var mid := DropHalf(w.st, w.loaded, name, f).0;
    RecordGoesThrough(mid, name, newCap);
  }

  lemma DropGoesThrough(st: Stores, loaded: set<string>, name: string)
    requires TableInv(st.table) && name !in loaded && Find(st.table, name) < |st.table|
    ensures var no := Faults(false, false);
            DropHalf(st, loaded, name, CapacityFaults(false, no, false, no)).1
  {
  }

  lemma RecordGoesThrough(st: Stores, name: string, newCap: int)
    requires TableInv(st.table) && Find(st.table, name) < |st.table| && newCap >= MinCapacity
    requires st.table[Find(st.table, name)].state == Idle
    ensures var i := Find(st.table, name);
            RecordHalf(st, name, newCap, Faults(false, false)) ==
              (st.(table := st.table[i := st.table[i].(capacity := newCap)]), true)
            && Find(st.table[i := st.table[i].(capacity := newCap)], name) == i
  {
    var i := Find(st.table, name);
    assert RowOk(st.table[i]);
    FindUnique(st.table[i := st.table[i].(capacity := newCap)], name, i);
  }

  // ---------------------------------------------------------------------------- exactly when they agree

  /** After the record half the stores agree exactly if the session's buffer is absent or happens to
      have the new capacity already. */
  lemma CommitAgreesExact(st: Stores, name: string, newCap: int, f: Faults)
    requires TableInv(st.table) && Agree(st)
    requires RecordHalf(st, name, newCap, f).1
    ensures var i := Find(st.table, name);
            i < |st.table| &&
            (Agree(RecordHalf(st, name, newCap, f).0) <==>
             (st.table[i].id in st.buffers ==> st.buffers[st.table[i].id] == newCap))
  {
    var i := Find(st.table, name);
    var t := RecordHalf(st, name, newCap, f).0.table;
    assert t[i].id == st.table[i].id && t[i].capacity == newCap;
  }

  /** After an opening they agree exactly if the buffer was there, the session is gone, or what had
      been fetched is what the record says now. */
  lemma OpenAgreesExact(st: Stores, r: Fetched)
    requires TableInv(st.table) && Agree(st)
    ensures Agree(Open(st, r)) <==>
            || r.id in st.buffers
            || forall k :: 0 <= k < |st.table| && st.table[k].id == r.id ==> st.table[k].capacity == r.capacity
  {
    var st' := Open(st, r);
    if Agree(st') && r.id !in st.buffers {
      forall k | 0 <= k < |st.table| && st.table[k].id == r.id ensures st.table[k].capacity == r.capacity {
        assert st'.table[k].id in st'.buffers;
      }
    }
  }

  /** A move that is no opening by an outdated record and no commit over a buffer of another size. */
  predicate Harmless(w: World, m: Move) {
    match m
    case OpenBuffer(r) =>
      r in w.inFlight && r.id !in w.st.buffers ==>
        forall k :: 0 <= k < |w.st.table| && w.st.table[k].id == r.id ==> w.st.table[k].capacity == r.capacity
    case Commit(f) =>
      w.pending.Some? && RecordHalf(w.st, w.pending.value.0, w.pending.value.1, f).1 ==>
        var i := Find(w.st.table, w.pending.value.0);
        i < |w.st.table| && w.st.table[i].id in w.st.buffers ==> w.st.buffers[w.st.table[i].id] == w.pending.value.1
    case _ => true
  }

  /** Ids are generated: a new session's has no buffer. */
  predicate NewIds(w: World, ms: seq<Move>)
    decreases |ms|
  {
    ms == [] || ((ms[0].Edit? && ms[0].op.Define? ==> ms[0].op.id !in w.st.buffers) && NewIds(Step(w, ms[0]), ms[1..]))
  }

  predicate AlwaysAgrees(w: World, ms: seq<Move>)
    decreases |ms|
  {
    Agree(w.st) && (ms == [] || AlwaysAgrees(Step(w, ms[0]), ms[1..]))
  }

  predicate AllHarmless(w: World, ms: seq<Move>)
    decreases |ms|
  {
    ms == [] || (Harmless(w, ms[0]) && AllHarmless(Step(w, ms[0]), ms[1..]))
  }

  lemma StepAgreesExact(w: World, m: Move)
    requires TableInv(w.st.table) && Agree(w.st) && NewIds(w, [m])
    ensures TableInv(Step(w, m).st.table) && (Agree(Step(w, m).st) <==> Harmless(w, m))
  {
    match m
    case Edit(op, f) => if !op.SetCapacity? { EditAgrees(w.st, op, f); }
    case OpenBuffer(r) => OpenAgreesExact(w.st, r);
    case Begin(name, newCap, f) => if w.pending.None? { DropKeepsGood(w.st, w.loaded, name, f); }
    case Commit(f) =>
      if w.pending.Some? {
        var (name, newCap) := w.pending.value;
        ApplyKeepsInv(w.st.table, SetCapacity(name, newCap), f);
        if RecordHalf(w.st, name, newCap, f).1 { CommitAgreesExact(w.st, name, newCap, f); }
      }
    case _ =>
  }

  lemma EditAgrees(st: Stores, op: Op, f: Faults)
    requires TableInv(st.table) && Agree(st) && !op.SetCapacity? && (op.Define? ==> op.id !in st.buffers)
    ensures var t := Apply(st.table, op, f).0; TableInv(t) && Agree(st.(table := t))
  {
    ApplyKeepsInv(st.table, op, f);
    var t := Apply(st.table, op, f).0;
    forall k | 0 <= k < |t| && t[k].id in st.buffers ensures st.buffers[t[k].id] == t[k].capacity {
      EditKeepsCapacity(st.table, op, f, k);
    }
  }

  /** Exactly when the stores agree all along a run, whatever else happens in it: when no buffer is
      opened by an outdated record and no change is committed over a buffer of another size. */
  lemma {:induction false} AgreementExact(w: World, ms: seq<Move>)
    requires TableInv(w.st.table) && Agree(w.st) && NewIds(w, ms)
    ensures AlwaysAgrees(w, ms) <==> AllHarmless(w, ms)
    decreases |ms|
  {
    if ms != [] {
      StepAgreesExact(w, ms[0]);
      if Agree(Step(w, ms[0]).st) {
        AgreementExact(Step(w, ms[0]), ms[1..]);
      } else {
        assert !AlwaysAgrees(Step(w, ms[0]), ms[1..]);
      }
    }
  }

  // ---------------------------------------------------------------------------- two ways to break it

  /** The stores when a change is about to start, nothing else going on. */
  function Calm(st: Stores): World {
    World(st, {}, None, {})
  }

  const NoFaults: Faults := Faults(false, false)

  function Started(name: string, newCap: int): Move {
    Begin(name, newCap, CapacityFaults(false, NoFaults, false, NoFaults))
  }

  lemma BeginWorks(st: Stores, name: string, newCap: int, inFlight: set<Fetched>)
    requires TableInv(st.table) && Agree(st) && Find(st.table, name) < |st.table|
    ensures var w, i := Step(Calm(st).(inFlight := inFlight), Started(name, newCap)), Find(st.table, name);
            && w == w.(pending := Some((name, newCap)), inFlight := inFlight, loaded := {})
            && TableInv(w.st.table) && Agree(w.st) && |w.st.table| == |st.table| && Find(w.st.table, name) == i
            && w.st.table[i].id == st.table[i].id && st.table[i].id !in w.st.buffers
            && w.st.table[i].capacity == st.table[i].capacity
            && w.st.table[i].state == Idle
  {
    var f := CapacityFaults(false, NoFaults, false, NoFaults);
    DropKeepsGood(st, {}, name, f);
    DropGoesThrough(st, {}, name);
    DropKeepsRows(st, {}, name, f);
  }

  /** One output read inside the window is enough to break the agreement. */
  lemma ReadInWindowBreaks(st: Stores, name: string, newCap: int)
    requires TableInv(st.table) && Agree(st) && Find(st.table, name) < |st.table|
    requires newCap >= MinCapacity && newCap != st.table[Find(st.table, name)].capacity
    ensures var i := Find(st.table, name);
            var r := Fetched(st.table[i].id, st.table[i].capacity);
            !Agree(Steps(Calm(st), [Started(name, newCap), Fetch(name), OpenBuffer(r), Commit(NoFaults)]).st)
  {
    var i := Find(st.table, name);
    var r := Fetched(st.table[i].id, st.table[i].capacity);
    BeginWorks(st, name, newCap, {});
    var w1 := Step(Calm(st), Started(name, newCap));
    var w2 := Step(w1, Fetch(name));
    assert w2.inFlight == {r};
    var w3 := Step(w2, OpenBuffer(r));
    RecordGoesThrough(w3.st, name, newCap);
    assert w3.st.buffers[r.id] == r.capacity;
    OpenAgreesExact(w2.st, r);
    CommitAgreesExact(w3.st, name, newCap, NoFaults);
    Steps4(Calm(st), Started(name, newCap), Fetch(name), OpenBuffer(r), Commit(NoFaults));
  }

  /** So is a read that fetched the record before the window and opens the buffer after it, although
      nothing at all happens inside the window. */
  lemma StraddlingReadBreaks(st: Stores, name: string, newCap: int)
    requires TableInv(st.table) && Agree(st) && Find(st.table, name) < |st.table|
    requires newCap >= MinCapacity && newCap != st.table[Find(st.table, name)].capacity
    ensures var i := Find(st.table, name);
            var r := Fetched(st.table[i].id, st.table[i].capacity);
            !Agree(Steps(Calm(st), [Fetch(name), Started(name, newCap), Commit(NoFaults), OpenBuffer(r)]).st)
  {
    var i := Find(st.table, name);
    var r := Fetched(st.table[i].id, st.table[i].capacity);
    var w1 := Step(Calm(st), Fetch(name));
    assert w1 == Calm(st).(inFlight := {r});
    BeginWorks(st, name, newCap, {r});
    var w2 := Step(w1, Started(name, newCap));
    RecordGoesThrough(w2.st, name, newCap);
    var w3 := Step(w2, Commit(NoFaults));
    CommitAgreesExact(w2.st, name, newCap, NoFaults);
    ApplyKeepsInv(w2.st.table, SetCapacity(name, newCap), NoFaults);
    assert w3.st.table[i].id == r.id && w3.st.table[i].capacity == newCap && r.id !in w3.st.buffers;
    OpenAgreesExact(w3.st, r);
    Steps4(Calm(st), Fetch(name), Started(name, newCap), Commit(NoFaults), OpenBuffer(r));
  }

  lemma Steps4(w: World, a: Move, b: Move, c: Move, d: Move)
    ensures Steps(w, [a, b, c, d]) == Step(Step(Step(Step(w, a), b), c), d)
  {
    StepsCons(w, a, [b, c, d]);
    StepsCons(Step(w, a), b, [c, d]);
    StepsCons(Step(Step(w, a), b), c, [d]);
    StepsCons(Step(Step(Step(w, a), b), c), d, []);
  }

  lemma StepsCons(w: World, m: Move, rest: seq<Move>)
    ensures Steps(w, [m] + rest) == Steps(Step(w, m), rest)
  {
    assert ([m] + rest)[1..] == rest;
  }
}
