/** The `sessions` table and the operations the persistence layer performs on it.
    Rows are kept in creation order. One operation is one SQL statement, so it either
    replaces, appends or removes one row, or leaves the table as it was. */
module SessionTable {
  import opened Common

  datatype State = Idle | Ready

  datatype DriverType = PTY | DOCKER

  datatype RunnerMode = Commanded | ByPassed | UnknownMode(text: string)

  datatype Command = Command(cmd: string, args: seq<string>)

  /** Driver parameters as handed to the persistence layer. `fieldsOk` stands for the field rules
      of the container library's own parameter structure. */
  datatype Params =
    | PtyParams(rows: nat, cols: nat)
    | DockerParams(networkMode: string, publishedPorts: nat, fieldsOk: bool)
    | OtherParams

  datatype Session = Session(
    id: string,
    name: string,
    description: Option<string>,
    command: Command,
    state: State,
    driver: DriverType,
    metadata: Params,
    workspace: Option<string>,
    capacity: int,
    mode: RunnerMode)

  type Table = seq<Session>

  datatype DbError = NotFound | Validation | Consistency | Persistence

  type Outcome = Result<(), DbError>

  /** Which SQL statement of an operation fails, if any. */
  datatype Faults = Faults(read: bool, write: bool)

  const MinCapacity: int := 16384

  // ---------------------------------------------------------------------------- validation

  predicate IsAlnum(c: char) {
    'a' <= c <= 'z' || 'A' <= c <= 'Z' || '0' <= c <= '9'
  }

  predicate SessionNameOk(s: string) {
    s != "" && forall c :: c in s ==> IsAlnum(c) || c == '-'
  }

  predicate WorkspaceNameOk(s: string) {
    s != "" && forall c :: c in s ==> IsAlnum(c) || c == '-' || c == '_'
  }

  predicate EntryOk(e: Session) {
    && e.id != ""
    && SessionNameOk(e.name)
    && e.command.cmd != ""
    && (e.workspace.Some? ==> WorkspaceNameOk(e.workspace.value) && e.driver == DOCKER)
    && e.capacity >= MinCapacity
    && !e.mode.UnknownMode?
  }

  function DriverOf(p: Params): Option<DriverType> {
    match p
    case PtyParams(_, _) => Some(PTY)
    case DockerParams(_, _, _) => Some(DOCKER)
    case OtherParams => None
  }

  /** "" selects the library's default network mode, which is "none". */
  predicate ParamsOk(p: Params) {
    match p
    case PtyParams(rows, cols) => 30 <= rows < 0x1_0000 && 80 <= cols < 0x1_0000
    case DockerParams(mode, ports, fieldsOk) => fieldsOk && (ports > 0 ==> mode != "" && mode != "none")
    case OtherParams => false
  }

  // ---------------------------------------------------------------------------- the table

  predicate UniqueIds(t: Table) {
    forall i, j :: 0 <= i < j < |t| ==> t[i].id != t[j].id
  }

  predicate UniqueNames(t: Table) {
    forall i, j :: 0 <= i < j < |t| ==> t[i].name != t[j].name
  }

  predicate RowOk(e: Session) {
    EntryOk(e) && ParamsOk(e.metadata) && DriverOf(e.metadata) == Some(e.driver)
  }

  /** What the schema and the validators together are meant to maintain. */
  predicate TableInv(t: Table) {
    UniqueIds(t) && UniqueNames(t) && forall i :: 0 <= i < |t| ==> RowOk(t[i])
  }

  function AllIdle(t: Table): (r: Table)
    ensures |r| == |t|
  {
    seq(|t|, i requires 0 <= i < |t| => t[i].(state := Idle))
  }

  /** Index of the row with this name, or |t|. */
  function Find(t: Table, name: string): (i: nat)
    ensures i <= |t|
    ensures i < |t| ==> t[i].name == name
    ensures forall k :: 0 <= k < i ==> t[k].name != name
  {
    if t == [] then 0
    else if t[0].name == name then 0
    else 1 + Find(t[1..], name)
  }

  datatype Op =
    | Define(id: string, name: string, description: Option<string>, command: Command,
             capacity: int, params: Params, workspace: Option<string>)
    | SetState(name: string, state: State)
    | SetCapacity(name: string, capacity: int)
    | SetMode(name: string, mode: RunnerMode)
    | SetCommand(name: string, command: Command)
    | SetDriver(name: string, params: Params)
    | Rename(name: string, newName: string)
    | SetDescription(name: string, description: Option<string>)
    | SetWorkspace(name: string, workspace: Option<string>)
    | Delete(name: string)

  predicate IdleOnly(op: Op) {
    op.SetCapacity? || op.SetMode? || op.SetCommand? || op.SetDriver? || op.SetWorkspace? || op.Delete?
  }

  predicate Validated(op: Op) {
    op.SetCapacity? || op.SetMode? || op.SetCommand? || op.SetDriver? || op.Rename? || op.SetWorkspace?
  }

  /** The row an update writes, given the row it read. */
  function Edited(e: Session, op: Op): Session {
    match op
    case SetState(_, s) => e.(state := s)
    case SetCapacity(_, c) => e.(capacity := c)
    case SetMode(_, m) => e.(mode := m)
    case SetCommand(_, c) => e.(command := c)
    case SetDriver(_, p) =>
      if DriverOf(p) == Some(DOCKER) then e.(driver := DOCKER, metadata := p)
      else e.(driver := PTY, metadata := p, workspace := None)
    case Rename(_, n) => e.(name := n)
    case SetDescription(_, d) => e.(description := d)
    case SetWorkspace(_, w) => e.(workspace := w)
    case _ => e
  }

  function NewRow(op: Op): Session
    requires op.Define?
  {
    Session(op.id, op.name, op.description, op.command, Idle,
            if DriverOf(op.params) == Some(DOCKER) then DOCKER else PTY, op.params,
            op.workspace, op.capacity, Commanded)
  }

  /** Reference semantics of every operation. */
  function Apply(t: Table, op: Op, f: Faults): (Table, Outcome) {
    if op.Define? then
      if !ParamsOk(op.params) || !EntryOk(NewRow(op)) then (t, Err(Validation))
      else if f.write || exists k :: 0 <= k < |t| && (t[k].id == op.id || t[k].name == op.name)
        then (t, Err(Persistence))
      else (t + [NewRow(op)], Ok(()))
    else
      var i := Find(t, op.name);
      if f.read then (t, Err(Persistence))
      else if i == |t| then (t, Err(NotFound))
      else if IdleOnly(op) && t[i].state != Idle then (t, Err(Consistency))
      else if op.SetDriver? && !ParamsOk(op.params) then (t, Err(Validation))
      else if Validated(op) && !EntryOk(Edited(t[i], op)) then (t, Err(Validation))
      else if f.write then (t, Err(Persistence))
      else if op.Delete? then (t[..i] + t[i+1..], Ok(()))
      else if op.Rename? && exists k :: 0 <= k < |t| && k != i && t[k].name == op.newName
        then (t, Err(Persistence))
      else (t[i := Edited(t[i], op)], Ok(()))
  }

  type History = seq<(Op, Faults)>

  function ApplyAll(t: Table, h: History): Table
    decreases |h|
  {
    if h == [] then t else ApplyAll(Apply(t, h[0].0, h[0].1).0, h[1..])
  }

  // ---------------------------------------------------------------------------- properties

  lemma EditedRowOk(e: Session, op: Op)
    requires RowOk(e)
    requires op.SetDriver? ==> ParamsOk(op.params)
    requires Validated(op) ==> EntryOk(Edited(e, op))
    ensures RowOk(Edited(e, op))
  {
  }

  lemma ReplaceKeepsInv(t: Table, i: nat, e: Session)
    requires TableInv(t) && i < |t| && RowOk(e) && e.id == t[i].id
    requires forall k :: 0 <= k < |t| && k != i ==> t[k].name != e.name
    ensures TableInv(t[i := e])
  {
  }

  lemma AppendKeepsInv(t: Table, e: Session)
    requires TableInv(t) && RowOk(e)
    requires forall k :: 0 <= k < |t| ==> t[k].name != e.name && t[k].id != e.id
    ensures TableInv(t + [e])
  {
  }

  lemma RemoveKeepsInv(t: Table, i: nat)
    requires TableInv(t) && i < |t|
    ensures TableInv(t[..i] + t[i+1..])
  {
  }

  lemma ApplyKeepsInv(t: Table, op: Op, f: Faults)
    requires TableInv(t)
    ensures TableInv(Apply(t, op, f).0)
  {
    var t' := Apply(t, op, f).0;
    if t' != t {
      if op.Define? {
        AppendKeepsInv(t, NewRow(op));
      } else {
        var i := Find(t, op.name);
        if op.Delete? {
          RemoveKeepsInv(t, i);
        } else {
          EditedRowOk(t[i], op);
          ReplaceKeepsInv(t, i, Edited(t[i], op));
        }
      }
    }
  }

  /** Every sequence of operations and statement failures keeps the table well formed. */
  lemma {:induction false} HistoryKeepsInv(t: Table, h: History)
    requires TableInv(t)
    ensures TableInv(ApplyAll(t, h))
    decreases |h|
  {
    if h != [] {
      ApplyKeepsInv(t, h[0].0, h[0].1);
      HistoryKeepsInv(Apply(t, h[0].0, h[0].1).0, h[1..]);
    }
  }

  /** Equal apart from the state and the two labels. */
  predicate SameRun(a: Session, b: Session) {
    b == a.(state := b.state, name := b.name, description := b.description)
  }

  /** A failed operation leaves the whole table alone. A row the operation does not address is
      kept as it is; a READY row it does address survives, and only its state, name or
      description can change. */
  lemma RowFrame(t: Table, op: Op, f: Faults, i: nat)
    requires TableInv(t) && i < |t|
    ensures var (t', r) := Apply(t, op, f);
            && (r.Err? ==> t' == t)
            && (op.Define? || op.name != t[i].name ==> t[i] in t')
            && (t[i].state == Ready ==> exists k :: 0 <= k < |t'| && SameRun(t[i], t'[k]))
  {
    var (t', r) := Apply(t, op, f);
    if op.Define? || t' == t {
      assert t'[i] == t[i];
    } else {
      var k := Find(t, op.name);
      if op.Delete? {
        if i < k { assert t'[i] == t[i]; }
        if i > k { assert t'[i-1] == t[i]; }
      } else {
        assert SameRun(t[i], t'[i]) || i == k;
        if i == k && t[i].state == Ready { assert SameRun(t[i], t'[i]); }
      }
    }
  }

  /** Every operation guarded by the IDLE check fails on a READY row, whatever its arguments,
      unless the fetch itself fails first; that is the only source of a consistency error. */
  lemma ConsistencyErrorExact(t: Table, op: Op, f: Faults)
    requires TableInv(t)
    ensures Apply(t, op, f).1 == Err(Consistency) <==>
            !op.Define? && !f.read && IdleOnly(op) &&
            exists k :: 0 <= k < |t| && t[k].name == op.name && t[k].state == Ready
  {
    if !op.Define? {
      var i := Find(t, op.name);
      forall k | 0 <= k < |t| && t[k].name == op.name ensures k == i {
        assert i <= k;
      }
    }
  }

  /** Where each row of the new table came from. */
  lemma ApplyProvenance(t: Table, op: Op, f: Faults, k: nat)
    requires TableInv(t) && k < |Apply(t, op, f).0|
    ensures var t' := Apply(t, op, f).0;
            (op.Define? && k == |t| && t'[k].id == op.id && t'[k].state == Idle)
            || exists j :: 0 <= j < |t| && t'[k].id == t[j].id &&
                           (t'[k].name == t[j].name || (op.Rename? && op.name == t[j].name && t'[k].name == op.newName))
  {
    var t' := Apply(t, op, f).0;
    if t' == t {
      assert t'[k].id == t[k].id;
    } else if op.Define? {
      if k < |t| { assert t'[k] == t[k]; }
    } else {
      var i := Find(t, op.name);
      if op.Delete? {
        assert t' == t[..i] + t[i+1..];
        var j := if k < i then k else k + 1;
        assert t'[k] == t[j];
      } else {
        assert t' == t[i := Edited(t[i], op)];
        assert t'[k].id == t[k].id;
      }
    }
  }

  lemma FindUnique(t: Table, name: string, i: nat)
    requires UniqueNames(t) && i < |t| && t[i].name == name
    ensures Find(t, name) == i
  {
  }

  /** A state change finds its row and writes one column, or does nothing. */
  lemma SetStateExact(t: Table, name: string, s: State, f: Faults)
    ensures var (t', r) := Apply(t, SetState(name, s), f);
            var i := Find(t, name);
            && (r.Ok? <==> !f.read && !f.write && i < |t|)
            && (r.Ok? ==> t' == t[i := t[i].(state := s)])
            && (r.Err? ==> t' == t)
  {
  }

  lemma FindMarked(t: Table, i: nat, s: State)
    requires UniqueNames(t) && i < |t|
    ensures Find(t[i := t[i].(state := s)], t[i].name) == i
  {
    FindUnique(t[i := t[i].(state := s)], t[i].name, i);
  }

  // ---------------------------------------------------------------------------- imperative form

  /** The persistence handle: one method per operation, each updating `rows`. */
  class Database {
    var rows: Table

    constructor (initial: Table)
      ensures rows == initial
    {
      rows := initial;
    }

    method GetEntryByName(name: string, readFails: bool) returns (i: nat, r: Outcome)
      ensures r == if readFails then Err(Persistence)
                   else if Find(rows, name) == |rows| then Err(NotFound) else Ok(())
      ensures r.Ok? ==> i < |rows| && i == Find(rows, name)
    {
      i := 0;
      if readFails {
        return 0, Err(Persistence);
      }
      while i < |rows| && rows[i].name != name
        invariant 0 <= i <= |rows|
        invariant forall k :: 0 <= k < i ==> rows[k].name != name
      {
        i := i + 1;
      }
      assert Find(rows, name) == i;
      r := if i == |rows| then Err(NotFound) else Ok(());
    }

    method DefineNewSession(id: string, name: string, description: Option<string>, command: Command,
                            capacity: int, params: Params, workspace: Option<string>, f: Faults)
      returns (r: Outcome)
      modifies this
      ensures (rows, r) == Apply(old(rows), Define(id, name, description, command, capacity, params, workspace), f)
    {
      var driverType;
      match params {
        case PtyParams(_, _) => driverType := PTY;
        case DockerParams(_, _, _) => driverType := DOCKER;
        case OtherParams => return Err(Validation);
      }
      if !ParamsOk(params) {
        return Err(Validation);
      }
      var newEntry := Session(id, name, description, command, Idle, driverType, params, workspace, capacity, Commanded);
      if !EntryOk(newEntry) {
        return Err(Validation);
      }
      if f.write || exists k :: 0 <= k < |rows| && (rows[k].id == id || rows[k].name == name) {
        return Err(Persistence);
      }
      rows := rows + [newEntry];
      return Ok(());
    }

    method UpdateSessionState(name: string, newState: State, f: Faults) returns (r: Outcome)
      modifies this
      ensures (rows, r) == Apply(old(rows), SetState(name, newState), f)
    {
      var i; i, r := GetEntryByName(name, f.read);
      if r.Err? { return; }
      // both states may move to both states
      if f.write { return Err(Persistence); }
      rows := rows[i := rows[i].(state := newState)];
    }

    method UpdateSessionOutputBufCapacity(name: string, newCap: int, f: Faults) returns (r: Outcome)
      modifies this
      ensures (rows, r) == Apply(old(rows), SetCapacity(name, newCap), f)
    {
      var i; i, r := GetEntryByName(name, f.read);
      if r.Err? { return; }
      if rows[i].state != Idle { return Err(Consistency); }
      var entry := rows[i].(capacity := newCap);
      if !EntryOk(entry) { return Err(Validation); }
      if f.write { return Err(Persistence); }
      rows := rows[i := rows[i].(capacity := newCap)];
    }

    method UpdateSessionRunMode(name: string, newMode: RunnerMode, f: Faults) returns (r: Outcome)
      modifies this
      ensures (rows, r) == Apply(old(rows), SetMode(name, newMode), f)
    {
      var i; i, r := GetEntryByName(name, f.read);
      if r.Err? { return; }
      if rows[i].state != Idle { return Err(Consistency); }
      var entry := rows[i].(mode := newMode);
      if !EntryOk(entry) { return Err(Validation); }
      if f.write { return Err(Persistence); }
      rows := rows[i := rows[i].(mode := newMode)];
    }

    method UpdateSessionCommand(name: string, newCommand: Command, f: Faults) returns (r: Outcome)
      modifies this
      ensures (rows, r) == Apply(old(rows), SetCommand(name, newCommand), f)
    {
      var i; i, r := GetEntryByName(name, f.read);
      if r.Err? { return; }
      if rows[i].state != Idle { return Err(Consistency); }
      var entry := rows[i].(command := newCommand);
      if !EntryOk(entry) { return Err(Validation); }
      if f.write { return Err(Persistence); }
      rows := rows[i := rows[i].(command := newCommand)];
    }

    method UpdateSessionDriver(name: string, params: Params, f: Faults) returns (r: Outcome)
      modifies this
      ensures (rows, r) == Apply(old(rows), SetDriver(name, params), f)
    {
      var i; i, r := GetEntryByName(name, f.read);
      if r.Err? { return; }
      if rows[i].state != Idle { return Err(Consistency); }
      var driverType;
      match params {
        case PtyParams(_, _) => driverType := PTY;
        case DockerParams(_, _, _) => driverType := DOCKER;
        case OtherParams => return Err(Validation);
      }
      if !ParamsOk(params) { return Err(Validation); }
      var entry := rows[i].(driver := driverType, metadata := params);
      // moving off DOCKER drops the workspace before the entry is validated
      if driverType != DOCKER {
        entry := entry.(workspace := None);
      }
      if !EntryOk(entry) { return Err(Validation); }
      if f.write { return Err(Persistence); }
      rows := rows[i := entry];
    }

    method UpdateSessionName(name: string, newName: string, f: Faults) returns (r: Outcome)
      modifies this
      ensures (rows, r) == Apply(old(rows), Rename(name, newName), f)
    {
      var i; i, r := GetEntryByName(name, f.read);
      if r.Err? { return; }
      var entry := rows[i].(name := newName);
      if !EntryOk(entry) { return Err(Validation); }
      if f.write || exists k :: 0 <= k < |rows| && k != i && rows[k].name == newName {
        return Err(Persistence);
      }
      rows := rows[i := entry];
    }

    method UpdateSessionDescription(name: string, newDescription: Option<string>, f: Faults) returns (r: Outcome)
      modifies this
      ensures (rows, r) == Apply(old(rows), SetDescription(name, newDescription), f)
    {
      var i; i, r := GetEntryByName(name, f.read);
      if r.Err? { return; }
      if f.write { return Err(Persistence); }
      rows := rows[i := rows[i].(description := newDescription)];
    }

    method UpdateSessionWorkspaceName(name: string, newWorkspace: Option<string>, f: Faults) returns (r: Outcome)
      modifies this
      ensures (rows, r) == Apply(old(rows), SetWorkspace(name, newWorkspace), f)
    {
      var i; i, r := GetEntryByName(name, f.read);
      if r.Err? { return; }
      if rows[i].state != Idle { return Err(Consistency); }
      var entry := rows[i].(workspace := newWorkspace);
      if !EntryOk(entry) { return Err(Validation); }
      if f.write { return Err(Persistence); }
      rows := rows[i := rows[i].(workspace := newWorkspace)];
    }

    method DeleteSession(name: string, f: Faults) returns (r: Outcome)
      modifies this
      ensures (rows, r) == Apply(old(rows), Delete(name), f)
    {
      var i; i, r := GetEntryByName(name, f.read);
      if r.Err? { return; }
      if rows[i].state != Idle { return Err(Consistency); }
      if f.write { return Err(Persistence); }
      rows := rows[..i] + rows[i+1..];
    }
  }
}
