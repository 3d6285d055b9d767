/** Session input commands and the bytes they stand for on stdin. */
module Commands {
  import opened Common
  import Base64

  datatype CommandType = TEXT | CTRL | ENTER | RAW | Unknown(text: string)

  /** Content is the byte content of the Go string, or nil. */
  datatype InputCommand = InputCommand(kind: CommandType, content: Option<seq<byte>>)

  const CarriageReturn: byte := 0x0d

  predicate IsAsciiLetter(b: byte) {
    65 <= b <= 90 || 97 <= b <= 122
  }

  /** `b & 0x1f`. */
  function Folded(b: byte): byte {
    b % 32
  }

  predicate IsValid(c: InputCommand) {
    match c.kind
    case TEXT => c.content.Some?
    case CTRL => c.content.Some? && |c.content.value| == 1 && IsAsciiLetter(c.content.value[0])
    case ENTER => true
    case RAW => c.content.Some? && Base64.GoDecode(c.content.value).Some?
    case Unknown(_) => false
  }

  /** The bytes of one valid command. */
  function Bytes(c: InputCommand): seq<byte>
    requires IsValid(c)
  {
    match c.kind
    case TEXT => c.content.value
    case CTRL => [Folded(c.content.value[0])]
    case ENTER => [CarriageReturn]
    case RAW => Base64.GoDecode(c.content.value).value
  }

  predicate AllValid(cmds: seq<InputCommand>) {
    forall k :: 0 <= k < |cmds| ==> IsValid(cmds[k])
  }

  function Pieces(cmds: seq<InputCommand>): (p: seq<seq<byte>>)
    requires AllValid(cmds)
    ensures |p| == |cmds|
  {
    seq(|cmds|, i requires 0 <= i < |cmds| => Bytes(cmds[i]))
  }

  /** What a whole batch feeds to stdin. */
  function Encoding(cmds: seq<InputCommand>): seq<byte>
    requires AllValid(cmds)
  {
    Flatten(Pieces(cmds))
  }

  /** Batches sent one after the other feed what their concatenation feeds. */
  lemma EncodingAppend(a: seq<InputCommand>, b: seq<InputCommand>)
    requires AllValid(a) && AllValid(b)
    ensures AllValid(a + b) && Encoding(a + b) == Encoding(a) + Encoding(b)
  {
    assert Pieces(a + b) == Pieces(a) + Pieces(b);
    FlattenAppend(Pieces(a), Pieces(b));
  }

  lemma EncodingOne(c: InputCommand)
    requires IsValid(c)
    ensures Encoding([c]) == Bytes(c)
  {
    assert Pieces([c]) == [] + [Bytes(c)];
    FlattenSnoc([], Bytes(c));
  }

  /** Fails exactly when some command is invalid, naming the first; otherwise yields the encoding. */
  method BuildStdinInputFromCommands(cmds: seq<InputCommand>) returns (r: Result<seq<byte>, nat>)
    ensures r.Err? <==> !AllValid(cmds)
    ensures r.Err? ==> r.error < |cmds| && !IsValid(cmds[r.error]) && AllValid(cmds[..r.error])
    ensures r.Ok? ==> r.value == Encoding(cmds)
  {
    var buf: seq<byte> := [];
    assert cmds[..0] == [];
    for idx := 0 to |cmds|
      invariant AllValid(cmds[..idx])
      invariant buf == Encoding(cmds[..idx])
    {
      var cmd := cmds[idx];
      if !IsValid(cmd) {
        return Err(idx);
      }
      match cmd.kind {
        case TEXT => buf := buf + cmd.content.value;
        case CTRL => buf := buf + [Folded(cmd.content.value[0])];
        case ENTER => buf := buf + [CarriageReturn];
        case RAW => buf := buf + Base64.GoDecode(cmd.content.value).value;
      }
      EncodingAppend(cmds[..idx], [cmd]);
      EncodingOne(cmd);
      assert cmds[..idx+1] == cmds[..idx] + [cmd];
    }
    assert cmds[..|cmds|] == cmds;
    return Ok(buf);
  }

  /** A letter and its other case fold to the same control byte, between 1 and 26. */
  lemma CtrlFolds(upper: byte)
    requires 65 <= upper <= 90
    ensures var u, l := InputCommand(CTRL, Some([upper])), InputCommand(CTRL, Some([upper + 32]));
            IsValid(u) && IsValid(l) && Bytes(u) == Bytes(l) == [upper - 64] && 1 <= upper - 64 <= 26
  {
    assert (upper + 32) % 32 == upper % 32 == upper - 64;
  }

  /** Every byte string can be sent: a RAW command carrying its encoding yields exactly it. */
  lemma RawCarriesAnything(data: seq<byte>)
    ensures var c := InputCommand(RAW, Some(Base64.Encode(data)));
            IsValid(c) && Encoding([c]) == data
  {
    Base64.GoRoundTrip(data);
    EncodingOne(InputCommand(RAW, Some(Base64.Encode(data))));
  }
}
