/** Messages, their JSON trees, and what the decoder accepts. */
module Messages {
  import opened Bytes
  import Numbers
  import opened Json
  import opened Lookup
  import Parser
  import RoundTrip

  datatype Message =
    | HardErrorValve(valveNo: int, text: Text)
    | HardErrorOther(text: Text)
    | SoftError(text: Text)
    | KeepAlive
    | Invalid

  /** What a C `Message` can hold: a 32-bit valve number and a C string. */
  predicate WellFormed(m: Message) {
    match m
    case HardErrorValve(n, t) => Numbers.INT_MIN <= n <= Numbers.INT_MAX && NulFree(t)
    case HardErrorOther(t) => NulFree(t)
    case SoftError(t) => NulFree(t)
    case _ => true
  }

  const MAX_ENCODED_LEN: nat := 300

  const VERSION: Text := Lit("version")
  const DATA: Text := Lit("data")
  const TYPE: Text := Lit("type")
  const MESSAGE: Text := Lit("message")
  const VALVE_NO: Text := Lit("valve_no")
  const HARD_ERROR_VALVE: Text := Lit("HARD_ERROR_VALVE")
  const HARD_ERROR_OTHER: Text := Lit("HARD_ERROR_OTHER")
  const SOFT_ERROR: Text := Lit("SOFT_ERROR")
  const SOFT_ERR: Text := Lit("SOFT_ERR")
  const KEEP_ALIVE: Text := Lit("KEEP_ALIVE")
  const FORMAT_VERSION: real := 2.0

  function TypeName(m: Message): Text
    requires !m.Invalid?
  {
    match m
    case HardErrorValve(_, _) => HARD_ERROR_VALVE
    case HardErrorOther(_) => HARD_ERROR_OTHER
    case SoftError(_) => SOFT_ERROR
    case KeepAlive => KEEP_ALIVE
  }

  function DataMembers(m: Message): Members {
    match m
    case HardErrorValve(n, t) => MCons(MESSAGE, Str(t), MCons(VALVE_NO, Num(n as real), MNil))
    case HardErrorOther(t) => MCons(MESSAGE, Str(t), MNil)
    case SoftError(t) => MCons(MESSAGE, Str(t), MNil)
    case _ => MNil
  }

  /** The tree a message is sent as. */
  function Tree(m: Message): Json
    requires !m.Invalid?
  {
    Obj(MCons(VERSION, Num(FORMAT_VERSION),
        MCons(DATA, Obj(DataMembers(m)),
        MCons(TYPE, Str(TypeName(m)), MNil))))
  }

  function Encoded(m: Message): Text
    requires !m.Invalid?
  {
    Render(Tree(m), false, 0)
  }

  // ---- Decoding ----

  predicate HasPrefix(t: Text, prefix: Text) {
    |prefix| <= |t| && t[..|prefix|] == prefix
  }

  /** The string member `name`, found without regard to letter case. */
  function StringItem(j: Json, name: Text): Option<Text> {
    var item := Item(j, name, false);
    if item.Some? && item.value.Str? then Some(item.value.s) else None
  }

  /** A printable message's text and type, given the name in its `type` field. */
  function DecodeData(kind: Text, data: Json): Option<Message> {
    if HasPrefix(kind, SOFT_ERR) then
      match StringItem(data, MESSAGE)
      case None => None
      case Some(t) => Some(SoftError(t))
    else if HasPrefix(kind, HARD_ERROR_OTHER) then
      match StringItem(data, MESSAGE)
      case None => None
      case Some(t) => Some(HardErrorOther(t))
    else if HasPrefix(kind, HARD_ERROR_VALVE) then
      match StringItem(data, MESSAGE)
      case None => None
      case Some(t) =>
        var valve := Item(data, VALVE_NO, false);
        if valve.Some? && valve.value.Num? then Some(HardErrorValve(Numbers.ValueInt(valve.value.v), t)) else None
    else if kind == KEEP_ALIVE then Some(KeepAlive)
    else None
  }

  function DecodeTree(root: Json): Option<Message> {
    var version := Item(root, VERSION, false);
    if version.None? || version.value != Num(FORMAT_VERSION) then None
    else
      var data := Item(root, DATA, false);
      var kind := StringItem(root, TYPE);
      if data.None? || kind.None? then None else DecodeData(kind.value, data.value)
  }

  /** `decode_message` on the bytes of a frame, which it reads up to the first NUL. */
  function Decode(frame: Text): Option<Message> {
    match Parser.Parse(CString(frame), false)
    case Fail(_) => None
    case Ok(root, _) => DecodeTree(root)
  }

  // ---- Decoding inverts encoding ----

  lemma NamesApart()
    ensures !SameKey(DATA, VERSION, false) && !SameKey(TYPE, VERSION, false) && !SameKey(TYPE, DATA, false)
    ensures !SameKey(VALVE_NO, MESSAGE, false)
    ensures !HasPrefix(HARD_ERROR_VALVE, SOFT_ERR) && !HasPrefix(HARD_ERROR_OTHER, SOFT_ERR)
    ensures !HasPrefix(KEEP_ALIVE, SOFT_ERR) && !HasPrefix(KEEP_ALIVE, HARD_ERROR_OTHER)
    ensures !HasPrefix(KEEP_ALIVE, HARD_ERROR_VALVE) && !HasPrefix(HARD_ERROR_VALVE, HARD_ERROR_OTHER)
    ensures HasPrefix(SOFT_ERROR, SOFT_ERR)
    ensures HasPrefix(HARD_ERROR_OTHER, HARD_ERROR_OTHER) && HasPrefix(HARD_ERROR_VALVE, HARD_ERROR_VALVE)
  {
    assert Folded(TYPE)[0] != Folded(DATA)[0];
    assert HARD_ERROR_VALVE[11] != HARD_ERROR_OTHER[11];
    assert HARD_ERROR_VALVE[0] != SOFT_ERR[0];
    assert HARD_ERROR_OTHER[0] != SOFT_ERR[0];
    assert KEEP_ALIVE[0] != SOFT_ERR[0];
  }

  lemma FindFirst(key: Text, value: Json, rest: Members)
    ensures Find(MCons(key, value, rest), key, false) == Some(value)
  {
  }

  lemma FindNext(key: Text, value: Json, rest: Members, name: Text)
    requires !SameKey(name, key, false)
    ensures Find(MCons(key, value, rest), name, false) == Find(rest, name, false)
  {
  }

  lemma DecodeOfData(m: Message)
    requires WellFormed(m) && !m.Invalid?
    ensures DecodeData(TypeName(m), Obj(DataMembers(m))) == Some(m)
  {
    NamesApart();
    hide SameKey, HasPrefix, Find;
    if !m.KeepAlive? {
      FindFirst(MESSAGE, Str(m.text), DataMembers(m).rest);
    }
    if m.HardErrorValve? {
      FindNext(MESSAGE, Str(m.text), DataMembers(m).rest, VALVE_NO);
      FindFirst(VALVE_NO, Num(m.valveNo as real), MNil);
      Numbers.ValueIntOfInt(m.valveNo);
    }
  }

  lemma DecodeOfTree(m: Message)
    requires WellFormed(m) && !m.Invalid?
    ensures DecodeTree(Tree(m)) == Some(m)
  {
    NamesApart();
    DecodeOfData(m);
    hide SameKey, HasPrefix, Find, DecodeData;
    var data, kind := Obj(DataMembers(m)), Str(TypeName(m));
    var last := MCons(TYPE, kind, MNil);
    FindFirst(VERSION, Num(FORMAT_VERSION), MCons(DATA, data, last));
    FindNext(VERSION, Num(FORMAT_VERSION), MCons(DATA, data, last), DATA);
    FindNext(VERSION, Num(FORMAT_VERSION), MCons(DATA, data, last), TYPE);
    FindFirst(DATA, data, last);
    FindNext(DATA, data, last, TYPE);
    FindFirst(TYPE, kind, MNil);
  }

  /** A flat member in front adds nothing to the height. */
  lemma FlatMember(key: Text, value: Json, rest: Members)
    requires NulFree(key) && Printable(value) && PrintableMembers(rest)
    ensures PrintableMembers(MCons(key, value, rest))
    ensures MembersHeight(MCons(key, value, rest)) == Max(Height(value), MembersHeight(rest))
  {
  }

  lemma TreePrintable(m: Message)
    requires WellFormed(m) && !m.Invalid?
    ensures Printable(Tree(m)) && Height(Tree(m)) == 2
  {
    DataPrintable(m);
    hide PrintableMembers, MembersHeight, DataMembers;
    var data, kind := Obj(DataMembers(m)), Str(TypeName(m));
    NothingPrintable();
    FlatMember(TYPE, kind, MNil);
    FlatMember(DATA, data, MCons(TYPE, kind, MNil));
    FlatMember(VERSION, Num(FORMAT_VERSION), MCons(DATA, data, MCons(TYPE, kind, MNil)));
  }

  lemma NothingPrintable()
    ensures PrintableMembers(MNil) && MembersHeight(MNil) == 0
  {
  }

  lemma DataPrintable(m: Message)
    requires WellFormed(m)
    ensures PrintableMembers(DataMembers(m)) && MembersHeight(DataMembers(m)) == 0
  {
    hide PrintableMembers, MembersHeight;
    NothingPrintable();
    match m
    case HardErrorValve(n, t) =>
      FlatMember(VALVE_NO, Num(n as real), MNil);
      FlatMember(MESSAGE, Str(t), MCons(VALVE_NO, Num(n as real), MNil));
    case HardErrorOther(t) => FlatMember(MESSAGE, Str(t), MNil);
    case SoftError(t) => FlatMember(MESSAGE, Str(t), MNil);
    case _ =>
  }

  /** Every well-formed message survives encoding and decoding. */
  lemma DecodeEncoded(m: Message)
    requires WellFormed(m) && !m.Invalid?
    ensures Decode(Encoded(m)) == Some(m)
  {
    hide Render, Parser.Parse, DecodeTree, CString;
    TreePrintable(m);
    RenderNulFree(Tree(m), false, 0);
    CStringOfNulFree(Encoded(m));
    RoundTrip.PrintParse(Tree(m), false, false);
    DecodeOfTree(m);
  }

  // ---- Whatever the decoder accepts is a message ----

  lemma {:induction false} FoundCString(members: Members, name: Text)
    requires CStringMembers(members) && Find(members, name, false).Some?
    ensures CStrings(Find(members, name, false).value)
  {
    if !SameKey(name, members.key, false) {
      FoundCString(members.rest, name);
    }
  }

  lemma ItemCString(j: Json, name: Text)
    requires CStrings(j) && Item(j, name, false).Some?
    ensures CStrings(Item(j, name, false).value)
  {
    FoundCString(j.members, name);
  }

  lemma ValueIntBounds(v: real)
    ensures Numbers.INT_MIN <= Numbers.ValueInt(v) <= Numbers.INT_MAX
  {
  }

  /** Any bytes that decode at all decode to a message with a C string and a 32-bit valve number. */
  lemma DecodedWellFormed(frame: Text)
    requires Decode(frame).Some?
    ensures WellFormed(Decode(frame).value) && !Decode(frame).value.Invalid?
  {
    Parser.ParsedTexts(CString(frame), false);
    hide Parser.Parse, CString, Find, HasPrefix, CStringMembers, Numbers.ValueInt;
    var root := Parser.Parse(CString(frame), false).value;
    ItemCString(root, DATA);
    var data := Item(root, DATA, false).value;
    if Item(data, MESSAGE, false).Some? {
      ItemCString(data, MESSAGE);
    }
    var valve := Item(data, VALVE_NO, false);
    if valve.Some? && valve.value.Num? {
      ValueIntBounds(valve.value.v);
    }
  }
}
