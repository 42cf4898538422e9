/**
 The call-trace arena that `forge test --json` reports, and the per-node and per-log decoding of
 chain/foundry_trace.py. Hex text is represented by the bytes it denotes; a field of the wrong
 JSON type is represented by the case that the program rejects.
 */
module Arena {
  import opened Prelude
  import opened Abi

  // ---------------------------------------------------------------- untrusted input

  /** A JSON value used as a node or position reference: null, an integer, or anything else. */
  datatype Ref = Absent | Index(i: int) | Other

  /** A JSON field that should hold a list: a list, a falsy non-list, or a truthy non-list. */
  datatype Field<+T> = Items(items: seq<T>) | Falsy | Malformed

  /** One `ordering` entry, by the keys it carries. */
  datatype Entry = Entry(isStep: bool, call: Option<Ref>, log: Option<Ref>)

  datatype RawLog = RawLog(address: Option<Bytes>, topics: Option<seq<Option<Bytes>>>, data: Option<Bytes>)

  datatype CallTrace = CallTrace(
    kind: string, address: Option<Bytes>, caller: Option<Bytes>, data: Option<Bytes>,
    success: Option<bool>, depth: Option<nat>, gasUsed: Option<nat>)

  datatype Node = Node(
    idx: Option<int>, parent: Ref, trace: Option<CallTrace>,
    children: Field<Ref>, logs: Field<Option<RawLog>>, ordering: Option<seq<Entry>>)

  /** Event topics and cheatcode selectors are Keccak values and stay symbolic, as does the
      UTF-8 reading of string arguments. */
  datatype Config = Config(
    table: SelectorTable,
    assertionTopic: Bytes, controlTopic: Bytes, contextTopic: Bytes, economicTopic: Bytes, transferTopic: Bytes,
    utf8: Bytes -> string)

  const CHEATCODE_ADDRESS: Bytes := [
    0x71, 0x09, 0x70, 0x9e, 0xcf, 0xa9, 0x1a, 0x80, 0x62, 0x6f,
    0xf3, 0x98, 0x9d, 0x68, 0xf6, 0x7f, 0x5b, 0x1d, 0xd1, 0x2d]

  const CALL_KINDS: set<string> := {"call", "staticcall", "delegatecall", "callcode"}

  // ---------------------------------------------------------------- logs

  datatype EventBody =
    | AssertionChecked(id: string, kind: string, target: string, observed: int, expected: int, ok: bool)
    | ControlObserved(id: string, changed: bool)
    | AssertionContext(id: string, actor: Bytes, token: Bytes)
    | EconomicSnapshot(id: string, actor: Bytes, token: Bytes, nativeBefore: int, nativeAfter: int,
                       tokenBefore: int, tokenAfter: int, capital: int, protocolDelta: int)
    | Plain

  datatype LogRecord = LogRecord(address: Bytes, topics: seq<Bytes>, data: Bytes, reverted: bool, body: EventBody)

  datatype Transfer = Transfer(token: Bytes, from: Bytes, to: Bytes, amount: nat)

  /** The address, topics and data of a log: what Forge reports about it at test level. */
  datatype LogKey = LogKey(address: Bytes, topics: seq<Bytes>, data: Bytes)

  function KeyOf(record: LogRecord): LogKey {
    LogKey(record.address, record.topics, record.data)
  }

  function RightStrip(b: Bytes): Bytes {
    if b != [] && b[|b| - 1] == 0 then RightStrip(b[..|b| - 1]) else b
  }

  /** A bytes32 identifier read as ASCII when printable, and as hex text otherwise. */
  function Label(word: Bytes): string {
    var s := RightStrip(word);
    if s != [] && forall b :: b in s ==> 0x20 <= b <= 0x7E
    then seq(|s|, i requires 0 <= i < |s| => s[i] as char)
    else "0x" + HexText(word)
  }

  predicate OneIndexedWord(topics: seq<Bytes>) {
    |topics| == 2 && |topics[1]| == WORD
  }

  function DecodeAssertion(cfg: Config, topics: seq<Bytes>, data: Bytes): Result<EventBody> {
    if !OneIndexedWord(topics) then Reject
    else
      match Decode([String, String, Int(256), Int(256), Bool], data)
      case Reject => Reject
      case Ok(a) => Ok(AssertionChecked(Label(topics[1]), cfg.utf8(a[0].text), cfg.utf8(a[1].text), a[2].n, a[3].n, a[4].on))
  }

  function DecodeControl(topics: seq<Bytes>, data: Bytes): Result<EventBody> {
    if !OneIndexedWord(topics) then Reject
    else
      match Decode([Bool], data)
      case Reject => Reject
      case Ok(a) => Ok(ControlObserved(Label(topics[1]), a[0].on))
  }

  function DecodeContext(topics: seq<Bytes>, data: Bytes): Result<EventBody> {
    if !OneIndexedWord(topics) then Reject
    else
      match Decode([Address, Address], data)
      case Reject => Reject
      case Ok(a) => Ok(AssertionContext(Label(topics[1]), a[0].bytes, a[1].bytes))
  }

  function DecodeEconomic(topics: seq<Bytes>, data: Bytes): Result<EventBody> {
    if !OneIndexedWord(topics) then Reject
    else
      match Decode([Address, Address, Uint(256), Uint(256), Uint(256), Uint(256), Uint(256), Int(256)], data)
      case Reject => Reject
      case Ok(a) => Ok(EconomicSnapshot(Label(topics[1]), a[0].bytes, a[1].bytes, a[2].n, a[3].n, a[4].n, a[5].n, a[6].n, a[7].n))
  }

  /** The event a log's first topic announces, decoded in the program's order of tests. */
  function DecodeBody(cfg: Config, topics: seq<Bytes>, data: Bytes): Result<EventBody> {
    if topics == [] then Ok(Plain)
    else if topics[0] == cfg.assertionTopic then DecodeAssertion(cfg, topics, data)
    else if topics[0] == cfg.controlTopic then DecodeControl(topics, data)
    else if topics[0] == cfg.contextTopic then DecodeContext(topics, data)
    else if topics[0] == cfg.economicTopic then DecodeEconomic(topics, data)
    else Ok(Plain)
  }

  predicate KnownTopic(cfg: Config, topic: Bytes) {
    topic == cfg.assertionTopic || topic == cfg.controlTopic || topic == cfg.contextTopic || topic == cfg.economicTopic
  }

  /** ERC-20 shape: two indexed addresses and one 32-byte amount. */
  predicate TransferShape(topics: seq<Bytes>, data: Bytes) {
    && |topics| == 3 && |data| == WORD
    && (forall i :: 1 <= i < 3 ==> |topics[i]| >= 12 && AllZero(topics[i][..12]))
  }

  function DecodeTransfer(address: Bytes, topics: seq<Bytes>, data: Bytes): Option<Transfer> {
    if TransferShape(topics, data)
    then Some(Transfer(address, topics[1][12..], topics[2][12..], BigEndian(data)))
    else None
  }

  function AllPresent<T>(xs: seq<Option<T>>): Option<seq<T>> {
    if xs == [] then Some([])
    else
      match (xs[0], AllPresent(xs[1..]))
      case (Some(x), Some(rest)) => Some([x] + rest)
      case _ => None
  }

  /** Address, topics and data of an arena log, when they are well formed. */
  function ReadLog(entry: Option<RawLog>): Option<LogKey> {
    match entry
    case None => None
    case Some(raw) =>
      if raw.topics.None? || |raw.topics.value| > 4 || raw.address.None? || |raw.address.value| != 20 || raw.data.None?
      then None
      else
        match AllPresent(raw.topics.value)
        case None => None
        case Some(topics) => Some(LogKey(raw.address.value, topics, raw.data.value))
  }

  function ConvertLog(cfg: Config, entry: Option<RawLog>, reverted: bool): Result<(LogRecord, Option<Transfer>)> {
    match ReadLog(entry)
    case None => Reject
    case Some(k) =>
      match DecodeBody(cfg, k.topics, k.data)
      case Reject => Reject
      case Ok(body) =>
        var isTransfer := !reverted && k.topics != [] && !KnownTopic(cfg, k.topics[0]) && k.topics[0] == cfg.transferTopic;
        Ok((LogRecord(k.address, k.topics, k.data, reverted, body),
            if isTransfer then DecodeTransfer(k.address, k.topics, k.data) else None))
  }

  /** Whether a log converts does not depend on the inherited revert flag. */
  lemma {:induction false} LogAcceptanceIgnoresRevert(cfg: Config, entry: Option<RawLog>, a: bool, b: bool)
    ensures ConvertLog(cfg, entry, a).Ok? <==> ConvertLog(cfg, entry, b).Ok?
  {
  }

  // ---------------------------------------------------------------- frames

  datatype Cheat = Cheat(name: string, args: seq<AbiValue>, absolute: Option<AbiValue>)

  datatype FrameHead = FrameHead(
    depth: nat, kind: string, to: Bytes, caller: Bytes, phase: string, data: Bytes,
    selector: Option<Bytes>, gasUsed: nat, success: bool, cheat: Option<Cheat>)

  function SelectorOf(kind: string, data: Bytes): Option<Bytes> {
    if kind in CALL_KINDS && |data| >= 4 then Some(data[..4]) else None
  }

  function OpenCheat(cfg: Config, data: Bytes): Result<Cheat> {
    match DecodeCheatcode(cfg.table, data)
    case Reject => Reject
    case Ok(d) =>
      var args := if d.args.Some? then d.args.value else [];
      if d.name == "warp" || d.name == "roll" then
        if args == [] then Reject else Ok(Cheat(d.name, args, Some(args[0])))
      else Ok(Cheat(d.name, args, None))
  }

  /** The frame fields that opening a node computes, before any log or child is attached. */
  function OpenHead(cfg: Config, phase: string, node: Node): (r: Result<FrameHead>)
    ensures r.Ok? ==> node.trace.Some? && node.trace.value.address == Some(r.value.to)
    ensures r.Ok? ==> node.trace.value.success == Some(r.value.success) && r.value.phase == phase
  {
    match node.trace
    case None => Reject
    case Some(t) =>
      if t.kind == "" || t.address.None? || |t.address.value| != 20 || t.data.None? || t.success.None?
         || t.depth.None? || t.caller.None? || |t.caller.value| != 20 || t.gasUsed.None? then Reject
      else
        var head := FrameHead(t.depth.value, t.kind, t.address.value, t.caller.value, phase, t.data.value,
                              SelectorOf(t.kind, t.data.value), t.gasUsed.value, t.success.value, None);
        if t.address.value == CHEATCODE_ADDRESS && t.kind in CALL_KINDS then
          match OpenCheat(cfg, t.data.value)
          case Reject => Reject
          case Ok(c) => Ok(head.(cheat := Some(c)))
        else Ok(head)
  }
}
