/** The record types of nodes/Smb2/interfaces.ts. */
module SmbTypes {
  import opened Wrappers
  import opened Text

  /** Smb2Credentials. An empty username means anonymous; the domain is optional. */
  datatype Credentials = Credentials(
    host: string,
    share: string,
    domain: Option<string>,
    username: string,
    password: string,
    port: Option<nat>,
    maxProtocol: Option<string>)

  /** The result of JavaScript's `Number(text) || 0` for a size field. Only strings of decimal
      digits are given a value; any other text is kept as it was read. */
  datatype Size = Bytes(n: nat) | Unparsed(text: string)

  /** The size read from a text field: a string of decimal digits has its value; any other
      text is kept as it was read. */
  function SizeOf(text: string): (r: Size)
    ensures r.Bytes? <==> AllDigits(text)
    ensures r.Unparsed? ==> r.text == text
  {
    if AllDigits(text) then Bytes(DecimalValue(text)) else Unparsed(text)
  }

  /** The decimal rendering of a number reads back as that number. */
  lemma SizeOfNumeral(n: nat)
    ensures SizeOf(NatToString(n)) == Bytes(n)
  {
    var s := NatToString(n);
    assert AllDigits(s) && DecimalValue(s) == n;
  }

  /** SmbListEntry. Attributes are the characters of the attribute field, one flag each. */
  datatype ListEntry = ListEntry(
    name: string,
    size: Size,
    date: Option<string>,
    time: Option<string>,
    attributes: seq<char>,
    isDirectory: bool)

  /** SmbStat. */
  datatype Stat = Stat(
    size: Option<Size>,
    createTime: Option<string>,
    accessTime: Option<string>,
    writeTime: Option<string>,
    changeTime: Option<string>,
    attributes: seq<char>,
    isDirectory: bool)

  /** Operation: the closed set of seven operation identifiers. */
  datatype Operation = StatOp | ListOp | GetOp | PutOp | MkdirOp | RmdirOp | DelOp

  /** The identifier the node's `operation` parameter carries for each operation. */
  function OperationName(op: Operation): string {
    match op
    case StatOp => "stat"
    case ListOp => "list"
    case GetOp => "get"
    case PutOp => "put"
    case MkdirOp => "mkdir"
    case RmdirOp => "rmdir"
    case DelOp => "del"
  }

  /** The lookup `handlers[op]` in the record keyed by Operation: an identifier names an
      operation exactly when it is one of the seven names. */
  function OperationFrom(name: string): (r: Option<Operation>)
    ensures r.Some? ==> OperationName(r.value) == name
    ensures r.None? ==> forall op: Operation :: OperationName(op) != name
  {
    if name == "stat" then Some(StatOp)
    else if name == "list" then Some(ListOp)
    else if name == "get" then Some(GetOp)
    else if name == "put" then Some(PutOp)
    else if name == "mkdir" then Some(MkdirOp)
    else if name == "rmdir" then Some(RmdirOp)
    else if name == "del" then Some(DelOp)
    else None
  }

  /** Every operation's identifier finds exactly that operation. */
  lemma OperationRoundTrip(op: Operation)
    ensures OperationFrom(OperationName(op)) == Some(op)
  {
  }
}
