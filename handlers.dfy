/** The per-operation handlers of nodes/Smb2/SmbEntryHelpers.ts: each reads its node parameters
    for one input item, issues one client command and builds that item's output. Temporary files
    and binary data are outside the model: the temporary path is an input and the file content
    read by `get` is not represented. */
module EntryHelpers {
  import opened Wrappers
  import opened Text
  import opened Sequences
  import opened SmbTypes
  import opened Runner
  import opened Client
  import Listing
  import Metadata

  // ---------------------------------------------------------------- parameters

  /** One input item as the handlers see it: the node parameters as evaluated for that item
      (a parameter that is not set is absent) and the names of its binary properties. */
  datatype Item = Item(params: map<string, string>, binary: set<string>)

  /** `str(ctx, i, name, def)`: the parameter's value, or the default when it is not set. */
  function Param(item: Item, name: string, default: string): (r: string)
    ensures name in item.params ==> r == item.params[name]
    ensures name !in item.params ==> r == default
  {
    if name in item.params then item.params[name] else default
  }

  // ---------------------------------------------------------------- path.basename

  /** The path without its trailing slashes. */
  function StripTrailingSlashes(p: string): (r: string)
    ensures |r| <= |p| && r == p[..|r|]
    ensures r == [] || r[|r| - 1] != '/'
    ensures forall k :: |r| <= k < |p| ==> p[k] == '/'
    decreases |p|
  {
    if p != [] && p[|p| - 1] == '/' then StripTrailingSlashes(p[..|p| - 1]) else p
  }

  /** The longest suffix holding no slash. */
  function AfterLastSlash(s: string): (r: string)
    ensures |r| <= |s| && r == s[|s| - |r|..]
    ensures '/' !in r
    ensures |r| < |s| ==> s[|s| - |r| - 1] == '/'
    decreases |s|
  {
    if s == [] || s[|s| - 1] == '/' then []
    else
      var init := s[..|s| - 1];
      var pre := AfterLastSlash(init);
      assert s[|s| - 1 - |pre|..] == init[|init| - |pre|..] + [s[|s| - 1]];
      pre + [s[|s| - 1]]
  }

  /** POSIX `path.basename(p)`: the last segment of the path, trailing slashes ignored. */
  function Basename(p: string): (r: string)
    ensures '/' !in r
  {
    AfterLastSlash(StripTrailingSlashes(p))
  }

  /** The last segment of `dir/name` is `name`. */
  lemma {:induction false} AfterLastSlashOf(dir: string, name: string)
    requires '/' !in name
    ensures AfterLastSlash(dir + "/" + name) == name
    decreases |name|
  {
    var s := dir + "/" + name;
    if name != [] {
      var init := name[..|name| - 1];
      assert name[|name| - 1] in name;
      assert s[..|s| - 1] == dir + "/" + init;
      assert forall c :: c in init ==> c in name;
      AfterLastSlashOf(dir, init);
      assert name == init + [name[|name| - 1]];
    }
  }

  /** Trailing slashes after a path that does not end in one are all dropped. */
  lemma {:induction false} StripSlashesOff(base: string, n: nat)
    requires base == [] || base[|base| - 1] != '/'
    ensures StripTrailingSlashes(base + seq(n, _ => '/')) == base
  {
    var p := base + seq(n, _ => '/');
    if n > 0 {
      assert p[..|p| - 1] == base + seq(n - 1, _ => '/');
      StripSlashesOff(base, n - 1);
    } else {
      assert p == base;
    }
  }

  /** The basename of `dir/name`, with any number of trailing slashes, is `name`. */
  lemma BasenameOfPath(dir: string, name: string, slashes: nat)
    requires name != [] && '/' !in name
    ensures Basename(dir + "/" + name + seq(slashes, _ => '/')) == name
  {
    assert name[|name| - 1] in name;
    StripSlashesOff(dir + "/" + name, slashes);
    AfterLastSlashOf(dir, name);
  }

  /** A bare file name is its own basename. */
  lemma BasenameOfName(name: string)
    requires '/' !in name
    ensures Basename(name) == name
  {
    if name != [] { assert name[|name| - 1] in name; }
  }

  // ---------------------------------------------------------------- outputs

  /** The JSON (and binary slot) each handler returns. `FileOut` is `get`'s item; its binary
      content is not represented. `Confirmed(field, path, flag)` is `{[field]: path, [flag]: true}`. */
  datatype Output =
    | StatOut(remotePath: string, stat: Stat)
    | ListOut(directory: string, entries: seq<ListEntry>)
    | FileOut(fileName: string, remotePath: string, property: string, mimeType: string)
    | Confirmed(field: string, path: string, flag: string)

  /** The filter of `handleList`: not `.` or `..`, no `blocks available` (in any case) in the
      date, a missing date counting as empty, and a name that is not all digits. */
  predicate HandleKeep(e: ListEntry) {
    e.name != "." && e.name != ".."
    && !ContainsIgnoreCase(e.date.GetOr(""), "blocks available")
    && !AllDigits(e.name)
  }

  function HandleListFilter(entries: seq<ListEntry>): (r: seq<ListEntry>)
    ensures forall e :: e in r <==> e in entries && HandleKeep(e)
  {
    Filter(entries, HandleKeep)
  }

  /** The handler's filter is weaker than the one `list` already applies, so it removes nothing
      from what `list` returns. */
  lemma HandleFilterRemovesNothing(out: string)
    ensures HandleListFilter(Listing.List(out)) == Listing.List(out)
  {
    assert forall e :: Listing.Keep(e) ==> HandleKeep(e);
    FilterAbsorbs(Listing.ParseListing(out), Listing.Keep, HandleKeep);
  }

  /** The handler's filter on its own drops every entry that is `.`, `..`, all digits or carries
      the footer phrase in its date, and keeps the rest in order. */
  lemma HandleFilterDrops(entries: seq<ListEntry>, e: ListEntry)
    requires e.name == "." || e.name == ".." || AllDigits(e.name)
             || ContainsIgnoreCase(e.date.GetOr(""), "blocks available")
    ensures e !in HandleListFilter(entries)
  {
  }

  // ---------------------------------------------------------------- the handlers

  /** The parameters of `handleGet`: output property, file name and MIME type. */
  datatype GetOptions = GetOptions(property: string, fileName: string, mimeType: string)

  /** `outFileName` when it is set and non-empty, else the basename of the remote path; `data`
      and `application/octet-stream` for the others. */
  function GetOptionsOf(item: Item): (r: GetOptions)
    ensures r.property == Param(item, "outBinaryPropertyName", "data")
    ensures r.mimeType == Param(item, "outMimeType", "application/octet-stream")
    ensures Param(item, "outFileName", "") != "" ==> r.fileName == item.params["outFileName"]
    ensures Param(item, "outFileName", "") == "" ==> r.fileName == Basename(Param(item, "remotePath", ""))
  {
    var name := Param(item, "outFileName", "");
    GetOptions(Param(item, "outBinaryPropertyName", "data"),
               if name != "" then name else Basename(Param(item, "remotePath", "")),
               Param(item, "outMimeType", "application/octet-stream"))
  }

  /** `put` reads the upload from a binary property unless `putSource` is set to something other
      than `binary`. */
  predicate FromBinary(item: Item) {
    Param(item, "putSource", "binary") == "binary"
  }

  /** The binary property `put` uploads from. */
  function BinaryProperty(item: Item): string {
    Param(item, "binaryPropertyName", "data")
  }

  function MissingBinaryMessage(property: string, i: nat): (r: string)
    ensures r != ""
  {
    "Binary property \"" + property + "\" not found on item " + NatToString(i)
  }

  /** The command a handler issues for item `i` (`tmp` is its temporary file), or None when
      `put` stops before uploading because the binary property is missing. */
  function CommandOf(op: Operation, item: Item, i: nat, tmp: string): Option<string> {
    match op
    case StatOp => Some(StatCommand(Param(item, "remotePath", "")))
    case ListOp => Some(ListCommand(Param(item, "directory", "/")))
    case GetOp => Some(GetCommand(Param(item, "remotePath", ""), tmp))
    case PutOp =>
      if FromBinary(item) && BinaryProperty(item) !in item.binary then None
      else Some(PutCommand(tmp, Param(item, "remotePath", "")))
    case MkdirOp => Some(MkdirCommand(Param(item, "directory", "")))
    case RmdirOp => Some(RmdirCommand(Param(item, "directory", "")))
    case DelOp => Some(DelCommand(Param(item, "remotePath", "")))
  }

  /** What a handler returns once its command has run successfully with output `out`. */
  function Success(op: Operation, item: Item, out: string): Output {
    match op
    case StatOp => StatOut(Param(item, "remotePath", ""), Metadata.StatOf(out))
    case ListOp => ListOut(Param(item, "directory", "/"), HandleListFilter(Listing.List(out)))
    case GetOp =>
      var o := GetOptionsOf(item);
      FileOut(o.fileName, Param(item, "remotePath", ""), o.property, o.mimeType)
    case PutOp => Confirmed("remotePath", Param(item, "remotePath", ""), "uploaded")
    case MkdirOp => Confirmed("directory", Param(item, "directory", ""), "created")
    case RmdirOp => Confirmed("directory", Param(item, "directory", ""), "removed")
    case DelOp => Confirmed("remotePath", Param(item, "remotePath", ""), "deleted")
  }

  /** What a handler returns given what running its command gave (`ran`), or None when it
      issued no command. */
  function Respond(op: Operation, item: Item, i: nat, ran: Option<Result<string, string>>): Result<Output, string> {
    match ran
    case None => Err(MissingBinaryMessage(BinaryProperty(item), i))
    case Some(Ok(out)) => Ok(Success(op, item, out))
    case Some(Err(e)) => Err(e)
  }

  /** `runOne` of the command, if there is one. */
  function RunCommand(c: SmbClient, cmd: Option<string>, outcome: ProcessOutcome): Option<Result<string, string>> {
    match cmd
    case None => None
    case Some(line) => Some(Run(c, line, outcome))
  }

  /** The `handlers` table: the handler of `op` applied to item `i`. */
  function Handle(op: Operation, item: Item, i: nat, c: SmbClient, tmp: string, outcome: ProcessOutcome)
    : Result<Output, string>
  {
    Respond(op, item, i, RunCommand(c, CommandOf(op, item, i, tmp), outcome))
  }

  /** A handler that issues a command succeeds exactly when the command's run does, with the
      handler's output for what the command printed, and otherwise fails with that run's
      message; `put` with a missing binary property fails before any command. Every failure
      carries a message. */
  lemma HandleContract(op: Operation, item: Item, i: nat, c: SmbClient, tmp: string, outcome: ProcessOutcome)
    ensures var r := Handle(op, item, i, c, tmp, outcome);
      && (r.Err? ==> r.error != "")
      && (CommandOf(op, item, i, tmp).None? ==> r == Err(MissingBinaryMessage(BinaryProperty(item), i)))
      && (CommandOf(op, item, i, tmp).Some? ==>
        var ran := Run(c, CommandOf(op, item, i, tmp).value, outcome);
        && (r.Ok? <==> ran.Ok?)
        && (r.Ok? ==> r.value == Success(op, item, ran.value))
        && (r.Err? ==> r.error == ran.error))
  {
    var cmd := CommandOf(op, item, i, tmp);
    if cmd.Some? {
      RunErrorsCarryText(c, cmd.value, outcome);
    }
  }

  /** `runOne` never fails with an empty message. */
  lemma RunErrorsCarryText(c: SmbClient, cmd: string, outcome: ProcessOutcome)
    ensures Run(c, cmd, outcome).Err? ==> Run(c, cmd, outcome).error != ""
  {
  }

  // ---------------------------------------------------------------- handler properties

  /** `stat` hands back the metadata read from what `allinfo` printed, under the remote path it
      was given. */
  lemma StatHandler(item: Item, i: nat, out: string)
    ensures Respond(StatOp, item, i, Some(Ok(out))) == Ok(StatOut(Param(item, "remotePath", ""), Metadata.StatOf(out)))
  {
  }

  /** `list` hands back exactly what the client's `list` returns: its second filter removes
      nothing. */
  lemma ListHandler(item: Item, i: nat, out: string)
    ensures Respond(ListOp, item, i, Some(Ok(out))) == Ok(ListOut(Param(item, "directory", "/"), Listing.List(out)))
  {
    HandleFilterRemovesNothing(out);
  }

  /** With the client's own `stat` and `list`: the handlers succeed exactly when those do, and
      return what those return. */
  lemma StatAndListHandlers(item: Item, i: nat, c: SmbClient, tmp: string, outcome: ProcessOutcome)
    ensures var r := Handle(StatOp, item, i, c, tmp, outcome);
            var s := Client.Stat(c, Param(item, "remotePath", ""), outcome);
            (r.Ok? <==> s.Ok?) && (r.Ok? ==> r.value == StatOut(Param(item, "remotePath", ""), s.value))
    ensures var r := Handle(ListOp, item, i, c, tmp, outcome);
            var l := Client.List(c, Param(item, "directory", "/"), outcome);
            (r.Ok? <==> l.Ok?) && (r.Ok? ==> r.value == ListOut(Param(item, "directory", "/"), l.value))
  {
    var statRun := Run(c, StatCommand(Param(item, "remotePath", "")), outcome);
    var listRun := Run(c, ListCommand(Param(item, "directory", "/")), outcome);
    assert Handle(StatOp, item, i, c, tmp, outcome) == Respond(StatOp, item, i, Some(statRun));
    assert Handle(ListOp, item, i, c, tmp, outcome) == Respond(ListOp, item, i, Some(listRun));
    if statRun.Ok? { StatHandler(item, i, statRun.value); }
    if listRun.Ok? { ListHandler(item, i, listRun.value); }
  }

  /** `list` reads the root directory when no directory is given. */
  lemma ListDefaultsToRoot(item: Item, i: nat, tmp: string)
    requires "directory" !in item.params
    ensures CommandOf(ListOp, item, i, tmp) == Some(ListCommand("/"))
  {
  }

  /** `put`, `mkdir`, `rmdir` and `del` answer with their fixed confirmation whenever they
      succeed, whatever the command printed. */
  lemma Confirmations(item: Item, i: nat, ran: Option<Result<string, string>>)
    ensures Respond(PutOp, item, i, ran).Ok? ==>
      Respond(PutOp, item, i, ran).value == Confirmed("remotePath", Param(item, "remotePath", ""), "uploaded")
    ensures Respond(MkdirOp, item, i, ran).Ok? ==>
      Respond(MkdirOp, item, i, ran).value == Confirmed("directory", Param(item, "directory", ""), "created")
    ensures Respond(RmdirOp, item, i, ran).Ok? ==>
      Respond(RmdirOp, item, i, ran).value == Confirmed("directory", Param(item, "directory", ""), "removed")
    ensures Respond(DelOp, item, i, ran).Ok? ==>
      Respond(DelOp, item, i, ran).value == Confirmed("remotePath", Param(item, "remotePath", ""), "deleted")
  {
  }

  /** A binary `put` whose property is missing issues no command and fails with the same message
      whatever the process would have done: nothing is uploaded. */
  lemma PutNeedsBinary(item: Item, i: nat, c: SmbClient, tmp: string, outcome: ProcessOutcome)
    requires FromBinary(item) && BinaryProperty(item) !in item.binary
    ensures CommandOf(PutOp, item, i, tmp).None?
    ensures Handle(PutOp, item, i, c, tmp, outcome) == Err(MissingBinaryMessage(BinaryProperty(item), i))
  {
    assert CommandOf(PutOp, item, i, tmp) == None;
    assert RunCommand(c, None, outcome) == None;
  }

  /** A text `put`, or a binary one whose property is present, uploads the temporary file to
      the remote path. */
  lemma PutUploads(item: Item, i: nat, tmp: string)
    requires !FromBinary(item) || BinaryProperty(item) in item.binary
    ensures CommandOf(PutOp, item, i, tmp) == Some(PutCommand(tmp, Param(item, "remotePath", "")))
  {
  }

  /** With no output file name, `get` names the file after the last segment of the remote
      path. */
  lemma GetFileNameDefault(item: Item, dir: string, name: string)
    requires "outFileName" !in item.params
    requires "remotePath" in item.params && item.params["remotePath"] == dir + "/" + name
    requires name != [] && '/' !in name
    ensures GetOptionsOf(item).fileName == name
  {
    BasenameOfPath(dir, name, 0);
    assert dir + "/" + name + seq(0, _ => '/') == dir + "/" + name;
    assert Param(item, "outFileName", "") == "";
    assert Param(item, "remotePath", "") == dir + "/" + name;
  }
}
