/** The operations of the `SmbClientWrapper` class (nodes/Smb2/SmbClientWrapper.ts): each one
    runs a single smbclient command whose argument paths are put in double quotes. The class
    keeps its credentials and client path unchanged after construction, so it is a value here;
    the outcome of the process run is an input. */
module Client {
  import opened Wrappers
  import opened Text
  import opened SmbTypes
  import opened Runner
  import Listing
  import Metadata

  /** A wrapper built from credentials and the path of the smbclient program (`smbclient` by
      default, as `connectToSmbServer` and `buildClient` pass it). */
  datatype SmbClient = SmbClient(auth: Credentials, clientPath: string)

  /** `"${path}"`. */
  function Quote(path: string): string {
    "\"" + path + "\""
  }

  function StatCommand(remotePath: string): string { "allinfo " + Quote(remotePath) }
  function ListCommand(dir: string): string { "ls " + Quote(dir) }
  function GetCommand(remotePath: string, localPath: string): string { "get " + Quote(remotePath) + " " + Quote(localPath) }
  function PutCommand(localPath: string, remotePath: string): string { "put " + Quote(localPath) + " " + Quote(remotePath) }
  function MkdirCommand(remoteDir: string): string { "mkdir " + Quote(remoteDir) }
  function RmdirCommand(remoteDir: string): string { "rmdir " + Quote(remoteDir) }
  function DelCommand(remotePath: string): string { "del " + Quote(remotePath) }

  /** Cutting a one-path command at its double quotes gives back the verb and the path, as long
      as the path holds no double quote of its own. */
  lemma OnePathCommand(verb: string, path: string)
    requires '"' !in verb && '"' !in path
    ensures Split(verb + Quote(path), '"') == [verb, path, ""]
  {
    var q := "\"";
    var parts := [verb, path, ""];
    JoinCons(path, [""], q);
    JoinCons(verb, [path, ""], q);
    assert [verb] + [path, ""] == parts;
    RegroupOne(verb, q, path);
    assert verb + Quote(path) == Join(parts, q);
    forall p | p in parts ensures '"' !in p { }
    SplitJoin(parts, '"');
  }

  /** Regrouping the pieces of a one-path command. */
  lemma RegroupOne(a: string, q: string, b: string)
    ensures a + (q + b + q) == a + q + (b + q + [])
  {
  }

  /** Regrouping the pieces of a two-path command. */
  lemma Regroup(a: string, q: string, b: string, c: string, d: string)
    ensures a + (q + b + q) + c + (q + d + q) == a + q + (b + q + (c + q + (d + q + [])))
  {
  }

  /** The same for the two-path commands `get` and `put`. */
  lemma TwoPathCommand(verb: string, first: string, second: string)
    requires '"' !in verb && '"' !in first && '"' !in second
    ensures Split(verb + Quote(first) + " " + Quote(second), '"') == [verb, first, " ", second, ""]
  {
    var q := "\"";
    var parts := [verb, first, " ", second, ""];
    JoinCons(second, [""], q);
    JoinCons(" ", [second, ""], q);
    JoinCons(first, [" ", second, ""], q);
    JoinCons(verb, [first, " ", second, ""], q);
    assert [verb] + [first, " ", second, ""] == parts;
    Regroup(verb, q, first, " ", second);
    assert verb + Quote(first) + " " + Quote(second) == Join(parts, q);
    forall p | p in parts ensures '"' !in p { }
    SplitJoin(parts, '"');
  }

  /** The paths of every command are recovered from it. */
  lemma CommandPaths(a: string, b: string)
    requires '"' !in a && '"' !in b
    ensures Split(StatCommand(a), '"') == ["allinfo ", a, ""]
    ensures Split(ListCommand(a), '"') == ["ls ", a, ""]
    ensures Split(MkdirCommand(a), '"') == ["mkdir ", a, ""]
    ensures Split(RmdirCommand(a), '"') == ["rmdir ", a, ""]
    ensures Split(DelCommand(a), '"') == ["del ", a, ""]
    ensures Split(GetCommand(a, b), '"') == ["get ", a, " ", b, ""]
    ensures Split(PutCommand(a, b), '"') == ["put ", a, " ", b, ""]
  {
    OnePathCommand("allinfo ", a);
    OnePathCommand("ls ", a);
    OnePathCommand("mkdir ", a);
    OnePathCommand("rmdir ", a);
    OnePathCommand("del ", a);
    TwoPathCommand("get ", a, b);
    TwoPathCommand("put ", a, b);
  }

  /** `runOne(cmd)` of this client. */
  function Run(c: SmbClient, cmd: string, outcome: ProcessOutcome): Result<string, string> {
    RunOne(c.auth, c.clientPath, cmd, outcome)
  }

  /** `stat(remotePath)`: the metadata read from the output of `allinfo`, or the failure of the
      run. */
  function Stat(c: SmbClient, remotePath: string, outcome: ProcessOutcome): (r: Result<Stat, string>)
    ensures r.Ok? <==> Run(c, StatCommand(remotePath), outcome).Ok?
    ensures r.Ok? ==> r.value == Metadata.StatOf(Run(c, StatCommand(remotePath), outcome).value)
    ensures r.Err? ==> r.error == Run(c, StatCommand(remotePath), outcome).error
  {
    match Run(c, StatCommand(remotePath), outcome)
    case Ok(out) => Ok(Metadata.StatOf(out))
    case Err(e) => Err(e)
  }

  /** `list(dir)`: the filtered entries read from the output of `ls`, or the failure of the
      run. */
  function List(c: SmbClient, dir: string, outcome: ProcessOutcome): (r: Result<seq<ListEntry>, string>)
    ensures r.Ok? <==> Run(c, ListCommand(dir), outcome).Ok?
    ensures r.Ok? ==> r.value == Listing.List(Run(c, ListCommand(dir), outcome).value)
    ensures r.Err? ==> r.error == Run(c, ListCommand(dir), outcome).error
  {
    match Run(c, ListCommand(dir), outcome)
    case Ok(out) => Ok(Listing.List(out))
    case Err(e) => Err(e)
  }

  /** The commands that only succeed or fail: `get`, `put`, `mkdir`, `rmdir` and `del`. */
  function Perform(c: SmbClient, cmd: string, outcome: ProcessOutcome): (r: Result<(), string>)
    ensures r.Ok? <==> Run(c, cmd, outcome).Ok?
    ensures r.Err? ==> r.error == Run(c, cmd, outcome).error
  {
    match Run(c, cmd, outcome)
    case Ok(_) => Ok(())
    case Err(e) => Err(e)
  }

  /** A run that exits cleanly with an empty stderr always succeeds, whatever the command. */
  lemma CleanRunSucceeds(c: SmbClient, cmd: string, out: string)
    ensures Run(c, cmd, Exited(out, "")) == Ok(out)
    ensures Perform(c, cmd, Exited(out, "")) == Ok(())
  {
  }
}
