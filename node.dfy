/** `Smb2.execute` (nodes/Smb2/Smb2.node.ts) together with `buildClient`
    (nodes/Smb2/SmbEntryHelpers.ts): look up the operation's handler, read the input items,
    build one client, run the handler on every item in order, stop at the first failure, and
    close the client on both paths. The handler is a parameter, as `OpHandler` is in the
    source; the node's own handlers are `EntryHelpers.Handle`. */
module Smb2Node {
  import opened Wrappers
  import opened SmbTypes
  import opened Runner
  import opened Client
  import opened EntryHelpers

  /** The observable steps of one execution, in order. */
  datatype Event = ReadInput | BuildClient | Invoke(index: nat) | Close

  /** A handler: the output for one item, or the message it throws. */
  type Handler<T> = (Operation, Item, nat, SmbClient) -> Result<T, string>

  /** The node's handlers, item `i` running with process outcome `outcome(i)` and temporary
      file `tmp(i)`. */
  function NodeHandler(tmp: nat -> string, outcome: nat -> ProcessOutcome): Handler<Output> {
    (op: Operation, item: Item, i: nat, c: SmbClient) => Handle(op, item, i, c, tmp(i), outcome(i))
  }

  /** `buildClient`: the stored credentials (their `port` and `maxProtocol` are not passed on)
      and the `smbclientPath` parameter. Reading the credentials may fail. */
  function ClientOf(stored: Result<Credentials, string>, clientPath: string): (r: Result<SmbClient, string>)
    ensures r.Ok? <==> stored.Ok?
    ensures r.Err? ==> r.error == stored.error
    ensures r.Ok? ==> r.value.clientPath == clientPath && r.value.auth.port.None? && r.value.auth.maxProtocol.None?
    ensures r.Ok? ==> var a := stored.value; var b := r.value.auth;
      b.host == a.host && b.share == a.share && b.domain == a.domain && b.username == a.username && b.password == a.password
  {
    match stored
    case Err(e) => Err(e)
    case Ok(a) => Ok(SmbClient(Credentials(a.host, a.share, a.domain, a.username, a.password, None, None), clientPath))
  }

  /** The `smbclientPath` parameter as `buildClient` reads it for the first item. */
  function ClientPathOf(first: Item): (r: string)
    ensures "smbclientPath" !in first.params ==> r == "smbclient"
  {
    Param(first, "smbclientPath", "smbclient")
  }

  /** The message of the error `execute` throws for a failing handler. */
  function NodeError(message: string): (r: string)
    ensures r != ""
    ensures message != "" ==> r == message
    ensures message == "" ==> r == "SMB operation failed"
  {
    if message != "" then message else "SMB operation failed"
  }

  /** What the handler yields for each item. */
  function Results<T>(handler: Handler<T>, op: Operation, items: seq<Item>, c: SmbClient): (rs: seq<Result<T, string>>)
    ensures |rs| == |items|
    ensures forall i :: 0 <= i < |items| ==> rs[i] == handler(op, items[i], i, c)
  {
    seq(|items|, i requires 0 <= i < |items| => handler(op, items[i], i, c))
  }

  /** The index of the first failure, if there is one. */
  function FirstFailure<T, E>(rs: seq<Result<T, E>>): (r: Option<nat>)
    ensures r.Some? ==> r.value < |rs| && rs[r.value].Err? && forall j :: 0 <= j < r.value ==> rs[j].Ok?
    ensures r.None? ==> forall j :: 0 <= j < |rs| ==> rs[j].Ok?
  {
    if rs == [] then None
    else if rs[0].Err? then Some(0)
    else match FirstFailure(rs[1..])
      case None => None
      case Some(k) => Some(k + 1)
  }

  /** The handler invocations for the first `n` items. */
  function Invocations(n: nat): (r: seq<Event>)
    ensures |r| == n
    ensures forall j :: 0 <= j < n ==> r[j] == Invoke(j)
  {
    seq(n, j requires 0 <= j < n => Invoke(j))
  }

  /** The outcome and the steps of an execution whose operation is supported and whose client
      was built, `rs` being what the handler yields for each item: every item's output in
      order, or the first failure's message with no item after it handled; the client is
      closed last in both cases. */
  function Completed<T>(rs: seq<Result<T, string>>): (Result<seq<T>, string>, seq<Event>) {
    match FirstFailure(rs)
    case None =>
      (Ok(seq(|rs|, i requires 0 <= i < |rs| => rs[i].value)), [ReadInput, BuildClient] + Invocations(|rs|) + [Close])
    case Some(k) =>
      (Err(NodeError(rs[k].error)), [ReadInput, BuildClient] + Invocations(k + 1) + [Close])
  }

  /** When every handler succeeds, the run yields their outputs in order. */
  lemma CompletedWithoutFailure<T>(rs: seq<Result<T, string>>, out: seq<T>)
    requires |rs| == |out|
    requires forall j :: 0 <= j < |rs| ==> rs[j] == Ok(out[j])
    ensures Completed(rs) == (Ok(out), [ReadInput, BuildClient] + Invocations(|rs|) + [Close])
  {
    assert FirstFailure(rs).None?;
    assert out == seq(|rs|, j requires 0 <= j < |rs| => rs[j].value);
  }

  /** When handler `k` is the first to fail, the run fails with its message after invoking it. */
  lemma CompletedWithFailure<T>(rs: seq<Result<T, string>>, k: nat)
    requires k < |rs| && rs[k].Err?
    requires forall j :: 0 <= j < k ==> rs[j].Ok?
    ensures Completed(rs) == (Err(NodeError(rs[k].error)), [ReadInput, BuildClient] + Invocations(k + 1) + [Close])
  {
    assert FirstFailure(rs) == Some(k);
  }

  /** `execute`. `operation` and `clientPath` are the `operation` and `smbclientPath`
      parameters read for the first item; `stored` is what reading the credentials gives. */
  method Execute<T>(operation: string, clientPath: string, items: seq<Item>, stored: Result<Credentials, string>,
                    handler: Handler<T>)
    returns (r: Result<seq<T>, string>, events: seq<Event>)
    ensures OperationFrom(operation).None? ==> r == Err("Unsupported operation: " + operation) && events == []
    ensures OperationFrom(operation).Some? && stored.Err? ==>
      r == Err(stored.error) && events == [ReadInput, BuildClient]
    ensures OperationFrom(operation).Some? && stored.Ok? ==>
      (r, events) == Completed(Results(handler, OperationFrom(operation).value, items, ClientOf(stored, clientPath).value))
  {
    var op := OperationFrom(operation);
    if op.None? {
      return Err("Unsupported operation: " + operation), [];
    }
    events := [ReadInput];
    events := events + [BuildClient];
    var built := ClientOf(stored, clientPath);
    if built.Err? {
      return Err(built.error), events;
    }
    var c := built.value;
    ghost var rs := Results(handler, op.value, items, c);
    var out: seq<T> := [];
    var failure: Option<string> := None;
    var i := 0;
    while i < |items| && failure.None?
      invariant 0 <= i <= |items|
      invariant events == [ReadInput, BuildClient] + Invocations(i)
      invariant failure.None? ==> |out| == i && forall j :: 0 <= j < i ==> rs[j] == Ok(out[j])
      invariant failure.Some? ==> 0 < i && rs[i - 1] == Err(failure.value)
      invariant failure.Some? ==> forall j :: 0 <= j < i - 1 ==> rs[j].Ok?
    {
      var result := handler(op.value, items[i], i, c);
      assert Invocations(i + 1) == Invocations(i) + [Invoke(i)];
      events := events + [Invoke(i)];
      match result {
        case Ok(v) => out := out + [v];
        case Err(e) => failure := Some(e);
      }
      i := i + 1;
    }
    events := events + [Close];
    match failure {
      case None =>
        CompletedWithoutFailure(rs, out);
        r := Ok(out);
      case Some(e) =>
        CompletedWithFailure(rs, i - 1);
        r := Err(NodeError(e));
    }
  }

  // ---------------------------------------------------------------- properties of execute

  /** An execution succeeds exactly when every item's handler does, and then returns one output
      per item, in input order. */
  lemma SucceedsIffAllSucceed<T>(rs: seq<Result<T, string>>)
    ensures Completed(rs).0.Ok? <==> forall j :: 0 <= j < |rs| ==> rs[j].Ok?
    ensures Completed(rs).0.Ok? ==>
      |Completed(rs).0.value| == |rs| && forall j :: 0 <= j < |rs| ==> rs[j] == Ok(Completed(rs).0.value[j])
  {
    if FirstFailure(rs).Some? {
      var k := FirstFailure(rs).value;
      assert !rs[k].Ok?;
    }
  }

  /** A failed execution invokes the handlers up to the first failing item and no further, and
      reports that handler's message. */
  lemma StopsAtFirstFailure<T>(rs: seq<Result<T, string>>, k: nat)
    requires k < |rs| && rs[k].Err? && forall j :: 0 <= j < k ==> rs[j].Ok?
    ensures Completed(rs).0 == Err(NodeError(rs[k].error))
    ensures var events := Completed(rs).1;
      |events| == k + 4 && events[k + 2] == Invoke(k)
      && forall j :: 0 <= j < |events| && events[j].Invoke? ==> events[j].index <= k
  {
    CompletedWithFailure(rs, k);
    var events := Completed(rs).1;
    var calls := Invocations(k + 1);
    assert events == [ReadInput, BuildClient] + calls + [Close];
    forall j | 0 <= j < |events| && events[j].Invoke? ensures events[j].index <= k {
      assert events[j] == calls[j - 2];
    }
  }

  /** Once the client is built it is closed exactly once, as the last step, whether the items
      succeed or not; the input is read before the client is built. */
  lemma ClosesOnce<T>(rs: seq<Result<T, string>>)
    ensures var events := Completed(rs).1;
      |events| >= 3 && events[0] == ReadInput && events[1] == BuildClient && events[|events| - 1] == Close
      && forall j :: 0 <= j < |events| - 1 ==> events[j] != Close
  {
    var n := if FirstFailure(rs).None? then |rs| else FirstFailure(rs).value + 1;
    var events := Completed(rs).1;
    assert events == [ReadInput, BuildClient] + Invocations(n) + [Close];
    forall j | 2 <= j < |events| - 1 ensures events[j] != Close {
      assert events[j] == Invocations(n)[j - 2];
    }
  }

  /** The node's handlers always fail with a message, so `execute` passes it on unchanged and
      never falls back to its generic text. */
  lemma HandlerMessagesKept(op: Operation, items: seq<Item>, c: SmbClient, tmp: nat -> string,
                            outcome: nat -> ProcessOutcome)
    ensures var rs := Results(NodeHandler(tmp, outcome), op, items, c);
      Completed(rs).0.Err? ==> exists k :: 0 <= k < |items| && rs[k].Err? && Completed(rs).0.error == rs[k].error
  {
    var rs := Results(NodeHandler(tmp, outcome), op, items, c);
    if FirstFailure(rs).Some? {
      var k := FirstFailure(rs).value;
      HandleContract(op, items[k], k, c, tmp(k), outcome(k));
      assert rs[k].error != "";
    }
  }
}
