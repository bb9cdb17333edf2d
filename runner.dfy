/** The command runner of nodes/Smb2/SmbClientWrapper.ts: the connection arguments handed to
    smbclient, the test that turns a successful exit into a failure, the redaction of the failure
    message, and the table of human-readable hints. The process itself is not run: its outcome
    is an input. */
module Runner {
  import opened Wrappers
  import opened Text
  import opened SmbTypes

  // ---------------------------------------------------------------- connection arguments

  /** `domain` is truthy: present and not empty. */
  predicate HasDomain(c: Credentials) {
    c.domain.Some? && c.domain.value != ""
  }

  /** The `-U` value: `%` for anonymous, else `user%pass` or `domain/user%pass`. */
  function UserPart(c: Credentials): string {
    if c.username == "" then "%"
    else if !HasDomain(c) then c.username + "%" + c.password
    else c.domain.value + "/" + c.username + "%" + c.password
  }

  /** `\\host\share`. */
  function UncPath(c: Credentials): string {
    "\\\\" + c.host + "\\" + c.share
  }

  /** The fields smbclient reads back out of a `-U [DOMAIN/]USER[%PASS]` value. */
  datatype UserSpec = UserSpec(domain: string, user: string, password: string)

  /** The split of a `-U` value assumed here: the password follows the first `%`, and a domain
      precedes the first `/` of what comes before it. smbclient also takes `\` as a domain
      separator and `@` as a realm separator; `PlainNames` excludes both characters, so for the
      credentials it admits this split is smbclient's. */
  function ParseUserSpec(s: string): UserSpec {
    match IndexOf(s, "%")
    case None => SplitDomain(s, "")
    case Some(i) => SplitDomain(s[..i], s[i + 1..])
  }

  function SplitDomain(s: string, password: string): UserSpec {
    match IndexOf(s, "/")
    case None => UserSpec("", s, password)
    case Some(j) => UserSpec(s[..j], s[j + 1..], password)
  }

  /** The index of the first `c` in x + [c] + y, when x has none. */
  lemma IndexOfSeparator(x: string, c: char, y: string)
    requires c !in x
    ensures IndexOf(x + [c] + y, [c]) == Some(|x|)
  {
    var s := x + [c] + y;
    assert OccursAt(s, [c], |x|) by { assert s[|x|..|x| + 1] == [c]; }
    forall j | 0 <= j < |x| ensures !OccursAt(s, [c], j) {
      assert s[j..j + 1] == [x[j]];
      assert x[j] in x;
    }
  }

  /** The index of the first `c` is absent when there is none. */
  lemma IndexOfAbsent(s: string, c: char)
    requires c !in s
    ensures IndexOf(s, [c]) == None
  {
    forall j | 0 <= j < |s| ensures !OccursAt(s, [c], j) {
      assert s[j..j + 1] == [s[j]];
      assert s[j] in s;
    }
  }

  /** A name holding none of the separators of a `-U` value. */
  predicate PlainName(s: string) {
    '/' !in s && '%' !in s && '\\' !in s && '@' !in s
  }

  /** Credentials whose domain and username are plain names. */
  predicate PlainNames(c: Credentials) {
    PlainName(c.username) && (c.domain.Some? ==> PlainName(c.domain.value))
  }

  /** smbclient recovers the domain, username and password from the `-U` value: nothing for the
      anonymous `%`, otherwise exactly the credentials. */
  lemma UserPartRoundTrip(c: Credentials)
    ensures PlainNames(c) && c.username == "" ==> ParseUserSpec(UserPart(c)) == UserSpec("", "", "")
    ensures PlainNames(c) && c.username != "" ==>
      ParseUserSpec(UserPart(c)) == UserSpec(if HasDomain(c) then c.domain.value else "", c.username, c.password)
  {
    if !PlainNames(c) {
    } else if c.username == "" {
      IndexOfSeparator([], '%', []);
      IndexOfAbsent([], '/');
    } else if !HasDomain(c) {
      IndexOfSeparator(c.username, '%', c.password);
      var s := c.username + "%" + c.password;
      assert s[..|c.username|] == c.username && s[|c.username| + 1..] == c.password;
      IndexOfAbsent(c.username, '/');
    } else {
      var d := c.domain.value;
      var left := d + "/" + c.username;
      assert '%' !in left by {
        forall k | 0 <= k < |left| ensures left[k] != '%' {
          if k < |d| { assert left[k] == d[k]; }
          else if k > |d| { assert left[k] == c.username[k - |d| - 1]; }
        }
      }
      IndexOfSeparator(left, '%', c.password);
      var s := left + "%" + c.password;
      assert s[..|left|] == left && s[|left| + 1..] == c.password;
      IndexOfSeparator(d, '/', c.username);
      assert left[..|d|] == d && left[|d| + 1..] == c.username;
    }
  }

  /** `buildBaseArgs`: the share address, `-U` with the user specifier, and `-g` for
      machine-readable output; smbclient reads the credentials back from the specifier. */
  function BuildBaseArgs(c: Credentials): (r: seq<string>)
    ensures |r| == 4 && r[0] == UncPath(c) && r[1] == "-U" && r[3] == "-g"
    ensures c.username == "" ==> r[2] == "%"
    ensures c.username != "" ==>
      r[2] == (if HasDomain(c) then c.domain.value + "/" else "") + c.username + "%" + c.password
    ensures PlainNames(c) && c.username == "" ==> ParseUserSpec(r[2]) == UserSpec("", "", "")
    ensures PlainNames(c) && c.username != "" ==>
      ParseUserSpec(r[2]) == UserSpec(if HasDomain(c) then c.domain.value else "", c.username, c.password)
  {
    UserPartRoundTrip(c);
    [UncPath(c), "-U", UserPart(c), "-g"]
  }

  /** The arguments of one run: the base arguments followed by `-c` and the command. */
  function RunArgs(c: Credentials, cmd: string): (r: seq<string>)
    ensures |r| == 6 && r[..4] == BuildBaseArgs(c) && r[4..] == ["-c", cmd]
  {
    BuildBaseArgs(c) + ["-c", cmd]
  }

  /** `[smbclientPath, ...args].join(' ')`. */
  function CommandLine(clientPath: string, args: seq<string>): string {
    Join([clientPath] + args, " ")
  }

  // ---------------------------------------------------------------- redactCmd

  /** The three regular expressions of `redactCmd`:
      UserFlag `/-U\s+(\S=)/`, AuthFileFlag `/-A\s=\S+/`, SlashPath `/\/\/[^/\s]+\/\S+/`. */
  datatype CmdPattern = UserFlag | AuthFileFlag | SlashPath

  /** The length of the longest prefix of white space. */
  function SpanSpace(s: string): (n: nat)
    ensures n <= |s| && AllSpace(s[..n]) && (n < |s| ==> !IsSpace(s[n]))
  {
    if s != [] && IsSpace(s[0]) then
      var n := 1 + SpanSpace(s[1..]);
      assert s[..n] == [s[0]] + s[1..][..n - 1];
      n
    else 0
  }

  /** The length of the longest prefix without white space. */
  function SpanNonSpace(s: string): (n: nat)
    ensures n <= |s| && NoSpace(s[..n]) && (n < |s| ==> IsSpace(s[n]))
  {
    if s != [] && !IsSpace(s[0]) then
      var n := 1 + SpanNonSpace(s[1..]);
      assert s[..n] == [s[0]] + s[1..][..n - 1];
      n
    else 0
  }

  /** The length of the longest prefix of `[^/\s]`. */
  function SpanSegment(s: string): (n: nat)
    ensures n <= |s| && NoSpace(s[..n]) && '/' !in s[..n]
    ensures n < |s| ==> IsSpace(s[n]) || s[n] == '/'
  {
    if s != [] && !IsSpace(s[0]) && s[0] != '/' then
      var n := 1 + SpanSegment(s[1..]);
      assert s[..n] == [s[0]] + s[1..][..n - 1];
      n
    else 0
  }

  /** The length of the match of a pattern that starts at the first character of s, or 0 when
      none starts there. The quantifiers are greedy and no backtracking can find another match. */
  function MatchLength(s: string, p: CmdPattern): (n: nat)
    ensures n <= |s|
    ensures n > 0 ==> |s| >= 4 && (s[0] == '-' || s[0] == '/')
  {
    match p
    case UserFlag =>
      if |s| >= 2 && s[0] == '-' && s[1] == 'U' then
        var w := SpanSpace(s[2..]);
        if w >= 1 && 3 + w < |s| && s[3 + w] == '=' then 4 + w else 0
      else 0
    case AuthFileFlag =>
      if |s| >= 4 && s[0] == '-' && s[1] == 'A' && IsSpace(s[2]) && s[3] == '=' then
        var m := SpanNonSpace(s[4..]);
        if m >= 1 then 4 + m else 0
      else 0
    case SlashPath =>
      if |s| >= 2 && s[0] == '/' && s[1] == '/' then
        var a := SpanSegment(s[2..]);
        if a >= 1 && 2 + a < |s| && s[2 + a] == '/' then
          var b := SpanNonSpace(s[3 + a..]);
          if b >= 1 then 3 + a + b else 0
        else 0
      else 0
  }

  /** No match of the pattern starts anywhere in s. */
  predicate NoMatch(s: string, p: CmdPattern) {
    forall i :: 0 <= i < |s| ==> MatchLength(s[i..], p) == 0
  }

  /** `s.replace(/pattern/g, rep)`: left to right, each match is replaced and the scan resumes
      after it. A string without a match is returned as it is. */
  function ReplaceMatches(s: string, p: CmdPattern, rep: string): (r: string)
    ensures NoMatch(s, p) ==> r == s
    decreases |s|
  {
    if s == [] then []
    else
      var n := MatchLength(s, p);
      if n > 0 then
        assert s[0..] == s;
        rep + ReplaceMatches(s[n..], p, rep)
      else
        assert NoMatch(s, p) ==> NoMatch(s[1..], p) by {
          forall i | 0 <= i < |s| - 1 ensures s[1..][i..] == s[i + 1..] { }
        }
        assert s[..1] + s[1..] == s;
        [s[0]] + ReplaceMatches(s[1..], p, rep)
  }

  /** `redactCmd`: the user flag, the authentication-file flag and forward-slash share paths are
      replaced, in that order; a string none of them matches comes back unchanged. */
  function RedactCmd(s: string): (r: string)
    ensures NoMatch(s, UserFlag) && NoMatch(s, AuthFileFlag) && NoMatch(s, SlashPath) ==> r == s
  {
    if s == [] then s
    else ReplaceMatches(ReplaceMatches(ReplaceMatches(s, UserFlag, "-U ***"), AuthFileFlag, "-A ***"), SlashPath, "//***")
  }

  /** A string without `-` or `/` is never touched by `redactCmd`. */
  lemma RedactCmdPlain(s: string)
    requires '-' !in s && '/' !in s
    ensures RedactCmd(s) == s
  {
    forall i, p: CmdPattern | 0 <= i < |s| ensures MatchLength(s[i..], p) == 0 {
      assert s[i..][0] == s[i] && s[i] in s;
    }
  }

  // ---------------------------------------------------------------- literal redaction

  /** `.replace(username, '***').replace(password, '***')`: the first occurrence of the username,
      then the first occurrence of the password in what is left, become `***`. */
  function RedactSecrets(s: string, c: Credentials): (r: string)
    ensures Absent(s, c.username) && Absent(s, c.password) ==> r == s
  {
    ReplaceFirst(ReplaceFirst(s, c.username, "***"), c.password, "***")
  }

  lemma NotAt(s: string, pat: string, k: nat)
    requires k < |pat| && pat[k] !in s
    ensures Absent(s, pat)
  {
    forall j | 0 <= j <= |s| ensures !OccursAt(s, pat, j) {
      if j + |pat| <= |s| {
        assert s[j..j + |pat|][k] == s[j + k];
        assert s[j + k] in s;
      }
    }
  }

  /** A secret at the very start is the one replaced. */
  lemma ReplaceAtStart(s: string, pat: string, rep: string)
    requires OccursAt(s, pat, 0)
    ensures ReplaceFirst(s, pat, rep) == rep + s[|pat|..]
  {
    assert FirstAt(s, pat, 0);
    assert s[..0] + rep == rep;
  }

  /** A character outside `rep` and `s` is outside `rep + s`. */
  lemma CharOutside(x: char, rep: string, s: string)
    requires x !in rep && x !in s
    ensures x !in rep + s
  {
    forall k | 0 <= k < |rep + s| ensures (rep + s)[k] != x {
      if k >= |rep| { assert (rep + s)[k] == s[k - |rep|]; }
    }
  }

  /** Redaction in two steps: the username replaced, then the password not found. */
  lemma RedactUserOnly(c: Credentials, text: string, once: string)
    requires ReplaceFirst(text, c.username, "***") == once && Absent(once, c.password)
    ensures RedactSecrets(text, c) == once
  {
  }

  /** Only the first occurrence of a secret is hidden: a text that names the username twice,
      `u mid u`, redacts to `*** mid u`, which still shows the username. With the username `smb`
      the first occurrence in a command line is inside `smbclient`, so `-U smb` stays visible. */
  lemma RedactSecretsFirstOnly(c: Credentials, mid: string, text: string)
    requires c.username != [] && text == c.username + mid + c.username
    requires c.password != [] && c.password[0] !in text && c.password[0] != '*'
    ensures RedactSecrets(text, c) == "***" + mid + c.username
    ensures OccursAt(RedactSecrets(text, c), c.username, 3 + |mid|)
  {
    var u, rest := c.username, mid + c.username;
    var once := "***" + rest;
    OnceRedacted(text, u, rest, c.password[0]);
    NotAt(once, c.password, 0);
    RedactUserOnly(c, text, once);
    ShownAfterMask(mid, u);
  }

  lemma ShownAfterMask(mid: string, u: string)
    ensures "***" + (mid + u) == "***" + mid + u
    ensures OccursAt("***" + mid + u, u, 3 + |mid|)
  {
    assert ("***" + mid + u)[3 + |mid|..3 + |mid| + |u|] == u;
  }

  lemma OnceRedacted(text: string, u: string, rest: string, x: char)
    requires text == u + rest && x !in text && x != '*'
    ensures ReplaceFirst(text, u, "***") == "***" + rest && x !in "***" + rest
  {
    assert text[..|u|] == u && text[|u|..] == rest;
    ReplaceAtStart(text, u, "***");
    assert forall k :: 0 <= k < |rest| ==> rest[k] == text[|u| + k];
    CharOutside(x, "***", rest);
  }

  /** An empty secret (the anonymous username, an empty password) matches at the start, so a
      `***` is put in front of the text. */
  lemma RedactEmptySecret(s: string, rep: string)
    ensures ReplaceFirst(s, "", rep) == rep + s
  {
    assert FirstAt(s, "", 0);
  }

  /** Redaction as evidently intended: every occurrence of each non-empty secret becomes `***`
      (the anonymous username and an empty password hide nothing). */
  function HideAll(s: string, secret: string): string
  {
    if secret == [] then s else ReplaceAll(s, secret, "***")
  }

  function RedactSecretsAll(s: string, c: Credentials): string
  {
    HideAll(HideAll(s, c.username), c.password)
  }

  /** After the corrected redaction neither non-empty secret occurs in the text, provided neither
      contains the mask character; a text naming neither secret is left as it is. */
  lemma RedactAllHides(s: string, c: Credentials)
    requires '*' !in c.username && '*' !in c.password
    ensures c.username != [] ==> Absent(RedactSecretsAll(s, c), c.username)
    ensures c.password != [] ==> Absent(RedactSecretsAll(s, c), c.password)
    ensures Absent(s, c.username) && Absent(s, c.password) && c.username != [] && c.password != [] ==>
      RedactSecretsAll(s, c) == s
  {
    var u, p := c.username, c.password;
    var once := HideAll(s, u);
    if u != [] {
      MaskedAbsent(s, u, u);
      if p != [] {
        MaskedAbsent(once, p, p);
        MaskedAbsent(once, p, u);
      }
    } else if p != [] {
      MaskedAbsent(s, p, p);
    }
    if Absent(s, u) && Absent(s, p) && u != [] && p != [] {
      ReplaceAllAbsent(s, u, "***");
      ReplaceAllAbsent(s, p, "***");
    }
  }

  // ---------------------------------------------------------------- runOne

  /** What the process run yields. Exited: the process ended with status 0, with its output
      streams. Rejected: `execFile` rejected (non-zero exit, spawn failure, output beyond
      maxBuffer), with the error's `cmd`, `stderr` and `message` properties, "" when absent. */
  datatype ProcessOutcome =
    | Exited(stdout: string, stderr: string)
    | Rejected(cmd: string, errStderr: string, message: string)

  /** `/NT_STATUS|Error|failed/i.test(stderr)`. */
  predicate HasErrorSignature(stderr: string) {
    ContainsIgnoreCase(stderr, "NT_STATUS") || ContainsIgnoreCase(stderr, "Error")
    || ContainsIgnoreCase(stderr, "failed")
  }

  /** The message of the NodeOperationError thrown in the catch block (its closing quote is
      missing in the source, and so it is here). */
  function FailureMessage(safeCmd: string, detail: string): string {
    "smbclient failed. cmd=\"" + safeCmd + "\" stderr=\"" + detail
  }

  /** The redacted command line. */
  function SafeCommand(c: Credentials, line: string): string {
    RedactSecrets(RedactCmd(line), c)
  }

  /** `runOne`. A clean exit yields stdout; an exit whose non-empty stderr carries an error
      signature throws inside the try, and the catch re-wraps that error's message; a rejected
      run reports its trimmed stderr, else its message, else a fixed text. */
  function RunOne(c: Credentials, clientPath: string, cmd: string, outcome: ProcessOutcome): (r: Result<string, string>)
    ensures outcome.Exited? ==> (r.Ok? <==> !(outcome.stderr != "" && HasErrorSignature(outcome.stderr)))
    ensures r.Ok? ==> outcome.Exited? && r.value == outcome.stdout
    ensures r.Err? && outcome.Exited? ==>
      r.error == FailureMessage(SafeCommand(c, CommandLine(clientPath, RunArgs(c, cmd))),
                                RedactSecrets(FailureMessage(SafeCommand(c, CommandLine(clientPath, RunArgs(c, cmd))), Trim(outcome.stderr)) + "\"", c))
    ensures outcome.Rejected? ==>
      r.error == FailureMessage(SafeCommand(c, if outcome.cmd != "" then outcome.cmd else CommandLine(clientPath, RunArgs(c, cmd))),
                                RedactSecrets(if Trim(outcome.errStderr) != "" then Trim(outcome.errStderr)
                                              else if outcome.message != "" then outcome.message
                                              else "smbclient command failed", c))
  {
    var line := CommandLine(clientPath, RunArgs(c, cmd));
    match outcome
    case Exited(out, err) =>
      if err != "" && HasErrorSignature(err) then
        var safe := SafeCommand(c, line);
        var thrown := FailureMessage(safe, Trim(err)) + "\"";
        Err(FailureMessage(safe, RedactSecrets(thrown, c)))
      else Ok(out)
    case Rejected(errCmd, errStderr, message) =>
      var safe := SafeCommand(c, if errCmd != "" then errCmd else line);
      var detail := if Trim(errStderr) != "" then Trim(errStderr)
                    else if message != "" then message
                    else "smbclient command failed";
      Err(FailureMessage(safe, RedactSecrets(detail, c)))
  }

  // ---------------------------------------------------------------- getReadableError

  /** One entry of the hint table: a case-insensitive pattern, given as its alternatives, and
      the friendly text put in front of the message. */
  datatype Hint = Hint(alternatives: seq<string>, friendly: string)

  predicate HintMatches(h: Hint, msg: string) {
    exists k :: 0 <= k < |h.alternatives| && ContainsIgnoreCase(msg, h.alternatives[k])
  }

  /** SMB_ERROR_HINTS as written; each pattern is a literal with the i flag. */
  function SmbErrorHints(): seq<Hint> {
    [ Hint(["EACCES"], "Access Denied - Check your permissions for this file/folder"),
      Hint(["ENOENT"], "File/Path Not Found"),
      Hint(["ENOTDIR"], "Not a directory"),
      Hint(["ETIMEOUT"], "Connection timed out"),
      Hint(["ECONNREFUSED"], "Could not connect to SMB server - Connection refused"),
      Hint(["LOGON failure"], "Logon Failure - Check your username, password, and domain"),
      Hint(["bad network name"], "Bad Network Name - The specified share does not exist on the server") ]
  }

  /** The same table with the logon and network-name patterns also accepting the underscores
      that smbclient's status names use. */
  function CorrectedErrorHints(): seq<Hint> {
    SmbErrorHints()[5 := Hint(["LOGON failure", "LOGON_failure"], SmbErrorHints()[5].friendly)]
                   [6 := Hint(["bad network name", "bad_network_name"], SmbErrorHints()[6].friendly)]
  }

  /** No hint of the table matches. */
  predicate NoHint(hints: seq<Hint>, msg: string) {
    forall i :: 0 <= i < |hints| ==> !HintMatches(hints[i], msg)
  }

  /** Hint i is the first that matches. */
  predicate FirstHint(hints: seq<Hint>, msg: string, i: nat) {
    i < |hints| && HintMatches(hints[i], msg) && forall j :: 0 <= j < i ==> !HintMatches(hints[j], msg)
  }

  /** `getReadableError` over a hint table: the first matching hint's text followed by the
      message in parentheses, or the message unchanged when no hint matches. */
  function ReadableError(hints: seq<Hint>, msg: string): (r: string)
    ensures NoHint(hints, msg) ==> r == msg
    ensures forall i: nat :: FirstHint(hints, msg, i) ==> r == hints[i].friendly + " (" + msg + ")"
  {
    if hints == [] then msg
    else if HintMatches(hints[0], msg) then hints[0].friendly + " (" + msg + ")"
    else
      var r := ReadableError(hints[1..], msg);
      assert forall i :: 1 <= i < |hints| ==> hints[i] == hints[1..][i - 1];
      r
  }

  /** The status string smbclient prints when the server refuses the credentials. */
  const LogonStatus := "NT_STATUS_LOGON_FAILURE"

  // Solver helpers for the lemmas below: the status matches none of the other hint patterns.
  // Each names a letter of the pattern absent from the status, or a position at which it fails.

  lemma LogonStatusNotEacces() ensures !ContainsIgnoreCase(LogonStatus, "EACCES") {
    NoMatchWithout(LogonStatus, "EACCES", 2);
  }

  lemma LogonStatusNotEnoent() ensures !ContainsIgnoreCase(LogonStatus, "ENOENT") {
    NoMatchWithout(LogonStatus, "ENOENT", 0);
  }

  lemma LogonStatusNotEnotdir() ensures !ContainsIgnoreCase(LogonStatus, "ENOTDIR") {
    NoMatchWithout(LogonStatus, "ENOTDIR", 4);
  }

  lemma LogonStatusNotEtimeout() ensures !ContainsIgnoreCase(LogonStatus, "ETIMEOUT") {
    NoMatchWithout(LogonStatus, "ETIMEOUT", 3);
  }

  lemma LogonStatusNotEconnrefused() ensures !ContainsIgnoreCase(LogonStatus, "ECONNREFUSED") {
    NoMatchWithout(LogonStatus, "ECONNREFUSED", 1);
  }

  lemma LogonStatusNotLogonSpace() ensures !ContainsIgnoreCase(LogonStatus, "LOGON failure") {
    NoMatchWithout(LogonStatus, "LOGON failure", 5);
  }

  lemma LogonStatusUnderscore() ensures ContainsIgnoreCase(LogonStatus, "LOGON_failure") {
    assert MatchesAt(LogonStatus, "LOGON_failure", 10);
  }

  lemma CorrectedHintsShape()
    ensures |CorrectedErrorHints()| == 7 && CorrectedErrorHints()[..5] == SmbErrorHints()[..5]
    ensures CorrectedErrorHints()[5].alternatives == ["LOGON failure", "LOGON_failure"]
    ensures CorrectedErrorHints()[5].friendly == "Logon Failure - Check your username, password, and domain"
    ensures CorrectedErrorHints()[6].alternatives == ["bad network name", "bad_network_name"]
    ensures CorrectedErrorHints()[6].friendly == "Bad Network Name - The specified share does not exist on the server"
  {
  }

  lemma LogonStatusNotBadName() ensures !ContainsIgnoreCase(LogonStatus, "bad network name") {
    NoMatchWithout(LogonStatus, "bad network name", 0);
  }

  /** The five errno hints that precede the logon hint in both tables do not match the status. */
  lemma LogonStatusNoErrno(h: seq<Hint>)
    requires |h| >= 5 && h[..5] == SmbErrorHints()[..5]
    ensures forall j :: 0 <= j < 5 ==> !HintMatches(h[j], LogonStatus)
  {
    LogonStatusNotEacces();
    LogonStatusNotEnoent();
    LogonStatusNotEnotdir();
    LogonStatusNotEtimeout();
    LogonStatusNotEconnrefused();
    assert h[0] == SmbErrorHints()[0] && h[1] == SmbErrorHints()[1] && h[2] == SmbErrorHints()[2];
    assert h[3] == SmbErrorHints()[3] && h[4] == SmbErrorHints()[4];
  }

  /** The status string smbclient prints for a bad logon gets no hint from the table as written:
      its pattern has a space where the status has an underscore. */
  lemma LogonFailureMissed()
    ensures ReadableError(SmbErrorHints(), LogonStatus) == LogonStatus
  {
    var h := SmbErrorHints();
    LogonStatusNoErrno(h);
    LogonStatusNotLogonSpace();
    LogonStatusNotBadName();
    assert NoHint(h, LogonStatus);
  }

  /** With the corrected table the same status gets the logon hint. */
  lemma LogonFailureHinted()
    ensures ReadableError(CorrectedErrorHints(), LogonStatus)
         == "Logon Failure - Check your username, password, and domain" + " (" + LogonStatus + ")"
  {
    var h := CorrectedErrorHints();
    CorrectedHintsShape();
    LogonStatusNoErrno(h);
    LogonStatusUnderscore();
    assert HintMatches(h[5], LogonStatus) by { assert h[5].alternatives[1] == "LOGON_failure"; }
    assert FirstHint(h, LogonStatus, 5);
  }

  /** The status string smbclient prints when the share does not exist. */
  const BadNameStatus := "NT_STATUS_BAD_NETWORK_NAME"

  // Solver helpers for the lemmas below, as for the logon status.

  lemma BadNameNotEacces() ensures !ContainsIgnoreCase(BadNameStatus, "EACCES") {
    NoMatchAbsent(BadNameStatus, "EACCES", 2);
  }

  /** Each letter of `ENOENT` occurs in the status, but an `E` is never followed by an `N`. */
  lemma BadNameNotEnoent() ensures !ContainsIgnoreCase(BadNameStatus, "ENOENT") {
    NoMatchWithoutPair(BadNameStatus, "ENOENT", 0, 1);
  }

  lemma BadNameNotEnotdir() ensures !ContainsIgnoreCase(BadNameStatus, "ENOTDIR") {
    NoMatchAbsent(BadNameStatus, "ENOTDIR", 5);
  }

  lemma BadNameNotEtimeout() ensures !ContainsIgnoreCase(BadNameStatus, "ETIMEOUT") {
    NoMatchAbsent(BadNameStatus, "ETIMEOUT", 2);
  }

  lemma BadNameNotEconnrefused() ensures !ContainsIgnoreCase(BadNameStatus, "ECONNREFUSED") {
    NoMatchAbsent(BadNameStatus, "ECONNREFUSED", 1);
  }

  lemma BadNameNotLogon() ensures !ContainsIgnoreCase(BadNameStatus, "LOGON failure") {
    NoMatchAbsent(BadNameStatus, "LOGON failure", 5);
  }

  lemma BadNameNotLogonUnderscore() ensures !ContainsIgnoreCase(BadNameStatus, "LOGON_failure") {
    NoMatchAbsent(BadNameStatus, "LOGON_failure", 0);
  }

  lemma BadNameNotSpaced() ensures !ContainsIgnoreCase(BadNameStatus, "bad network name") {
    NoMatchAbsent(BadNameStatus, "bad network name", 3);
  }

  lemma BadNameUnderscore() ensures ContainsIgnoreCase(BadNameStatus, "bad_network_name") {
    assert MatchesAt(BadNameStatus, "bad_network_name", 10);
  }

  /** The five errno hints that precede the logon hint in both tables do not match the status. */
  lemma BadNameNoErrno(h: seq<Hint>)
    requires |h| >= 5 && h[..5] == SmbErrorHints()[..5]
    ensures forall j :: 0 <= j < 5 ==> !HintMatches(h[j], BadNameStatus)
  {
    BadNameNotEacces();
    BadNameNotEnoent();
    BadNameNotEnotdir();
    BadNameNotEtimeout();
    BadNameNotEconnrefused();
    assert h[0] == SmbErrorHints()[0] && h[1] == SmbErrorHints()[1] && h[2] == SmbErrorHints()[2];
    assert h[3] == SmbErrorHints()[3] && h[4] == SmbErrorHints()[4];
  }

  /** The status string smbclient prints for a missing share gets no hint from the table as
      written: its pattern has spaces where the status has underscores. */
  lemma BadNameMissed()
    ensures ReadableError(SmbErrorHints(), BadNameStatus) == BadNameStatus
  {
    var h := SmbErrorHints();
    BadNameNoErrno(h);
    BadNameNotLogon();
    BadNameNotSpaced();
    assert NoHint(h, BadNameStatus);
  }

  /** With the corrected table the same status gets the network-name hint. */
  lemma BadNameHinted()
    ensures ReadableError(CorrectedErrorHints(), BadNameStatus)
         == "Bad Network Name - The specified share does not exist on the server" + " (" + BadNameStatus + ")"
  {
    var h := CorrectedErrorHints();
    CorrectedHintsShape();
    BadNameNoErrno(h);
    BadNameNotLogon();
    BadNameNotLogonUnderscore();
    BadNameUnderscore();
    assert !HintMatches(h[5], BadNameStatus);
    assert HintMatches(h[6], BadNameStatus) by { assert h[6].alternatives[1] == "bad_network_name"; }
    assert FirstHint(h, BadNameStatus, 6);
  }
}
