# n8n-nodes-smbclient: a verified model of the SMB node's core

The n8n SMB node runs the `smbclient` command-line program once per operation. It talks to an
SMB share and turns what the program prints into n8n items. This project models that core in
Dafny and proves properties of the model:

- **Runner** (`runner.dfy`): `SmbClientWrapper.runOne`, with its parts:
  - `buildBaseArgs`: the share address, the `-U` user specifier and `-g`.
  - The test on stderr that turns a clean exit into a failure.
  - The redaction of the failure message: `redactCmd`'s three global regular expressions, then the first occurrence of the username and of the password.
  - The `SMB_ERROR_HINTS` table read by `getReadableError`.
- **Metadata** (`metadata.dfy`): `SmbClientWrapper.stat`. The `allinfo` output is read line by line into a `KEY|VALUE` table. This is an imperative `for` loop, proved against a fold over the lines. The metadata record is then taken from the table.
- **Listing** (`listing.dfy`): `SmbClientWrapper.list`. The output of `ls` is cut into trimmed non-blank lines. Each line is classified as a pipe-delimited row, a space-aligned row read from the right, or a fallback. The footer and navigation entries are then filtered out.
- **Client** (`client.dfy`): the wrapper's seven commands (`allinfo`, `ls`, `get`, `put`, `mkdir`, `rmdir`, `del`). Each one quotes its paths and runs once. The wrapper never changes its fields after construction, so it is a value.
- **EntryHelpers** (`handlers.dfy`): the `handlers` table of `SmbEntryHelpers.ts`:
  - Parameter defaults.
  - The second list filter.
  - `get`'s output naming, using POSIX `path.basename`.
  - The binary-property check of `put`.
  - The fixed confirmations.
- **Smb2Node** (`node.dfy`): `Smb2.execute` together with `buildClient`. This is an imperative method that:
  - rejects an unsupported operation before reading anything;
  - builds one client;
  - runs the handler on each item in order and stops at the first failure;
  - closes the client exactly once, as the last step.
- **SmbTypes** (`types.dfy`): the records of `interfaces.ts`.
- **Text** (`text.dfy`): the JavaScript string operations the core relies on: `trim`, `split` with a one-character separator, `join`, `replace` with a string pattern, `indexOf`, `/literal/i` tests, `\s+` collapsing, `/^\d+$/` and `String(n)`.
- **Sequences** (`sequences.dfy`): `Array.prototype.filter`.

The process run is not performed. What `execFile` yields is an input of type
`Runner.ProcessOutcome`:

- **Exited**: a clean exit, with stdout and stderr.
- **Rejected**: a rejection, with the error's `cmd`, `stderr` and `message`.

`execute` is generic over its handler. It is specified by the function `Smb2Node.Completed` of the handlers' results and proved against it. The node's own handlers are instantiated as `Smb2Node.NodeHandler`.

Where the code and its documented intent differ, the model follows the code:

- **The attribute-first row is never recognised.** The second pipe branch (`attr|size|date|time|name`, SmbClientWrapper.ts:147-163) tests exactly the same guard as the first. It is therefore never taken. A row such as `D|0|2024-01-01|10:00|mydir` is read name-first: name `D`, attributes `mydir`, not a directory (`Listing.ExampleAttrFirstRow`).
- **Only the first occurrence of a secret is redacted.** `.replace(username, '***')` takes a string pattern, so later occurrences stay visible (`Runner.RedactSecretsFirstOnly`). This is recorded under Findings; `Runner.RunOne` keeps the redaction as written. An empty username, as for the anonymous user, puts `***` in front of the text (`Runner.RedactEmptySecret`).
- **A clean-exit error is wrapped twice.** The error thrown on a clean exit whose stderr carries an error signature is raised inside the `try`. The `catch` therefore wraps it again, and the catch's message lacks its closing quote (`Runner.RunOne`).
- **Two credential fields are dropped.** `buildClient` passes only host, username, password, domain and share, so `port` and `maxProtocol` never reach the client (`Smb2Node.ClientOf`).
- **The handler's second list filter has no effect.** The filter in `handleList` is weaker than the one `list` already applies, so it removes nothing (`EntryHelpers.HandleFilterRemovesNothing`).

## Model

| member | source | states |
|---|---|---|
| SmbTypes.SizeOf | nodes/Smb2/SmbClientWrapper.ts:130-132 | a size field has a numeric value exactly when it is a non-empty string of decimal digits; any other text is kept as read |
| SmbTypes.SizeOfNumeral | nodes/Smb2/SmbClientWrapper.ts:130-132 | the decimal rendering of any number reads back as that number |
| SmbTypes.OperationFrom | nodes/Smb2/interfaces.ts:33 | an identifier yields an operation exactly when it is one of the seven operation names, and then that operation's name is the identifier |
| SmbTypes.OperationRoundTrip | nodes/Smb2/interfaces.ts:33 | every operation's name is looked up back to that operation |
| Runner.UserPartRoundTrip | nodes/Smb2/SmbClientWrapper.ts:56-64 | smbclient reads back nothing from the anonymous `%`, and exactly the domain (when truthy), username and password otherwise, for names without `/`, `%`, `\` or `@` |
| Runner.UserPart | nodes/Smb2/SmbClientWrapper.ts:56-64 | no contract of its own; `Runner.UserPartRoundTrip` and `Runner.BuildBaseArgs` state what smbclient reads back from it |
| Runner.BuildBaseArgs | nodes/Smb2/SmbClientWrapper.ts:53-67 | four arguments: `\\host\share`, `-U`, the user specifier and `-g`; the specifier is `%` without a username, else `domain/` (when the domain is non-empty), the username, `%` and the password; smbclient recovers the credentials from it |
| Runner.RunArgs | nodes/Smb2/SmbClientWrapper.ts:70 | the base arguments followed by `-c` and the command, nothing else |
| Runner.MatchLength | nodes/Smb2/SmbClientWrapper.ts:38-40 | a match of each of the three patterns is at least four characters long and begins with `-` or `/` |
| Runner.ReplaceMatches | nodes/Smb2/SmbClientWrapper.ts:38-40 | a global replacement leaves a string with no match of its pattern unchanged |
| Runner.RedactCmd | nodes/Smb2/SmbClientWrapper.ts:36-42 | a command line that none of the three patterns matches comes back unchanged |
| Runner.RedactCmdPlain | nodes/Smb2/SmbClientWrapper.ts:36-42 | a string without `-` or `/` is never touched by the redaction |
| Runner.RedactSecrets | nodes/Smb2/SmbClientWrapper.ts:79 | a text that contains neither the username nor the password comes back unchanged |
| Runner.SafeCommand | nodes/Smb2/SmbClientWrapper.ts:79 | no contract of its own; redacts the three patterns, then the secrets, as `Runner.RedactCmd` and `Runner.RedactSecrets` state; `Runner.RunOne` states where it is used |
| Runner.RedactSecretsFirstOnly | nodes/Smb2/SmbClientWrapper.ts:79 | a text `u mid u` naming the username twice redacts to `*** mid u`, so the second occurrence stays visible (with username `smb`, the first occurrence is inside `smbclient`) |
| Runner.RedactEmptySecret | nodes/Smb2/SmbClientWrapper.ts:88-89 | replacing an empty secret puts `***` in front of the text |
| Runner.RedactAllHides | nodes/Smb2/SmbClientWrapper.ts:79 | with every occurrence of each non-empty secret replaced, neither secret occurs in the result when neither contains `*`; a text naming neither is unchanged |
| Runner.HasErrorSignature | nodes/Smb2/SmbClientWrapper.ts:77 | no contract of its own; `Runner.RunOne` states that a clean exit fails exactly when stderr is non-empty and carries `NT_STATUS`, `Error` or `failed` in any case |
| Runner.FailureMessage | nodes/Smb2/SmbClientWrapper.ts:88-92 | no contract of its own; the message shape `smbclient failed. cmd="…" stderr="…`, without the closing quote, used by `Runner.RunOne` |
| Runner.RunOne | nodes/Smb2/SmbClientWrapper.ts:69-95 | a clean exit succeeds with stdout exactly when stderr is empty or has no `NT_STATUS`/`Error`/`failed` signature; success only on a clean exit; the clean-exit failure message is the redacted re-wrap of the first message; a rejected run fails with the command (the error's `cmd`, else the command line) redacted, and the detail redacted: the trimmed stderr, else the error's message, else `smbclient command failed` |
| Runner.ReadableError | nodes/Smb2/SmbClientWrapper.ts:24-32 | the first matching hint's text followed by the message in parentheses, or the message unchanged when no hint matches |
| Runner.SmbErrorHints | nodes/Smb2/SmbClientWrapper.ts:13-22 | no contract of its own; the seven hints in order, which `Runner.CorrectedHintsShape`, `Runner.LogonFailureMissed` and `Runner.BadNameMissed` describe |
| Runner.CorrectedHintsShape | nodes/Smb2/SmbClientWrapper.ts:13-22 | the corrected table keeps the five errno hints and all seven friendly texts, and adds the underscore spellings to the logon and network-name patterns |
| Runner.LogonStatusNoErrno | nodes/Smb2/SmbClientWrapper.ts:14-18 | none of the five errno hints matches `NT_STATUS_LOGON_FAILURE` |
| Runner.LogonFailureMissed | nodes/Smb2/SmbClientWrapper.ts:19 | with the table as written, `NT_STATUS_LOGON_FAILURE` gets no hint |
| Runner.LogonFailureHinted | nodes/Smb2/SmbClientWrapper.ts:19 | with the corrected table, `NT_STATUS_LOGON_FAILURE` gets the logon hint |
| Runner.BadNameNoErrno | nodes/Smb2/SmbClientWrapper.ts:14-18 | none of the five errno hints matches `NT_STATUS_BAD_NETWORK_NAME` |
| Runner.BadNameMissed | nodes/Smb2/SmbClientWrapper.ts:20 | with the table as written, `NT_STATUS_BAD_NETWORK_NAME` gets no hint |
| Runner.BadNameHinted | nodes/Smb2/SmbClientWrapper.ts:20 | with the corrected table, `NT_STATUS_BAD_NETWORK_NAME` gets the network-name hint |
| Metadata.ToUpper | nodes/Smb2/SmbClientWrapper.ts:102 | the same length, each ASCII letter upper-cased and every other character kept |
| Metadata.PairOf | nodes/Smb2/SmbClientWrapper.ts:101-102 | no contract of its own; `Metadata.PairOfSome`, `Metadata.PairOfLine` and `Metadata.PairOfPlain` state which lines store which pair |
| Metadata.InfoOf | nodes/Smb2/SmbClientWrapper.ts:99-103 | no contract of its own; `Metadata.TableKeys` and `Metadata.TableLast` state which keys and values the table holds |
| Metadata.StatOf | nodes/Smb2/SmbClientWrapper.ts:97-114 | no contract of its own; `Metadata.ParseStat` and `Metadata.StatOfLines` state that it reads the output line by line into the table and takes the record from it |
| Metadata.PairOfSome | nodes/Smb2/SmbClientWrapper.ts:101-102 | a line stores a pair exactly when it has a `|` after a non-empty first piece |
| Metadata.PairOfLine | nodes/Smb2/SmbClientWrapper.ts:101-102 | a key and a value separated by a bar, with any further bar-separated fields, store the trimmed upper-cased key with the trimmed value |
| Metadata.PairOfPlain | nodes/Smb2/SmbClientWrapper.ts:101-102 | an already trimmed upper-case key and a trimmed value are stored as written |
| Metadata.TableKeys | nodes/Smb2/SmbClientWrapper.ts:99-103 | the table holds exactly the keys some line stores a pair under |
| Metadata.TableLast | nodes/Smb2/SmbClientWrapper.ts:99-103 | each key holds the value of the last line stored under it |
| Metadata.StatFromInfo | nodes/Smb2/SmbClientWrapper.ts:104-113 | a directory exactly when `D` is an attribute; the attributes are ATTRIBUTES's characters or none; a size exactly when SIZE is non-empty; the four times as stored |
| Metadata.ParseStat | nodes/Smb2/SmbClientWrapper.ts:97-114 | the loop over the output's lines yields the record of the table folded from those lines |
| Metadata.StatOfLines | nodes/Smb2/SmbClientWrapper.ts:100 | an output written as lines without line breaks is read as exactly those lines |
| Metadata.ExampleInfo | nodes/Smb2/SmbClientWrapper.ts:99-103 | after the lines SIZE 7, SIZE 42 and ATTRIBUTES DA (each pair separated by a bar) the table holds SIZE 42 and ATTRIBUTES DA |
| Metadata.StatExample | nodes/Smb2/SmbClientWrapper.ts:97-114 | the same output yields size 42, attributes `DA` and a directory |
| Listing.ParsePipeRow | nodes/Smb2/SmbClientWrapper.ts:126-145 | a directory exactly when `D` is an attribute; a date exactly when there are five fields and the second is all digits, and then a numeric size and a time; otherwise the whole-line fallback |
| Listing.ParseColumnsRow | nodes/Smb2/SmbClientWrapper.ts:174-202 | a directory exactly when `D` is an attribute; a date exactly when there are at least eight words, and then a time; otherwise the whole-line fallback |
| Listing.ParseLine | nodes/Smb2/SmbClientWrapper.ts:124-211 | a directory exactly when `D` is an attribute; a date exactly when a time; without a date, the whole line as name, size 0, no attributes, not a directory |
| Listing.ParseLineFallback | nodes/Smb2/SmbClientWrapper.ts:124-211 | a line becomes the whole-line fallback exactly when it fits neither layout, and exactly then has no date |
| Listing.PipeRowRoundTrip | nodes/Smb2/SmbClientWrapper.ts:126-145 | a row of name, size, date, time and attributes separated by bars, with any further fields, is read back field by field, the size as its value |
| Listing.ExampleAttrFirstRow | nodes/Smb2/SmbClientWrapper.ts:147-163 | the attribute-first row D, 0, 2024-01-01, 10:00, mydir (separated by bars) is read name-first and is not a directory |
| Listing.ColumnsRowOfTokens | nodes/Smb2/SmbClientWrapper.ts:177-202 | a line without a bar and with at least eight words is read from its words |
| Listing.ColumnsRowRoundTrip | nodes/Smb2/SmbClientWrapper.ts:174-202 | words separated by any white-space runs read back as name, attributes, size and five-word date with the time, whatever the gap widths |
| Listing.ExampleWordsShape | nodes/Smb2/SmbClientWrapper.ts:176 | the example row of the comment has eleven words, the first four forming the name, the sixth the size 2058 |
| Listing.ExampleColumnsRow | nodes/Smb2/SmbClientWrapper.ts:175-176 | the example row, with any gap widths, is the file `11100 MY FILE_NAME R-1234.pdf` of size 2058 with attribute `A` |
| Listing.NonBlank | nodes/Smb2/SmbClientWrapper.ts:121-122 | every line kept is non-empty and trimmed |
| Listing.NonBlankConcat | nodes/Smb2/SmbClientWrapper.ts:121-122 | trimming and dropping blanks works line by line |
| Listing.NonBlankKeeps | nodes/Smb2/SmbClientWrapper.ts:121-122 | lines already trimmed and non-empty are all kept, unchanged |
| Listing.NonBlankLines | nodes/Smb2/SmbClientWrapper.ts:119-122 | every line produced is non-empty and trimmed |
| Listing.NonBlankLinesJoin | nodes/Smb2/SmbClientWrapper.ts:119-122 | trimmed lines without line breaks, joined by line breaks, come back as written |
| Listing.NonBlankLinesConcat | nodes/Smb2/SmbClientWrapper.ts:119-122 | two outputs joined by a line break yield the lines of the first, then those of the second |
| Listing.ParseLines | nodes/Smb2/SmbClientWrapper.ts:124 | exactly one entry per line, in order |
| Listing.ParseLinesConcat | nodes/Smb2/SmbClientWrapper.ts:124 | classifying is line by line |
| Listing.ParseListing | nodes/Smb2/SmbClientWrapper.ts:119-211 | one entry per non-blank line, the i-th from the i-th line |
| Listing.ParseListingConcat | nodes/Smb2/SmbClientWrapper.ts:119-211 | parsing two outputs joined by a line break parses each in turn |
| Listing.Keep | nodes/Smb2/SmbClientWrapper.ts:213-230 | no contract of its own; `Listing.ListFilter`, `Listing.FooterDropped`, `Listing.FooterDate` and `Listing.DotDropped` state what it keeps and drops |
| Listing.ListFilter | nodes/Smb2/SmbClientWrapper.ts:213-230 | an entry is kept exactly when it is one of the input's and passes the filter |
| Listing.ListFilterConcat | nodes/Smb2/SmbClientWrapper.ts:213-230 | filtering works entry by entry, keeping order |
| Listing.ListFilterIdempotent | nodes/Smb2/SmbClientWrapper.ts:213-230 | filtering twice is filtering once |
| Listing.List | nodes/Smb2/SmbClientWrapper.ts:116-231 | exactly the parsed entries that pass the filter, at most one per non-blank line |
| Listing.ListConcat | nodes/Smb2/SmbClientWrapper.ts:116-231 | listing two outputs joined by a line break lists each in turn |
| Listing.FooterDropped | nodes/Smb2/SmbClientWrapper.ts:219-222 | the footer `N blocks of size S. M blocks available` is dropped whatever its numbers and gaps |
| Listing.FooterDate | nodes/Smb2/SmbClientWrapper.ts:220 | a date ending in `blocks available` matches the footer test |
| Listing.DotDropped | nodes/Smb2/SmbClientWrapper.ts:216-217 | an eight-word row named `.` is dropped |
| Sequences.Filter | nodes/Smb2/SmbClientWrapper.ts:213 | exactly the elements satisfying the predicate, in order |
| Sequences.FilterConcat | nodes/Smb2/SmbClientWrapper.ts:213 | filtering a concatenation filters each part |
| Sequences.FilterIdempotent | nodes/Smb2/SmbClientWrapper.ts:213 | filtering twice by the same predicate is filtering once |
| Text.TrimStart | nodes/Smb2/SmbClientWrapper.ts:121 | no longer than the input and not starting with white space |
| Text.TrimEnd | nodes/Smb2/SmbClientWrapper.ts:121 | no longer than the input and not ending with white space |
| Text.Trim | nodes/Smb2/SmbClientWrapper.ts:121 | no longer than the input and neither starting nor ending with white space |
| Text.TrimShape | nodes/Smb2/SmbClientWrapper.ts:121 | the trim is the part of the input between a white-space prefix and a white-space suffix |
| Text.TrimKeeps | nodes/Smb2/SmbClientWrapper.ts:121 | a string not starting or ending with white space is its own trim |
| Text.Split | nodes/Smb2/SmbClientWrapper.ts:100 | at least one piece, none holding the separator, and joining them gives the input back |
| Text.SplitJoin | nodes/Smb2/SmbClientWrapper.ts:101 | splitting undoes joining when no piece holds the separator |
| Text.JoinInjective | nodes/Smb2/SmbClientWrapper.ts:101 | joining pieces free of the separator loses nothing |
| Text.SplitConcat | nodes/Smb2/SmbClientWrapper.ts:120 | splitting at a separator between two texts splits each on its own |
| Text.CollapseInterleave | nodes/Smb2/SmbClientWrapper.ts:177 | words with any white-space gaps collapse to the words joined by single spaces |
| Text.TokensInterleave | nodes/Smb2/SmbClientWrapper.ts:177-178 | tokenising words with any white-space gaps gives back exactly the words |
| Text.NatToString | nodes/Smb2/SmbEntryHelpers.ts:86 | the rendering of a number is all digits and reads back as that number |
| Text.IndexOf | nodes/Smb2/SmbClientWrapper.ts:79 | the least position where the pattern occurs, or none when it occurs nowhere |
| Text.ReplaceFirst | nodes/Smb2/SmbClientWrapper.ts:79 | only the first occurrence is replaced; a text without one is unchanged |
| Text.MaskedAbsent | nodes/Smb2/SmbClientWrapper.ts:79 | replacing every occurrence of a pattern with `***` leaves no occurrence of it, and makes none of a text without `*` that was absent |
| Text.MaskedPrefix | nodes/Smb2/SmbClientWrapper.ts:79 | a prefix of the masked text that holds no `*` is the same prefix of the original |
| Text.ReplaceAllAbsent | nodes/Smb2/SmbClientWrapper.ts:79 | replacing every occurrence of an absent pattern changes nothing |
| Client.Quote | nodes/Smb2/SmbClientWrapper.ts:234-252 | no contract of its own; `Client.OnePathCommand` and `Client.TwoPathCommand` state that the path is read back between the quotes |
| Client.StatCommand | nodes/Smb2/SmbClientWrapper.ts:98 | no contract of its own; `Client.CommandPaths` states that cutting it at its quotes gives `allinfo ` and the path |
| Client.ListCommand | nodes/Smb2/SmbClientWrapper.ts:117 | no contract of its own; `Client.CommandPaths` states that cutting it at its quotes gives `ls ` and the directory |
| Client.GetCommand | nodes/Smb2/SmbClientWrapper.ts:235 | no contract of its own; `Client.CommandPaths` states that cutting it at its quotes gives `get `, the remote path and the local path |
| Client.PutCommand | nodes/Smb2/SmbClientWrapper.ts:239 | no contract of its own; `Client.CommandPaths` states that cutting it at its quotes gives `put `, the local path and the remote path |
| Client.MkdirCommand | nodes/Smb2/SmbClientWrapper.ts:243 | no contract of its own; `Client.CommandPaths` states that cutting it at its quotes gives `mkdir ` and the directory |
| Client.RmdirCommand | nodes/Smb2/SmbClientWrapper.ts:247 | no contract of its own; `Client.CommandPaths` states that cutting it at its quotes gives `rmdir ` and the directory |
| Client.DelCommand | nodes/Smb2/SmbClientWrapper.ts:251 | no contract of its own; `Client.CommandPaths` states that cutting it at its quotes gives `del ` and the path |
| Client.OnePathCommand | nodes/Smb2/SmbClientWrapper.ts:242-252 | cutting a one-path command at its quotes gives back the verb and the path |
| Client.TwoPathCommand | nodes/Smb2/SmbClientWrapper.ts:234-240 | cutting a two-path command at its quotes gives back the verb and both paths |
| Client.CommandPaths | nodes/Smb2/SmbClientWrapper.ts:234-252 | each of the seven commands gives back its paths, for paths without quotes |
| Client.Stat | nodes/Smb2/SmbClientWrapper.ts:97-114 | succeeds exactly when the `allinfo` run does, with the metadata read from its output, else fails with the run's message |
| Client.List | nodes/Smb2/SmbClientWrapper.ts:116-231 | succeeds exactly when the `ls` run does, with the filtered entries read from its output, else fails with the run's message |
| Client.Perform | nodes/Smb2/SmbClientWrapper.ts:234-252 | `get`, `put`, `mkdir`, `rmdir` and `del` succeed exactly when their run does, else fail with its message |
| Client.CleanRunSucceeds | nodes/Smb2/SmbClientWrapper.ts:77-84 | a clean exit with empty stderr succeeds with its stdout, whatever the command |
| EntryHelpers.Param | nodes/Smb2/SmbEntryHelpers.ts:11-12 | a parameter's value when set, else the default |
| EntryHelpers.StripTrailingSlashes | nodes/Smb2/SmbEntryHelpers.ts:66 | a prefix of the path, not ending in `/`, and everything after it is `/` |
| EntryHelpers.AfterLastSlash | nodes/Smb2/SmbEntryHelpers.ts:66 | the longest suffix without `/`, preceded by `/` when shorter than the input |
| EntryHelpers.Basename | nodes/Smb2/SmbEntryHelpers.ts:66 | the basename holds no `/` |
| EntryHelpers.BasenameOfPath | nodes/Smb2/SmbEntryHelpers.ts:66 | the basename of `dir/name` with any number of trailing slashes is `name` |
| EntryHelpers.BasenameOfName | nodes/Smb2/SmbEntryHelpers.ts:66 | a bare name is its own basename |
| EntryHelpers.HandleListFilter | nodes/Smb2/SmbEntryHelpers.ts:52-59 | an entry is kept exactly when it is one of the input's and passes the handler's filter |
| EntryHelpers.HandleFilterDrops | nodes/Smb2/SmbEntryHelpers.ts:52-59 | `.`, `..`, all-digit names and dates carrying `blocks available` are dropped |
| EntryHelpers.HandleFilterRemovesNothing | nodes/Smb2/SmbEntryHelpers.ts:49-61 | the handler's filter removes nothing from what `list` returns |
| EntryHelpers.GetOptionsOf | nodes/Smb2/SmbEntryHelpers.ts:64-67 | property `data` and type `application/octet-stream` by default; the file name is `outFileName` when non-empty, else the remote path's basename |
| EntryHelpers.GetFileNameDefault | nodes/Smb2/SmbEntryHelpers.ts:66 | without an output file name, `get` names the file after the last segment of the remote path |
| EntryHelpers.MissingBinaryMessage | nodes/Smb2/SmbEntryHelpers.ts:86 | the missing-binary message is never empty |
| EntryHelpers.PutNeedsBinary | nodes/Smb2/SmbEntryHelpers.ts:82-87 | a binary `put` whose property is missing issues no command and fails with that message whatever the process would do |
| EntryHelpers.PutUploads | nodes/Smb2/SmbEntryHelpers.ts:77-99 | a text `put`, or a binary one whose property exists, uploads the temporary file to the remote path |
| EntryHelpers.HandleContract | nodes/Smb2/SmbEntryHelpers.ts:43-127 | a handler that issues a command succeeds exactly when its run does, with the handler's output, else fails with the run's message; every failure carries a message |
| EntryHelpers.RunErrorsCarryText | nodes/Smb2/SmbClientWrapper.ts:85-93 | a failed run always has a non-empty message |
| EntryHelpers.StatHandler | nodes/Smb2/SmbEntryHelpers.ts:43-47 | `stat` returns the remote path with the metadata read from the output |
| EntryHelpers.ListHandler | nodes/Smb2/SmbEntryHelpers.ts:49-61 | `list` returns the directory with exactly what the client's `list` returns |
| EntryHelpers.StatAndListHandlers | nodes/Smb2/SmbEntryHelpers.ts:43-61 | the `stat` and `list` handlers succeed exactly when the client's `stat` and `list` do, returning what those return |
| EntryHelpers.ListDefaultsToRoot | nodes/Smb2/SmbEntryHelpers.ts:50 | without a directory, `list` lists `/` |
| EntryHelpers.Confirmations | nodes/Smb2/SmbEntryHelpers.ts:98-116 | a successful `put`, `mkdir`, `rmdir` or `del` answers with its path and its fixed flag |
| EntryHelpers.CommandOf | nodes/Smb2/SmbEntryHelpers.ts:43-117 | no contract of its own; `EntryHelpers.StatAndListHandlers`, `EntryHelpers.PutNeedsBinary`, `EntryHelpers.PutUploads` and `EntryHelpers.ListDefaultsToRoot` state the command each handler issues |
| EntryHelpers.Success | nodes/Smb2/SmbEntryHelpers.ts:43-117 | no contract of its own; `EntryHelpers.StatHandler`, `EntryHelpers.ListHandler`, `EntryHelpers.GetOptionsOf` and `EntryHelpers.Confirmations` state what each handler returns |
| EntryHelpers.Handle | nodes/Smb2/SmbEntryHelpers.ts:119-127 | no contract of its own; `EntryHelpers.HandleContract` states that a handler succeeds exactly when its run does, else fails with its message |
| Smb2Node.ClientOf | nodes/Smb2/SmbEntryHelpers.ts:29-40 | the client is built exactly when the credentials are read, keeps host, share, domain, username and password, drops port and maxProtocol, and uses the given client path |
| Smb2Node.ClientPathOf | nodes/Smb2/SmbEntryHelpers.ts:30 | the client path defaults to `smbclient` |
| Smb2Node.NodeError | nodes/Smb2/Smb2.node.ts:176 | the thrown message is the handler's when non-empty, else `SMB operation failed` |
| Smb2Node.Results | nodes/Smb2/Smb2.node.ts:171-173 | one handler result per item, the i-th from the i-th item |
| Smb2Node.Completed | nodes/Smb2/Smb2.node.ts:169-182 | no contract of its own; `Smb2Node.CompletedWithoutFailure` and `Smb2Node.CompletedWithFailure` state its outcome and steps in both cases |
| Smb2Node.NodeHandler | nodes/Smb2/SmbEntryHelpers.ts:119-127 | no contract of its own; the table entry for each operation, which `Smb2Node.HandlerMessagesKept` uses |
| Smb2Node.CompletedWithoutFailure | nodes/Smb2/Smb2.node.ts:169-182 | when every handler succeeds, the outputs in order, all items invoked, then Close |
| Smb2Node.CompletedWithFailure | nodes/Smb2/Smb2.node.ts:171-180 | when item k is the first to fail, its message, items up to k invoked, then Close |
| Smb2Node.Execute | nodes/Smb2/Smb2.node.ts:159-183 | an unsupported operation fails before any step; a credentials failure fails after building with no Close; otherwise the results and steps of the item loop |
| Smb2Node.SucceedsIffAllSucceed | nodes/Smb2/Smb2.node.ts:169-182 | an execution succeeds exactly when every item's handler does, with one output per item in order |
| Smb2Node.StopsAtFirstFailure | nodes/Smb2/Smb2.node.ts:171-176 | a failed execution invokes handlers up to the first failing item and no further, and reports its message |
| Smb2Node.ClosesOnce | nodes/Smb2/Smb2.node.ts:177-180 | once the client is built it is closed exactly once, as the last step |
| Smb2Node.HandlerMessagesKept | nodes/Smb2/Smb2.node.ts:174-176 | with the node's handlers, a failed execution carries the message of a failing item, never the generic text |

## Left out

- Spawning `smbclient` through `execFile`, and its 10 MiB `maxBuffer`: the outcome of a run is an input.
- `connectToSmbServer`, the only caller of `getReadableError`: it needs the n8n credential store and logging. `getReadableError` itself is modelled over a hint table.
- Temporary files: their names are built from the clock and a random UUID, and they are written, read and unlinked through `fs`. The temporary path is a parameter, and the content `get` downloads is not represented.
- n8n's binary helpers (`prepareBinaryData`, `getBinaryDataBuffer`) and `prepareOutputData`: only whether an item has the named binary property is modelled.
- The node's UI descriptor (the parameter list of Smb2.node.ts): defaults are modelled where the handlers pass them to `str`.
- The `operation` and `smbclientPath` parameters, which the source reads for item 0, are passed to `Smb2Node.Execute` as arguments.
- SmbTypes.SizeOf: `Number()` is modelled only for strings of decimal digits. Any other size text, such as signs, decimals, white space or the empty string, is kept unparsed. The columns layout's `|| 0` is not applied to it.
- Metadata.ToUpper: only ASCII letters are mapped; `toUpperCase` on the rest of Unicode is not modelled.
- `/pattern/i` tests fold ASCII case only. Every pattern in the core is ASCII.
- `EntryHelpers.Basename` follows the documented POSIX `path.basename` of Node for one argument. Node's own implementation is not part of this model.
- An identifier that names an inherited property of a JavaScript object (such as `constructor`) is treated as an unsupported operation.
- The NodeOperationError class is foreign. The model takes its `message` to be the text it was given, with no `cmd` or `stderr` properties.
- Exceptions other than handler and run failures (for example from `fs`) are not modelled; nor are debug logging and `console.error`.
- `close()` is a no-op in the source. It is modelled as a `Close` step that cannot fail.
- JavaScript strings are UTF-16, so `attr.split('')` splits a character outside the Basic Multilingual Plane into two surrogates. `Text` works on Unicode scalar values, so such an attribute character stays one character.
- SmbTypes.SizeOf: `Number()` rounds digit strings above 2^53 to the nearest double; `Text.DecimalValue` is exact.
- Client.Quote: a path is put between double quotes without escaping, so a path holding `"` makes the `-c` command ambiguous. `Client.CommandPaths` and its parts require quote-free paths.

## Findings

| source | as written | input that shows it | evidently intended | confidence | as-written member | corrected member |
|---|---|---|---|---|---|---|
| nodes/Smb2/SmbClientWrapper.ts:19 | `/LOGON failure/i` requires a space between the words | the message `NT_STATUS_LOGON_FAILURE`, which smbclient prints for rejected credentials, gets no hint | the logon hint also matches the underscore spelling of the status | medium, not executed | Runner.LogonFailureMissed | Runner.LogonFailureHinted |
| nodes/Smb2/SmbClientWrapper.ts:20 | `/bad network name/i` requires spaces between the words | the message `NT_STATUS_BAD_NETWORK_NAME`, which smbclient prints for a missing share, gets no hint | the network-name hint also matches the underscore spelling of the status | medium, not executed | Runner.BadNameMissed | Runner.BadNameHinted |
| nodes/Smb2/SmbClientWrapper.ts:79 | `.replace(username, '***')` and `.replace(password, '***')` hide only the first occurrence (lines 88-89 do the same) | username `smb` and a password not in the text: in `smbclient -U smb` the `smb` of `smbclient` becomes `***` and `-U smb` stays visible | every occurrence of each non-empty secret is hidden | medium, not executed | Runner.RedactSecretsFirstOnly | Runner.RedactAllHides |

The hint corrections are made in `Runner.CorrectedErrorHints`. `Runner.CorrectedHintsShape` states that this table differs from the written one only in those two patterns. The corrected redaction is `Runner.RedactSecretsAll`, built on `Text.ReplaceAll`; `Runner.RunOne` models the code as written.
