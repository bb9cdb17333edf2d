/** `SmbClientWrapper.list` (nodes/Smb2/SmbClientWrapper.ts): the output of `ls` is cut into
    trimmed non-blank lines, every line becomes exactly one entry by a tiered classification,
    and a filter drops the navigation entries and the footer. */
module Listing {
  import opened Wrappers
  import opened Text
  import opened Sequences
  import opened SmbTypes

  // ---------------------------------------------------------------- one line

  /** A row whose fields were found: the attributes are the characters of the attribute field,
      and a `D` among them marks a directory. */
  function Entry(name: string, size: Size, date: string, time: string, attr: string): ListEntry {
    ListEntry(name, size, Some(date), Some(time), attr, 'D' in attr)
  }

  /** A line in neither layout: the whole line is the name, with size 0 and no attributes. */
  function Fallback(line: string): ListEntry {
    ListEntry(line, Bytes(0), None, None, [], false)
  }

  /** `parts.length >= 5 && /^\d+$/.test(parts[1])`. */
  predicate NameFirstLayout(parts: seq<string>) {
    |parts| >= 5 && AllDigits(parts[1])
  }

  /** Case 1, a line with `|`: `name|size|date|time|attr`, parts beyond the fifth ignored. The
      source's second branch, meant for `attr|size|date|time|name`, tests the very same guard
      after the first has failed, so it is never taken and has no counterpart here. */
  function ParsePipeRow(line: string): (r: ListEntry)
    ensures r.isDirectory <==> 'D' in r.attributes
    ensures r.date.Some? <==> NameFirstLayout(Split(line, '|'))
    ensures r.date.Some? ==> r.size.Bytes? && r.time.Some?
    ensures r.date.None? ==> r == Fallback(line)
  {
    var parts := Split(line, '|');
    if NameFirstLayout(parts) then
      Entry(parts[0], Bytes(DecimalValue(parts[1])), parts[2], parts[3], parts[4])
    else Fallback(line)
  }

  /** Case 2, space-aligned columns read from the right:
      `<name words> <attr> <size> <weekday> <month> <day> <hh:mm:ss> <year>`. */
  function ParseColumnsRow(line: string): (r: ListEntry)
    ensures r.isDirectory <==> 'D' in r.attributes
    ensures r.date.Some? <==> |Tokens(line)| >= 8
    ensures r.date.Some? ==> r.time.Some?
    ensures r.date.None? ==> r == Fallback(line)
  {
    var tokens := Tokens(line);
    var n := |tokens|;
    if n >= 8 then
      Entry(Join(tokens[..n - 7], " "), SizeOf(tokens[n - 6]),
            tokens[n - 5] + " " + tokens[n - 4] + " " + tokens[n - 3] + " " + tokens[n - 2] + " " + tokens[n - 1],
            tokens[n - 2], tokens[n - 7])
    else Fallback(line)
  }

  /** The per-line classifier of `list`. */
  function ParseLine(line: string): (r: ListEntry)
    ensures r.isDirectory <==> 'D' in r.attributes
    ensures r.date.Some? <==> r.time.Some?
    ensures r.date.None? ==> r.name == line && r.size == Bytes(0) && r.attributes == [] && !r.isDirectory
  {
    if '|' in line then ParsePipeRow(line) else ParseColumnsRow(line)
  }

  /** A line falls back to the whole-line entry exactly when it fits neither layout; an entry
      read from either layout carries a date, a fallback entry does not. */
  lemma ParseLineFallback(line: string)
    ensures (if '|' in line then !NameFirstLayout(Split(line, '|')) else |Tokens(line)| < 8)
            <==> ParseLine(line) == Fallback(line)
    ensures ParseLine(line).date.None? <==> ParseLine(line) == Fallback(line)
  {
  }

  /** No piece of a list contains the separator. */
  predicate Unpiped(fields: seq<string>) {
    forall k :: 0 <= k < |fields| ==> '|' !in fields[k]
  }

  /** A row written as `name|size|date|time|attr[|...]` is read back field by field. */
  lemma PipeRowRoundTrip(name: string, size: nat, date: string, time: string, attr: string, extra: seq<string>)
    requires Unpiped([name, date, time, attr] + extra)
    ensures ParseLine(Join([name, NatToString(size), date, time, attr] + extra, "|"))
         == Entry(name, Bytes(size), date, time, attr)
  {
    var digits := NatToString(size);
    var parts := [name, digits, date, time, attr] + extra;
    var fields := [name, date, time, attr] + extra;
    assert '|' !in digits by {
      forall k | 0 <= k < |digits| ensures digits[k] != '|' { assert IsDigit(digits[k]); }
    }
    forall p | p in parts ensures '|' !in p {
      var k :| 0 <= k < |parts| && parts[k] == p;
      if k == 0 { assert p == fields[0]; }
      else if k == 1 { assert p == digits; }
      else { assert p == fields[k - 1]; }
    }
    SplitJoin(parts, '|');
    JoinHasSeparator(parts, '|');
  }

  /** Every word of the row, and no white-space gap, is free of `|`. */
  lemma ColumnsUnpiped(ts: seq<string>, ws: seq<string>)
    requires |ts| >= 1 && |ws| == |ts| - 1 && Unpiped(ts) && Gaps(ws)
    ensures '|' !in Interleave(ts, ws)
  {
    forall t | t in ts ensures '|' !in t {
      var k :| 0 <= k < |ts| && ts[k] == t;
    }
    forall w | w in ws ensures '|' !in w {
      var k :| 0 <= k < |ws| && ws[k] == w;
      forall j | 0 <= j < |w| ensures w[j] != '|' { assert IsSpace(w[j]); }
    }
    InterleaveAvoids(ts, ws, '|');
  }

  /** The fields a space-aligned row yields once its words are known. */
  function ColumnsEntry(ts: seq<string>): ListEntry
    requires |ts| >= 8
  {
    var n := |ts|;
    Entry(Join(ts[..n - 7], " "), SizeOf(ts[n - 6]),
          ts[n - 5] + " " + ts[n - 4] + " " + ts[n - 3] + " " + ts[n - 2] + " " + ts[n - 1],
          ts[n - 2], ts[n - 7])
  }

  /** A line without `|` whose words are `ts` is read as a space-aligned row. */
  lemma ColumnsRowOfTokens(line: string, ts: seq<string>)
    requires '|' !in line && Tokens(line) == ts && |ts| >= 8
    ensures ParseLine(line) == ColumnsEntry(ts)
  {
  }

  /** A row written as words separated by any white-space runs, with at least eight words, is
      read from the right: the last seven words are the attributes, the size, and the five words
      of the date (of which the fourth is the time); the words before them, joined by single
      spaces, are the name. */
  lemma ColumnsRowRoundTrip(ts: seq<string>, ws: seq<string>)
    requires |ts| >= 8 && |ws| == |ts| - 1
    requires Words(ts) && Gaps(ws) && Unpiped(ts)
    ensures var n := |ts|;
      ParseLine(Interleave(ts, ws))
      == Entry(Join(ts[..n - 7], " "), SizeOf(ts[n - 6]),
               ts[n - 5] + " " + ts[n - 4] + " " + ts[n - 3] + " " + ts[n - 2] + " " + ts[n - 1],
               ts[n - 2], ts[n - 7])
  {
    var line := Interleave(ts, ws);
    ColumnsUnpiped(ts, ws);
    TokensInterleave(ts, ws);
    ColumnsRowOfTokens(line, ts);
  }

  /** The words of the example row of the source comment. */
  function ExampleWords(): seq<string> {
    ["11100", "MY", "FILE_NAME", "R-1234.pdf", "A", "2058", "Thu", "Sep", "4", "14:39:03", "2025"]
  }

  /** A non-empty run of printable ASCII characters other than `|` is a word without `|`. */
  lemma PrintableWord(s: string)
    requires s != [] && forall k :: 0 <= k < |s| ==> '!' <= s[k] <= '~' && s[k] != '|'
    ensures NoSpace(s) && '|' !in s
  {
    forall k | 0 <= k < |s| ensures !IsSpace(s[k]) { }
  }

  lemma ExampleWordsAreWords()
    ensures Words(ExampleWords()) && Unpiped(ExampleWords())
  {
    var ts := ExampleWords();
    forall i | 0 <= i < |ts| ensures ts[i] != [] && NoSpace(ts[i]) && '|' !in ts[i] {
      PrintableWord(ts[i]);
    }
  }

  /** Solver helper for the example row below: a four-piece join spelled out. */
  lemma JoinFour(a: string, b: string, c: string, d: string, sep: string)
    ensures Join([a, b, c, d], sep) == a + sep + b + sep + c + sep + d
  {
    assert [a, b, c, d][1..] == [b, c, d] && [b, c, d][1..] == [c, d] && [c, d][1..] == [d];
    assert Join([c, d], sep) == c + sep + d;
    assert Join([b, c, d], sep) == b + sep + (c + sep + d);
  }

  /** Solver helper for the example row below: its size field read as a number. */
  lemma ExampleSize()
    ensures SizeOf("2058") == Bytes(2058)
  {
    assert "2058"[..3] == "205" && "205"[..2] == "20" && "20"[..1] == "2" && "2"[..0] == "";
    assert DecimalValue("2058") == 2058;
  }

  lemma ExampleWordsShape()
    ensures |ExampleWords()| == 11 && Words(ExampleWords()) && Unpiped(ExampleWords())
    ensures Join(ExampleWords()[..4], " ") == "11100" + " " + "MY" + " " + "FILE_NAME" + " " + "R-1234.pdf"
    ensures SizeOf(ExampleWords()[5]) == Bytes(2058)
  {
    ExampleWordsAreWords();
    JoinFour("11100", "MY", "FILE_NAME", "R-1234.pdf", " ");
    ExampleSize();
    assert ExampleWords()[..4] == ["11100", "MY", "FILE_NAME", "R-1234.pdf"];
  }

  /** The example row of the source comment, whatever the widths of its white-space gaps, reads
      as the file `11100 MY FILE_NAME R-1234.pdf` with attribute `A` and size 2058. */
  lemma ExampleColumnsRow(ws: seq<string>)
    requires |ws| == 10 && Gaps(ws)
    ensures ParseLine(Interleave(ExampleWords(), ws))
         == Entry("11100" + " " + "MY" + " " + "FILE_NAME" + " " + "R-1234.pdf", Bytes(2058), "Thu" + " " + "Sep" + " " + "4" + " " + "14:39:03" + " " + "2025", "14:39:03", "A")
  {
    ExampleWordsShape();
    ColumnsRowRoundTrip(ExampleWords(), ws);
  }

  /** A five-piece join spelled out. */
  lemma JoinSpelled(a: string, b: string, c: string, d: string, e: string, sep: string)
    ensures Join([a, b, c, d, e], sep) == a + sep + b + sep + c + sep + d + sep + e
  {
    assert [a, b, c, d, e][1..] == [b, c, d, e] && [b, c, d, e][1..] == [c, d, e];
    assert [c, d, e][1..] == [d, e] && [d, e][1..] == [e];
    assert Join([d, e], sep) == d + sep + e;
    assert Join([c, d, e], sep) == c + sep + (d + sep + e);
    assert Join([b, c, d, e], sep) == b + sep + (c + sep + (d + sep + e));
  }

  lemma AttrFirstRowLiteral()
    ensures "D" + "|" + "0" + "|" + "2024-01-01" + "|" + "10:00" + "|" + "mydir" == "D|0|2024-01-01|10:00|mydir"
  {
  }

  lemma AttrFirstRowSpelled()
    ensures Join(["D", "0", "2024-01-01", "10:00", "mydir"] + [], "|") == "D|0|2024-01-01|10:00|mydir"
  {
    assert ["D", "0", "2024-01-01", "10:00", "mydir"] + [] == ["D", "0", "2024-01-01", "10:00", "mydir"];
    JoinSpelled("D", "0", "2024-01-01", "10:00", "mydir", "|");
    AttrFirstRowLiteral();
  }

  lemma AttrFirstRowFields()
    ensures NatToString(0) == "0"
    ensures Unpiped(["D", "2024-01-01", "10:00", "mydir"] + [])
  {
    assert ["D", "2024-01-01", "10:00", "mydir"] + [] == ["D", "2024-01-01", "10:00", "mydir"];
  }

  /** The attribute-first row `D|0|2024-01-01|10:00|mydir` is read name-first: its name is `D`
      and it is not a directory. */
  lemma ExampleAttrFirstRow(row: string)
    requires row == "D|0|2024-01-01|10:00|mydir"
    ensures ParseLine(row) == Entry("D", Bytes(0), "2024-01-01", "10:00", "mydir")
    ensures !ParseLine(row).isDirectory
  {
    AttrFirstRowSpelled();
    AttrFirstRowFields();
    PipeRowRoundTrip("D", 0, "2024-01-01", "10:00", "mydir", []);
  }

  // ---------------------------------------------------------------- the whole output

  /** Neither empty nor beginning or ending with white space. */
  predicate Trimmed(s: string) {
    s != [] && !IsSpace(s[0]) && !IsSpace(s[|s| - 1])
  }

  /** `lines.map((l) => l.trim()).filter(Boolean)`. */
  function NonBlank(lines: seq<string>): (r: seq<string>)
    ensures forall i :: 0 <= i < |r| ==> Trimmed(r[i])
  {
    if lines == [] then []
    else
      var t := Trim(lines[0]);
      if t == [] then NonBlank(lines[1..]) else [t] + NonBlank(lines[1..])
  }

  lemma {:induction false} NonBlankConcat(a: seq<string>, b: seq<string>)
    ensures NonBlank(a + b) == NonBlank(a) + NonBlank(b)
    decreases |a|
  {
    if a == [] {
      assert a + b == b;
    } else {
      assert (a + b)[0] == a[0] && (a + b)[1..] == a[1..] + b;
      NonBlankConcat(a[1..], b);
    }
  }

  /** Lines that are already trimmed and non-empty are all kept, unchanged. */
  lemma {:induction false} NonBlankKeeps(lines: seq<string>)
    requires forall i :: 0 <= i < |lines| ==> Trimmed(lines[i])
    ensures NonBlank(lines) == lines
    decreases |lines|
  {
    if lines != [] {
      TrimKeeps(lines[0]);
      assert forall i :: 0 <= i < |lines[1..]| ==> lines[1..][i] == lines[i + 1];
      NonBlankKeeps(lines[1..]);
    }
  }

  /** `out.split('\n').map((l) => l.trim()).filter(Boolean)`. */
  function NonBlankLines(out: string): (r: seq<string>)
    ensures forall i :: 0 <= i < |r| ==> Trimmed(r[i])
  {
    NonBlank(Split(out, '\n'))
  }

  /** Lines already trimmed and free of line breaks come back as they were written. */
  lemma NonBlankLinesJoin(lines: seq<string>)
    requires |lines| >= 1
    requires forall i :: 0 <= i < |lines| ==> Trimmed(lines[i]) && '\n' !in lines[i]
    ensures NonBlankLines(Join(lines, "\n")) == lines
  {
    forall p | p in lines ensures '\n' !in p {
      var k :| 0 <= k < |lines| && lines[k] == p;
    }
    SplitJoin(lines, '\n');
    NonBlankKeeps(lines);
  }

  /** Two outputs joined by a line break yield the lines of the first, then those of the second. */
  lemma NonBlankLinesConcat(a: string, b: string)
    ensures NonBlankLines(a + "\n" + b) == NonBlankLines(a) + NonBlankLines(b)
  {
    SplitConcat(a, b, '\n');
    NonBlankConcat(Split(a, '\n'), Split(b, '\n'));
  }

  /** `lines.map(...)` with the line classifier. */
  function ParseLines(lines: seq<string>): (r: seq<ListEntry>)
    ensures |r| == |lines|
    ensures forall i :: 0 <= i < |r| ==> r[i] == ParseLine(lines[i])
  {
    if lines == [] then [] else [ParseLine(lines[0])] + ParseLines(lines[1..])
  }

  lemma {:induction false} ParseLinesConcat(a: seq<string>, b: seq<string>)
    ensures ParseLines(a + b) == ParseLines(a) + ParseLines(b)
    decreases |a|
  {
    if a == [] {
      assert a + b == b;
    } else {
      assert (a + b)[0] == a[0] && (a + b)[1..] == a[1..] + b;
      ParseLinesConcat(a[1..], b);
    }
  }

  /** The parse of `list` before filtering: one entry per non-blank line, in order. */
  function ParseListing(out: string): (r: seq<ListEntry>)
    ensures |r| == |NonBlankLines(out)|
    ensures forall i :: 0 <= i < |r| ==> r[i] == ParseLine(NonBlankLines(out)[i])
  {
    ParseLines(NonBlankLines(out))
  }

  lemma ParseListingConcat(a: string, b: string)
    ensures ParseListing(a + "\n" + b) == ParseListing(a) + ParseListing(b)
  {
    NonBlankLinesConcat(a, b);
    ParseLinesConcat(NonBlankLines(a), NonBlankLines(b));
  }

  // ---------------------------------------------------------------- the filter

  /** The filter of `list`: not `.` or `..`, no `blocks available` (in any case) in the date or
      the name, and a name that is not all digits. A missing date counts as empty. */
  predicate Keep(e: ListEntry) {
    e.name != "." && e.name != ".."
    && !ContainsIgnoreCase(e.date.GetOr(""), "blocks available")
    && !ContainsIgnoreCase(e.name, "blocks available")
    && !AllDigits(e.name)
  }

  /** `parsed.filter(...)`: exactly the kept entries, in order. */
  function ListFilter(entries: seq<ListEntry>): (r: seq<ListEntry>)
    ensures forall e :: e in r <==> e in entries && Keep(e)
  {
    Filter(entries, Keep)
  }

  lemma ListFilterConcat(a: seq<ListEntry>, b: seq<ListEntry>)
    ensures ListFilter(a + b) == ListFilter(a) + ListFilter(b)
  {
    FilterConcat(a, b, Keep);
  }

  lemma ListFilterIdempotent(entries: seq<ListEntry>)
    ensures ListFilter(ListFilter(entries)) == ListFilter(entries)
  {
    FilterIdempotent(entries, Keep);
  }

  /** `list(dir)` given the output of `ls`. */
  function List(out: string): (r: seq<ListEntry>)
    ensures forall e :: e in r <==> e in ParseListing(out) && Keep(e)
    ensures |r| <= |NonBlankLines(out)|
  {
    ListFilter(ParseListing(out))
  }

  /** Listing two outputs joined by a line break lists each in turn. */
  lemma ListConcat(a: string, b: string)
    ensures List(a + "\n" + b) == List(a) + List(b)
  {
    ParseListingConcat(a, b);
    ListFilterConcat(ParseListing(a), ParseListing(b));
  }

  /** A non-empty run of lower-case ASCII letters is a word. */
  lemma LowerCaseWord(s: string)
    requires s != [] && forall k :: 0 <= k < |s| ==> 'a' <= s[k] <= 'z'
    ensures s != [] && NoSpace(s) && '|' !in s
  {
    forall k | 0 <= k < |s| ensures !IsSpace(s[k]) && s[k] != '|' { }
  }

  /** The words of the footer `N blocks of size S. M blocks available`. */
  function FooterRow(total: string, blockSize: string, free: string): seq<string> {
    [total, "blocks", "of", "size", blockSize, free, "blocks", "available"]
  }

  lemma FooterRowWords(total: string, blockSize: string, free: string)
    requires Words([total, blockSize, free]) && Unpiped([total, blockSize, free])
    ensures Words(FooterRow(total, blockSize, free)) && Unpiped(FooterRow(total, blockSize, free))
  {
    var given := [total, blockSize, free];
    var ts := FooterRow(total, blockSize, free);
    LowerCaseWord("blocks");
    LowerCaseWord("of");
    LowerCaseWord("size");
    LowerCaseWord("available");
    assert ts[0] == given[0] && ts[4] == given[1] && ts[5] == given[2];
    forall i | 0 <= i < |ts| ensures ts[i] != [] && NoSpace(ts[i]) && '|' !in ts[i] {
      if i == 0 || i == 4 || i == 5 {
        var j := if i == 0 then 0 else i - 3;
        assert ts[i] == given[j];
      }
    }
  }

  /** The footer smbclient prints after a listing, `N blocks of size S. M blocks available`,
      reads as an eight-word row whose date ends in `blocks available`, and is dropped. */
  lemma FooterDropped(total: string, blockSize: string, free: string, ws: seq<string>)
    requires |ws| == 7 && Gaps(ws)
    requires Words([total, blockSize, free]) && Unpiped([total, blockSize, free])
    ensures !Keep(ParseLine(Interleave(FooterRow(total, blockSize, free), ws)))
  {
    FooterRowWords(total, blockSize, free);
    ColumnsRowRoundTrip(FooterRow(total, blockSize, free), ws);
    FooterDate("size" + " " + blockSize + " " + free + " ");
  }

  lemma FooterDate(p: string)
    ensures ContainsIgnoreCase(p + "blocks" + " " + "available", "blocks available")
  {
    var d := p + "blocks" + " " + "available";
    assert d[|p|..|p| + 16] == "blocks available";
    assert MatchesAt(d, "blocks available", |p|);
  }

  /** The `.` entry of a listing row is dropped. */
  lemma DotDropped(ts: seq<string>, ws: seq<string>)
    requires |ts| == 8 && ts[0] == "." && |ws| == 7
    requires Words(ts) && Gaps(ws) && Unpiped(ts)
    ensures ParseLine(Interleave(ts, ws)).name == "."
    ensures !Keep(ParseLine(Interleave(ts, ws)))
  {
    ColumnsRowRoundTrip(ts, ws);
    assert ts[..1] == ["."];
  }
}
