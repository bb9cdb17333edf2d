/** `SmbClientWrapper.stat` (nodes/Smb2/SmbClientWrapper.ts): the `allinfo` output is read line
    by line into a table of `KEY|VALUE` pairs, from which the metadata record is taken. */
module Metadata {
  import opened Wrappers
  import opened Text
  import opened SmbTypes

  /** `toUpperCase` on ASCII letters; other characters are kept. */
  function UpperAscii(c: char): char {
    if 'a' <= c <= 'z' then (c as int - 32) as char else c
  }

  function ToUpper(s: string): (r: string)
    ensures |r| == |s| && forall i :: 0 <= i < |s| ==> r[i] == UpperAscii(s[i])
  {
    seq(|s|, i requires 0 <= i < |s| => UpperAscii(s[i]))
  }

  /** A key and the value stored under it. */
  datatype Pair = Pair(key: string, value: string)

  /** `const [k, v] = line.split('|'); if (k && v !== undefined)`: a line with a `|` after some
      text stores `k.trim().toUpperCase()` with `v.trim()`, the text up to the second `|`. */
  function PairOf(line: string): Option<Pair> {
    var parts := Split(line, '|');
    if |parts| >= 2 && parts[0] != [] then Some(Pair(ToUpper(Trim(parts[0])), Trim(parts[1])))
    else None
  }

  /** A line stores a pair exactly when it has a `|` after some text; lines without `|` are
      ignored. */
  lemma PairOfSome(line: string)
    ensures PairOf(line).Some? <==> '|' in line && Split(line, '|')[0] != []
  {
    JoinHasSeparator(Split(line, '|'), '|');
  }

  /** `info.set(key, value)` for a line that stores a pair. */
  function Store(info: map<string, string>, p: Option<Pair>): map<string, string> {
    if p.Some? then info[p.value.key := p.value.value] else info
  }

  /** The table after storing each pair in turn. */
  function Table(ps: seq<Option<Pair>>): map<string, string> {
    if ps == [] then map[] else Store(Table(ps[..|ps| - 1]), ps[|ps| - 1])
  }

  /** Entry i stores a pair under the key. */
  predicate Sets(ps: seq<Option<Pair>>, key: string, i: int) {
    0 <= i < |ps| && ps[i].Some? && ps[i].value.key == key
  }

  /** The table holds exactly the keys some pair is stored under. */
  lemma {:induction false} TableKeys(ps: seq<Option<Pair>>, key: string)
    ensures key in Table(ps) <==> exists i :: Sets(ps, key, i)
    decreases |ps|
  {
    if ps != [] {
      var n := |ps| - 1;
      TableKeys(ps[..n], key);
      assert forall i :: 0 <= i < n ==> (Sets(ps[..n], key, i) <==> Sets(ps, key, i));
      if key in Table(ps) && !Sets(ps, key, n) {
        assert key in Table(ps[..n]);
      }
    }
  }

  /** Each key holds the value of the last pair stored under it. */
  lemma {:induction false} TableLast(ps: seq<Option<Pair>>, key: string, i: int)
    requires Sets(ps, key, i) && forall j :: i < j < |ps| ==> !Sets(ps, key, j)
    ensures key in Table(ps) && Table(ps)[key] == ps[i].value.value
    decreases |ps|
  {
    var n := |ps| - 1;
    if i < n {
      assert !Sets(ps, key, n);
      assert forall j :: i < j < n ==> (Sets(ps[..n], key, j) <==> Sets(ps, key, j));
      TableLast(ps[..n], key, i);
    }
  }

  function PairsOf(lines: seq<string>): (r: seq<Option<Pair>>)
    ensures |r| == |lines| && forall i :: 0 <= i < |lines| ==> r[i] == PairOf(lines[i])
  {
    seq(|lines|, i requires 0 <= i < |lines| => PairOf(lines[i]))
  }

  /** The table `stat` builds from the lines of the output. */
  function InfoOf(lines: seq<string>): map<string, string> {
    Table(PairsOf(lines))
  }

  function Lookup(info: map<string, string>, key: string): (r: Option<string>)
    ensures r.Some? <==> key in info
    ensures r.Some? ==> r.value == info[key]
  {
    if key in info then Some(info[key]) else None
  }

  /** The metadata record taken from the table: the times as they were stored, the attributes
      the characters of ATTRIBUTES (none without it), a directory exactly when `D` is one of
      them, and a size exactly when SIZE holds a non-empty value. */
  function StatFromInfo(info: map<string, string>): (r: Stat)
    ensures r.isDirectory <==> 'D' in r.attributes
    ensures r.attributes == (if "ATTRIBUTES" in info then info["ATTRIBUTES"] else [])
    ensures r.size.Some? <==> "SIZE" in info && info["SIZE"] != []
    ensures r.size.Some? ==> r.size.value == SizeOf(info["SIZE"])
    ensures r.createTime == Lookup(info, "CREATE_TIME") && r.accessTime == Lookup(info, "ACCESS_TIME")
    ensures r.writeTime == Lookup(info, "WRITE_TIME") && r.changeTime == Lookup(info, "CHANGE_TIME")
  {
    var attrs := Lookup(info, "ATTRIBUTES").GetOr([]);
    var size := Lookup(info, "SIZE");
    Stat(if size.Some? && size.value != [] then Some(SizeOf(size.value)) else None,
         Lookup(info, "CREATE_TIME"), Lookup(info, "ACCESS_TIME"),
         Lookup(info, "WRITE_TIME"), Lookup(info, "CHANGE_TIME"),
         attrs, 'D' in attrs)
  }

  /** `stat(path)` given the output of `allinfo`. */
  function StatOf(out: string): Stat {
    StatFromInfo(InfoOf(Split(out, '\n')))
  }

  /** The loop of `stat`: each line of the output is examined once, in order, and every line
      that stores a pair overwrites the table entry of its key. */
  method ParseStat(out: string) returns (st: Stat)
    ensures st == StatOf(out)
  {
    var lines := Split(out, '\n');
    var info: map<string, string> := map[];
    for i := 0 to |lines|
      invariant info == InfoOf(lines[..i])
    {
      assert PairsOf(lines[..i + 1])[..i] == PairsOf(lines[..i]);
      var line := lines[i];
      var parts := Split(line, '|');
      if |parts| >= 2 && parts[0] != [] {
        info := info[ToUpper(Trim(parts[0])) := Trim(parts[1])];
      }
    }
    assert lines[..|lines|] == lines;
    st := StatFromInfo(info);
  }

  /** A line `key|value`, possibly followed by further `|`-separated fields, stores the trimmed,
      upper-cased key with the trimmed value; the fields after the second are ignored. */
  lemma PairOfLine(key: string, value: string, rest: string)
    requires key != [] && '|' !in key && '|' !in value
    requires rest == [] || rest[0] == '|'
    ensures PairOf(key + "|" + value + rest) == Some(Pair(ToUpper(Trim(key)), Trim(value)))
  {
    if rest == [] {
      forall p | p in [key, value] ensures '|' !in p { }
      JoinCons(key, [value], "|");
      SplitJoin([key, value], '|');
      assert key + "|" + value + rest == key + "|" + value;
    } else {
      var tail := rest[1..];
      assert key + "|" + value + rest == key + ['|'] + (value + ['|'] + tail);
      SplitConcat(key, value + ['|'] + tail, '|');
      SplitConcat(value, tail, '|');
      SplitSingle(key, '|');
      SplitSingle(value, '|');
    }
  }

  /** The output is cut at line breaks; lines without one come back as they were. */
  lemma StatOfLines(lines: seq<string>)
    requires |lines| >= 1 && forall i :: 0 <= i < |lines| ==> '\n' !in lines[i]
    ensures StatOf(Join(lines, "\n")) == StatFromInfo(InfoOf(lines))
  {
    forall p | p in lines ensures '\n' !in p {
      var k :| 0 <= k < |lines| && lines[k] == p;
    }
    SplitJoin(lines, '\n');
  }

  /** Upper-casing leaves a text without lower-case ASCII letters unchanged. */
  lemma ToUpperKeeps(s: string)
    requires forall i :: 0 <= i < |s| ==> !('a' <= s[i] <= 'z')
    ensures ToUpper(s) == s
  {
  }

  /** A key already trimmed and in upper case, and a trimmed value, are stored as written. */
  lemma PairOfPlain(key: string, value: string)
    requires key != [] && !IsSpace(key[0]) && !IsSpace(key[|key| - 1]) && '|' !in key
    requires forall i :: 0 <= i < |key| ==> !('a' <= key[i] <= 'z')
    requires value == [] || (!IsSpace(value[0]) && !IsSpace(value[|value| - 1]))
    requires '|' !in value
    ensures PairOf(key + "|" + value) == Some(Pair(key, value))
  {
    PairOfLine(key, value, []);
    assert key + "|" + value + [] == key + "|" + value;
    TrimKeeps(key);
    TrimKeeps(value);
    ToUpperKeeps(key);
  }

  /** Solver helpers for `StatExample`: the individual lines of the example output, each one
      handed over as parameters fixed by `requires` so that the literal is unfolded once. */
  lemma ExampleSmallSize(k: string, v: string)
    requires k == "SIZE" && v == "7"
    ensures PairOf(k + "|" + v) == Some(Pair("SIZE", "7"))
  {
    PairOfPlain(k, v);
  }

  lemma ExampleSize(k: string, v: string)
    requires k == "SIZE" && v == "42"
    ensures PairOf(k + "|" + v) == Some(Pair("SIZE", "42"))
  {
    PairOfPlain(k, v);
  }

  lemma ExampleAttributes(k: string, v: string)
    requires k == "ATTRIBUTES" && v == "DA"
    ensures PairOf(k + "|" + v) == Some(Pair("ATTRIBUTES", "DA"))
  {
    PairOfPlain(k, v);
  }

  lemma ExampleSizeValue(v: string)
    requires v == "42"
    ensures SizeOf(v) == Bytes(42)
  {
    assert v[..1] == "4" && "4"[..0] == "";
    assert DecimalValue(v) == 42;
  }

  /** The three example lines have no line break. */
  lemma ExampleLines(k1: string, v1: string, k2: string, v2: string, k3: string, v3: string)
    requires k1 == "SIZE" && v1 == "7" && k2 == "SIZE" && v2 == "42" && k3 == "ATTRIBUTES" && v3 == "DA"
    ensures var lines := [k1 + "|" + v1, k2 + "|" + v2, k3 + "|" + v3];
      forall i :: 0 <= i < |lines| ==> '\n' !in lines[i]
  {
  }

  lemma ExampleTable(ps: seq<Option<Pair>>)
    requires ps == [Some(Pair("SIZE", "7")), Some(Pair("SIZE", "42")), Some(Pair("ATTRIBUTES", "DA"))]
    ensures "SIZE" in Table(ps) && Table(ps)["SIZE"] == "42"
    ensures "ATTRIBUTES" in Table(ps) && Table(ps)["ATTRIBUTES"] == "DA"
  {
    TableLast(ps, "SIZE", 1);
    TableLast(ps, "ATTRIBUTES", 2);
  }

  /** The table read from the three example lines. */
  lemma ExampleInfo(k1: string, v1: string, k2: string, v2: string, k3: string, v3: string)
    requires k1 == "SIZE" && v1 == "7" && k2 == "SIZE" && v2 == "42" && k3 == "ATTRIBUTES" && v3 == "DA"
    ensures var info := InfoOf([k1 + "|" + v1, k2 + "|" + v2, k3 + "|" + v3]);
      k2 in info && info[k2] == v2 && k3 in info && info[k3] == v3
  {
    var lines := [k1 + "|" + v1, k2 + "|" + v2, k3 + "|" + v3];
    ExampleSmallSize(k1, v1);
    ExampleSize(k2, v2);
    ExampleAttributes(k3, v3);
    assert PairsOf(lines) == [Some(Pair("SIZE", "7")), Some(Pair("SIZE", "42")), Some(Pair("ATTRIBUTES", "DA"))];
    ExampleTable(PairsOf(lines));
  }

  /** `SIZE|7`, then `SIZE|42`, then `ATTRIBUTES|DA`: the later line for the same key wins,
      and `D` in the attributes marks a directory. */
  lemma StatExample(k1: string, v1: string, k2: string, v2: string, k3: string, v3: string)
    requires k1 == "SIZE" && v1 == "7" && k2 == "SIZE" && v2 == "42" && k3 == "ATTRIBUTES" && v3 == "DA"
    ensures var st := StatOf(Join([k1 + "|" + v1, k2 + "|" + v2, k3 + "|" + v3], "\n"));
      st.size == Some(Bytes(42)) && st.attributes == "DA" && st.isDirectory
  {
    var lines := [k1 + "|" + v1, k2 + "|" + v2, k3 + "|" + v3];
    ExampleLines(k1, v1, k2, v2, k3, v3);
    StatOfLines(lines);
    ExampleInfo(k1, v1, k2, v2, k3, v3);
    ExampleSizeValue(v2);
    assert 'D' in v3;
  }
}
