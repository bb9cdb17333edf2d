/** The JavaScript string operations the parsers are built from: trim, split on one character,
    join, whitespace collapsing, case-insensitive search for an ASCII needle, the /^\d+$/ test,
    decimal values and first-occurrence replacement. Strings are sequences of Unicode scalar
    values. */
module Text {
  import opened Wrappers

  /** The characters JavaScript's `trim` removes and `\s` matches (WhiteSpace and LineTerminator). */
  predicate IsSpace(c: char) {
    c == '\t' || c == '\n' || c == '\U{000B}' || c == '\U{000C}' || c == '\r' || c == ' '
    || c == '\U{00A0}' || c == '\U{1680}' || ('\U{2000}' <= c <= '\U{200A}')
    || c == '\U{2028}' || c == '\U{2029}' || c == '\U{202F}' || c == '\U{205F}'
    || c == '\U{3000}' || c == '\U{FEFF}'
  }

  predicate NoSpace(s: string) {
    forall k :: 0 <= k < |s| ==> !IsSpace(s[k])
  }

  predicate AllSpace(s: string) {
    forall k :: 0 <= k < |s| ==> IsSpace(s[k])
  }

  /** `s.trimStart()`: every leading white-space character dropped. */
  function TrimStart(s: string): (r: string)
    ensures |r| <= |s|
    ensures r == [] || !IsSpace(r[0])
  {
    if s != [] && IsSpace(s[0]) then TrimStart(s[1..]) else s
  }

  /** `s.trimEnd()`: every trailing white-space character dropped. */
  function TrimEnd(s: string): (r: string)
    ensures |r| <= |s|
    ensures r == [] || !IsSpace(r[|r| - 1])
    ensures r != [] ==> r[0] == s[0]
  {
    if s != [] && IsSpace(s[|s| - 1]) then TrimEnd(s[..|s| - 1]) else s
  }

  /** `s.trim()`. */
  function Trim(s: string): (r: string)
    ensures |r| <= |s|
    ensures r == [] || (!IsSpace(r[0]) && !IsSpace(r[|r| - 1]))
  {
    TrimEnd(TrimStart(s))
  }

  /** What trimming the start drops is a run of white space in front of what it keeps. */
  lemma {:induction false} TrimStartShape(s: string)
    ensures var r := TrimStart(s); r == s[|s| - |r|..] && AllSpace(s[..|s| - |r|])
    decreases |s|
  {
    if s != [] && IsSpace(s[0]) {
      TrimStartShape(s[1..]);
      var r := TrimStart(s);
      assert s[1..][|s| - 1 - |r|..] == s[|s| - |r|..];
      forall k | 0 <= k < |s| - |r| ensures IsSpace(s[k]) {
        if k > 0 { assert s[k] == s[1..][..|s| - 1 - |r|][k - 1]; }
      }
    }
  }

  /** What trimming the end drops is a run of white space after what it keeps. */
  lemma {:induction false} TrimEndShape(s: string)
    ensures var r := TrimEnd(s); r == s[..|r|] && AllSpace(s[|r|..])
    decreases |s|
  {
    if s != [] && IsSpace(s[|s| - 1]) {
      var init := s[..|s| - 1];
      TrimEndShape(init);
      var r := TrimEnd(s);
      assert init[..|r|] == s[..|r|];
      forall j | 0 <= j < |s| - |r| ensures IsSpace(s[|r|..][j]) {
        if j < |s| - 1 - |r| { assert s[|r|..][j] == init[|r|..][j]; }
      }
    }
  }

  /** The trim of a string is the part left between a white-space prefix and a white-space
      suffix. */
  lemma TrimShape(s: string)
    ensures exists i: nat :: i + |Trim(s)| <= |s| && Trim(s) == s[i..i + |Trim(s)|]
                             && AllSpace(s[..i]) && AllSpace(s[i + |Trim(s)|..])
  {
    var t := TrimStart(s);
    var r := TrimEnd(t);
    var i := |s| - |t|;
    TrimStartShape(s);
    TrimEndShape(t);
    assert s[i..][..|r|] == s[i..i + |r|];
    assert s[i + |r|..] == t[|r|..];
  }

  /** A string that neither starts nor ends with white space is its own trim. */
  lemma TrimKeeps(s: string)
    requires s == [] || (!IsSpace(s[0]) && !IsSpace(s[|s| - 1]))
    ensures Trim(s) == s
  {
  }

  /** `parts.join(sep)`. */
  function Join(parts: seq<string>, sep: string): (r: string)
    ensures |parts| == 1 ==> r == parts[0]
  {
    if |parts| == 0 then []
    else if |parts| == 1 then parts[0]
    else parts[0] + sep + Join(parts[1..], sep)
  }

  /** Joining a first part onto an already joined, non-empty rest. */
  lemma JoinCons(p: string, rest: seq<string>, sep: string)
    requires |rest| >= 1
    ensures Join([p] + rest, sep) == p + sep + Join(rest, sep)
  {
    assert ([p] + rest)[1..] == rest;
  }

  /** `s.split(sep)` for a one-character separator: the pieces between the separators, in order;
      the empty string splits into one empty piece. */
  function Split(s: string, sep: char): (parts: seq<string>)
    ensures |parts| >= 1
    ensures forall p :: p in parts ==> sep !in p
    ensures Join(parts, [sep]) == s
  {
    if s == [] then [[]]
    else
      var rest := Split(s[1..], sep);
      if s[0] == sep then
        JoinCons([], rest, [sep]);
        [[]] + rest
      else
        var first := [s[0]] + rest[0];
        if |rest| == 1 then [first]
        else
          assert rest == [rest[0]] + rest[1..];
          JoinCons(rest[0], rest[1..], [sep]);
          JoinCons(first, rest[1..], [sep]);
          [first] + rest[1..]
  }

  /** Two strings split by their first separator determine the pieces on either side. */
  lemma FirstSeparatorUnique(x: string, y: string, x': string, y': string, c: char)
    requires c !in x && c !in x'
    requires x + [c] + y == x' + [c] + y'
    ensures x == x' && y == y'
  {
    var s := x + [c] + y;
    assert forall k :: 0 <= k < |x| ==> s[k] == x[k];
    assert forall k :: 0 <= k < |x'| ==> s[k] == x'[k];
    assert s[|x|] == c && s[|x'|] == c;
    assert |x| == |x'|;
    assert x == s[..|x|] == x';
    assert y == s[|x| + 1..] == y';
  }

  /** A join of pieces free of the separator contains it exactly when there are two pieces or more. */
  lemma JoinHasSeparator(a: seq<string>, c: char)
    requires |a| >= 1
    requires forall p :: p in a ==> c !in p
    ensures (c in Join(a, [c])) <==> |a| > 1
  {
    assert a[0] in a;
    if |a| > 1 {
      assert Join(a, [c]) == a[0] + [c] + Join(a[1..], [c]);
      assert Join(a, [c])[|a[0]|] == c;
    }
  }

  /** Joining with a separator none of the pieces contains loses nothing. */
  lemma {:induction false} JoinInjective(a: seq<string>, b: seq<string>, c: char)
    requires |a| >= 1 && |b| >= 1
    requires forall p :: p in a ==> c !in p
    requires forall p :: p in b ==> c !in p
    requires Join(a, [c]) == Join(b, [c])
    ensures a == b
    decreases |a|
  {
    JoinHasSeparator(a, c);
    JoinHasSeparator(b, c);
    if |a| > 1 && |b| > 1 {
      FirstSeparatorUnique(a[0], Join(a[1..], [c]), b[0], Join(b[1..], [c]), c);
      forall p | p in a[1..] ensures c !in p { assert p in a; }
      forall p | p in b[1..] ensures c !in p { assert p in b; }
      JoinInjective(a[1..], b[1..], c);
      assert a == [a[0]] + a[1..] && b == [b[0]] + b[1..];
    }
  }

  /** Split undoes Join when no piece contains the separator. */
  lemma SplitJoin(parts: seq<string>, c: char)
    requires |parts| >= 1
    requires forall p :: p in parts ==> c !in p
    ensures Split(Join(parts, [c]), c) == parts
  {
    JoinInjective(Split(Join(parts, [c]), c), parts, c);
  }

  /** A text without the separator splits into itself alone. */
  lemma SplitSingle(s: string, c: char)
    requires c !in s
    ensures Split(s, c) == [s]
  {
    SplitJoin([s], c);
  }

  /** Joining two non-empty lists of pieces is joining their joins. */
  lemma {:induction false} JoinAppend(a: seq<string>, b: seq<string>, sep: string)
    requires |a| >= 1 && |b| >= 1
    ensures Join(a + b, sep) == Join(a, sep) + sep + Join(b, sep)
    decreases |a|
  {
    if |a| == 1 {
      JoinCons(a[0], b, sep);
      assert a + b == [a[0]] + b;
    } else {
      JoinAppend(a[1..], b, sep);
      assert (a + b)[0] == a[0] && (a + b)[1..] == a[1..] + b;
    }
  }

  /** Splitting at a separator between two texts splits each text on its own. */
  lemma SplitConcat(a: string, b: string, c: char)
    ensures Split(a + [c] + b, c) == Split(a, c) + Split(b, c)
  {
    var pa, pb := Split(a, c), Split(b, c);
    JoinAppend(pa, pb, [c]);
    forall p | p in pa + pb ensures c !in p { assert p in pa || p in pb; }
    SplitJoin(pa + pb, c);
  }

  /** `s.replace(/\s+/g, ' ')`: every maximal run of white space becomes one space. */
  function Collapse(s: string): (r: string)
    decreases |s|
  {
    if s == [] then []
    else if IsSpace(s[0]) then
      var t := TrimStart(s);
      assert |t| < |s|;
      " " + Collapse(t)
    else [s[0]] + Collapse(s[1..])
  }

  /** Collapsing passes over a word that holds no white space. */
  lemma {:induction false} CollapseWord(w: string, x: string)
    requires NoSpace(w)
    ensures Collapse(w + x) == w + Collapse(x)
    decreases |w|
  {
    if w != [] {
      assert (w + x)[0] == w[0] && (w + x)[1..] == w[1..] + x;
      assert !IsSpace(w[0]) && NoSpace(w[1..]);
      assert Collapse(w + x) == [w[0]] + Collapse(w[1..] + x);
      CollapseWord(w[1..], x);
      assert w == [w[0]] + w[1..];
    } else {
      assert w + x == x;
    }
  }

  /** A run of white space before a word collapses to a single space. */
  lemma CollapseRun(w: string, x: string)
    requires w != [] && AllSpace(w)
    requires x == [] || !IsSpace(x[0])
    ensures Collapse(w + x) == " " + Collapse(x)
  {
    TrimStartRun(w, x);
  }

  lemma {:induction false} TrimStartRun(w: string, x: string)
    requires AllSpace(w)
    requires x == [] || !IsSpace(x[0])
    ensures TrimStart(w + x) == x
    decreases |w|
  {
    if w != [] {
      assert (w + x)[1..] == w[1..] + x;
      TrimStartRun(w[1..], x);
    } else {
      assert w + x == x;
    }
  }

  /** Words separated by runs of white space: t0 w0 t1 w1 ... t(n-1). */
  function Interleave(ts: seq<string>, ws: seq<string>): (r: string)
    requires |ts| >= 1 && |ws| == |ts| - 1
  {
    if |ts| == 1 then ts[0] else ts[0] + ws[0] + Interleave(ts[1..], ws[1..])
  }

  predicate Words(ts: seq<string>) {
    forall i :: 0 <= i < |ts| ==> ts[i] != [] && NoSpace(ts[i])
  }

  predicate Gaps(ws: seq<string>) {
    forall i :: 0 <= i < |ws| ==> ws[i] != [] && AllSpace(ws[i])
  }

  /** One word, one gap and a remainder that starts with a word collapse to the word and a space. */
  lemma CollapseStep(t: string, w: string, rest: string)
    requires NoSpace(t) && w != [] && AllSpace(w)
    requires rest != [] && !IsSpace(rest[0])
    ensures Collapse(t + w + rest) == t + " " + Collapse(rest)
  {
    assert t + w + rest == t + (w + rest);
    CollapseWord(t, w + rest);
    CollapseRun(w, rest);
  }

  /** Collapsing words with arbitrary white-space gaps gives the words joined by single spaces. */
  lemma {:induction false} CollapseInterleave(ts: seq<string>, ws: seq<string>)
    requires |ts| >= 1 && |ws| == |ts| - 1
    requires Words(ts) && Gaps(ws)
    ensures Collapse(Interleave(ts, ws)) == Join(ts, " ")
    decreases |ts|
  {
    if |ts| == 1 {
      CollapseWord(ts[0], []);
      assert ts[0] + [] == ts[0];
    } else {
      var rest := Interleave(ts[1..], ws[1..]);
      assert Words(ts[1..]) && Gaps(ws[1..]);
      InterleaveStarts(ts[1..], ws[1..]);
      CollapseInterleave(ts[1..], ws[1..]);
      CollapseStep(ts[0], ws[0], rest);
      JoinCons(ts[0], ts[1..], " ");
      assert ts == [ts[0]] + ts[1..];
    }
  }

  /** The interleaving starts with the first character of the first word. */
  lemma InterleaveStarts(ts: seq<string>, ws: seq<string>)
    requires |ts| >= 1 && |ws| == |ts| - 1 && ts[0] != []
    ensures Interleave(ts, ws) != [] && Interleave(ts, ws)[0] == ts[0][0]
  {
  }

  /** The first character of a join is that of its first piece. */
  lemma {:induction false} JoinFirst(ts: seq<string>, sep: string)
    requires |ts| >= 1 && ts[0] != []
    ensures Join(ts, sep) != [] && Join(ts, sep)[0] == ts[0][0]
  {
  }

  /** The last character of a join is that of its last piece. */
  lemma {:induction false} JoinLast(ts: seq<string>, sep: string)
    requires |ts| >= 1 && ts[|ts| - 1] != []
    ensures Join(ts, sep) != [] && Join(ts, sep)[|Join(ts, sep)| - 1] == ts[|ts| - 1][|ts[|ts| - 1]| - 1]
    decreases |ts|
  {
    if |ts| > 1 {
      JoinLast(ts[1..], sep);
    }
  }

  /** A character of a join is a character of a piece or of the separator. */
  lemma {:induction false} JoinAvoids(ts: seq<string>, sep: string, c: char)
    requires c !in sep
    requires forall t :: t in ts ==> c !in t
    ensures c !in Join(ts, sep)
    decreases |ts|
  {
    if |ts| > 1 {
      assert ts[0] in ts;
      forall t | t in ts[1..] ensures c !in t { assert t in ts; }
      JoinAvoids(ts[1..], sep, c);
    }
  }

  /** A character of an interleaving is a character of a word or of a gap. */
  lemma {:induction false} InterleaveAvoids(ts: seq<string>, ws: seq<string>, c: char)
    requires |ts| >= 1 && |ws| == |ts| - 1
    requires forall t :: t in ts ==> c !in t
    requires forall w :: w in ws ==> c !in w
    ensures c !in Interleave(ts, ws)
    decreases |ts|
  {
    if |ts| > 1 {
      assert ts[0] in ts && ws[0] in ws;
      forall t | t in ts[1..] ensures c !in t { assert t in ts; }
      forall w | w in ws[1..] ensures c !in w { assert w in ws; }
      InterleaveAvoids(ts[1..], ws[1..], c);
    }
  }

  /** The tokens of `s.replace(/\s+/g, ' ').trim().split(' ')`. */
  function Tokens(s: string): seq<string> {
    Split(Trim(Collapse(s)), ' ')
  }

  /** Tokenising words with arbitrary white-space gaps gives back exactly the words. */
  lemma TokensInterleave(ts: seq<string>, ws: seq<string>)
    requires |ts| >= 1 && |ws| == |ts| - 1
    requires Words(ts) && Gaps(ws)
    ensures Tokens(Interleave(ts, ws)) == ts
  {
    CollapseInterleave(ts, ws);
    assert ts[0] in ts && ts[|ts| - 1] in ts;
    JoinFirst(ts, " ");
    JoinLast(ts, " ");
    TrimKeeps(Join(ts, " "));
    forall t | t in ts ensures ' ' !in t {
      assert NoSpace(t) && IsSpace(' ');
    }
    SplitJoin(ts, ' ');
  }

  function LowerAscii(c: char): char {
    if 'A' <= c <= 'Z' then (c as int + 32) as char else c
  }

  /** Equality up to ASCII case. */
  predicate EqualsIgnoreCase(a: string, b: string) {
    |a| == |b| && forall k :: 0 <= k < |a| ==> LowerAscii(a[k]) == LowerAscii(b[k])
  }

  /** `/needle/i.test(s)` for a needle of ASCII characters without metacharacters. */
  predicate ContainsIgnoreCase(s: string, needle: string) {
    exists i: nat :: i <= |s| && MatchesAt(s, needle, i)
  }

  predicate MatchesAt(s: string, needle: string, i: nat) {
    i + |needle| <= |s| && EqualsIgnoreCase(s[i..i + |needle|], needle)
  }

  /** The letter of the other case; other characters are their own partner. */
  function OtherCase(c: char): char {
    if 'A' <= c <= 'Z' then (c as int + 32) as char
    else if 'a' <= c <= 'z' then (c as int - 32) as char
    else c
  }

  /** A needle never matches when its k-th character, in either case, is missing from every
      position of the text that could lie under it. */
  lemma NoMatchWithout(s: string, needle: string, k: nat)
    requires k < |needle| <= |s|
    requires needle[k] !in s[k..|s| - |needle| + k + 1]
    requires OtherCase(needle[k]) !in s[k..|s| - |needle| + k + 1]
    ensures !ContainsIgnoreCase(s, needle)
  {
    var w := s[k..|s| - |needle| + k + 1];
    forall i: nat | i + |needle| <= |s| ensures !MatchesAt(s, needle, i) {
      assert s[i..i + |needle|][k] == s[i + k] == w[i];
      assert w[i] in w;
    }
  }

  /** A needle never matches when its k-th character, in either case, is missing from the text. */
  lemma NoMatchAbsent(s: string, needle: string, k: nat)
    requires k < |needle| && needle[k] !in s && OtherCase(needle[k]) !in s
    ensures !ContainsIgnoreCase(s, needle)
  {
    forall i: nat | i + |needle| <= |s| ensures !MatchesAt(s, needle, i) {
      assert s[i..i + |needle|][k] == s[i + k];
    }
  }

  /** A needle never matches when no position of the text agrees with it, up to case, at both
      its k-th and its m-th character. */
  lemma NoMatchWithoutPair(s: string, needle: string, k: nat, m: nat)
    requires k < |needle| && m < |needle| <= |s|
    requires forall i :: 0 <= i <= |s| - |needle| ==>
      LowerAscii(s[k..][i]) != LowerAscii(needle[k]) || LowerAscii(s[m..][i]) != LowerAscii(needle[m])
    ensures !ContainsIgnoreCase(s, needle)
  {
    forall i: nat | i + |needle| <= |s| ensures !MatchesAt(s, needle, i) {
      assert s[i..i + |needle|][k] == s[k..][i];
      assert s[i..i + |needle|][m] == s[m..][i];
    }
  }

  predicate IsDigit(c: char) {
    '0' <= c <= '9'
  }

  /** `/^\d+$/.test(s)`: non-empty and every character an ASCII digit. */
  predicate AllDigits(s: string) {
    |s| > 0 && forall k :: 0 <= k < |s| ==> IsDigit(s[k])
  }

  /** The value of a string of decimal digits. */
  function DecimalValue(s: string): nat
    requires forall k :: 0 <= k < |s| ==> IsDigit(s[k])
  {
    if s == [] then 0
    else
      assert IsDigit(s[|s| - 1]);
      10 * DecimalValue(s[..|s| - 1]) + (s[|s| - 1] as int - '0' as int)
  }

  /** `String(n)` for a non-negative integer. */
  function NatToString(n: nat): (r: string)
    ensures AllDigits(r)
    ensures DecimalValue(r) == n
  {
    var d := [(n % 10 + '0' as int) as char];
    if n < 10 then d
    else
      var r := NatToString(n / 10) + d;
      assert r[..|r| - 1] == NatToString(n / 10);
      r
  }

  predicate OccursAt(s: string, pat: string, i: nat) {
    i + |pat| <= |s| && s[i..i + |pat|] == pat
  }

  /** pat occurs at i and nowhere before. */
  predicate FirstAt(s: string, pat: string, i: nat) {
    OccursAt(s, pat, i) && forall j :: 0 <= j < i ==> !OccursAt(s, pat, j)
  }

  /** pat occurs nowhere in s. */
  predicate Absent(s: string, pat: string) {
    forall j :: 0 <= j <= |s| ==> !OccursAt(s, pat, j)
  }

  /** The first occurrence is unique. */
  lemma FirstAtUnique(s: string, pat: string, i: nat, i': nat)
    requires FirstAt(s, pat, i) && FirstAt(s, pat, i')
    ensures i == i'
  {
  }

  lemma SliceOfTail(s: string, j: nat, n: nat)
    requires 1 <= j && j + n <= |s|
    ensures s[1..][j - 1..j - 1 + n] == s[j..j + n]
  {
  }

  /** `s.indexOf(pat)`: the least position where pat occurs. */
  function IndexOf(s: string, pat: string): (r: Option<nat>)
    ensures r.Some? ==> FirstAt(s, pat, r.value)
    ensures r.None? ==> Absent(s, pat)
    decreases |s|
  {
    if |pat| <= |s| && s[..|pat|] == pat then Some(0)
    else if s == [] then None
    else
      var r := IndexOf(s[1..], pat);
      assert forall j :: 1 <= j <= |s| ==> (OccursAt(s, pat, j) <==> OccursAt(s[1..], pat, j - 1)) by {
        forall j | 1 <= j <= |s| ensures OccursAt(s, pat, j) <==> OccursAt(s[1..], pat, j - 1) {
          if j + |pat| <= |s| { SliceOfTail(s, j, |pat|); }
        }
      }
      assert !OccursAt(s, pat, 0);
      match r
      case None => None
      case Some(k) => Some(k + 1)
  }

  /** `s.replace(pat, rep)` with a string pattern: only the first occurrence is replaced. */
  function ReplaceFirst(s: string, pat: string, rep: string): (r: string)
    ensures Absent(s, pat) ==> r == s
    ensures forall i: nat :: FirstAt(s, pat, i) ==> r == s[..i] + rep + s[i + |pat|..]
  {
    match IndexOf(s, pat)
    case None => s
    case Some(i) =>
      assert forall i': nat :: FirstAt(s, pat, i') ==> i' == i;
      s[..i] + rep + s[i + |pat|..]
  }

  /** `s.replaceAll(pat, rep)` for a non-empty string pattern: left to right, every occurrence
      is replaced and the scan resumes after it. */
  function ReplaceAll(s: string, pat: string, rep: string): string
    requires pat != []
    decreases |s|
  {
    if s == [] then []
    else if OccursAt(s, pat, 0) then rep + ReplaceAll(s[|pat|..], pat, rep)
    else [s[0]] + ReplaceAll(s[1..], pat, rep)
  }

  /** A pattern absent from a text stays absent from its suffixes. */
  lemma AbsentDrop(s: string, q: string, n: nat)
    requires n <= |s| && Absent(s, q)
    ensures Absent(s[n..], q)
  {
    forall j | 0 <= j <= |s| - n ensures !OccursAt(s[n..], q, j) {
      if j + |q| <= |s| - n {
        assert s[n..][j..j + |q|] == s[n + j..n + j + |q|];
        assert !OccursAt(s, q, n + j);
      }
    }
  }

  /** A text without the pattern is not changed by replacing it everywhere. */
  lemma {:induction false} ReplaceAllAbsent(s: string, pat: string, rep: string)
    requires pat != [] && Absent(s, pat)
    ensures ReplaceAll(s, pat, rep) == s
    decreases |s|
  {
    if s != [] {
      assert !OccursAt(s, pat, 0);
      AbsentDrop(s, pat, 1);
      ReplaceAllAbsent(s[1..], pat, rep);
      assert s == [s[0]] + s[1..];
    }
  }

  /** Masking with `***`: a prefix of the result free of `*` is the same prefix of the text. */
  lemma {:induction false} MaskedPrefix(s: string, pat: string, k: nat)
    requires pat != []
    ensures var r := ReplaceAll(s, pat, "***");
      k <= |r| && '*' !in r[..k] ==> k <= |s| && r[..k] == s[..k]
    decreases |s|
  {
    var r := ReplaceAll(s, pat, "***");
    if s == [] {
    } else if OccursAt(s, pat, 0) {
      assert 0 < k <= |r| ==> r[..k][0] == '*';
    } else if k > 0 {
      var t := ReplaceAll(s[1..], pat, "***");
      MaskedPrefix(s[1..], pat, k - 1);
      assert r == [s[0]] + t;
      assert k <= |r| ==> r[..k] == [s[0]] + t[..k - 1];
      assert k <= |s| ==> s[..k] == [s[0]] + s[1..][..k - 1];
    }
  }

  /** Masking every occurrence of a pattern with `***` leaves no occurrence of it, and creates no
      occurrence of a text without `*` that was absent before. */
  lemma {:induction false} MaskedAbsent(s: string, pat: string, q: string)
    requires pat != [] && q != [] && '*' !in q
    requires q == pat || Absent(s, q)
    ensures Absent(ReplaceAll(s, pat, "***"), q)
    decreases |s|
  {
    var r := ReplaceAll(s, pat, "***");
    if s == [] {
    } else if OccursAt(s, pat, 0) {
      var t := ReplaceAll(s[|pat|..], pat, "***");
      if q != pat { AbsentDrop(s, q, |pat|); }
      MaskedAbsent(s[|pat|..], pat, q);
      assert r == "***" + t;
      forall j | 0 <= j <= |r| ensures !OccursAt(r, q, j) {
        if j + |q| <= |r| {
          if j < 3 {
            assert r[j..j + |q|][0] == r[j] == '*';
            assert q[0] in q;
          } else {
            assert r[j..j + |q|] == t[j - 3..j - 3 + |q|];
            assert !OccursAt(t, q, j - 3);
          }
        }
      }
    } else {
      var t := ReplaceAll(s[1..], pat, "***");
      if q != pat { AbsentDrop(s, q, 1); }
      MaskedAbsent(s[1..], pat, q);
      assert r == [s[0]] + t;
      assert !OccursAt(s, q, 0);
      forall j | 0 <= j <= |r| ensures !OccursAt(r, q, j) {
        if j + |q| <= |r| {
          if j == 0 {
            MaskedPrefix(s, pat, |q|);
            assert r[..|q|] == r[0..|q|];
            assert |q| <= |s| ==> s[..|q|] == s[0..|q|];
          } else {
            assert r[j..j + |q|] == t[j - 1..j - 1 + |q|];
            assert !OccursAt(t, q, j - 1);
          }
        }
      }
    }
  }
}
