/** The string operations of Python's `str` that the model relies on:
    `strip`, `split()`, `split(sep)`, `sep.join`, `startswith`, `endswith`,
    `ljust`, and the code-point ordering used by `sorted`. */
module Text {

  /** The ASCII characters Python's `str.isspace` accepts: space, tab,
      newline, carriage return, vertical tab, form feed, and the file,
      group, record and unit separators. */
  predicate IsSpace(c: char) {
    c == ' ' || c == '\t' || c == '\n' || c == '\r' || c == '\U{B}' || c == '\U{C}'
    || c == '\U{1C}' || c == '\U{1D}' || c == '\U{1E}' || c == '\U{1F}'
  }

  predicate NoSpace(s: string) {
    forall k :: 0 <= k < |s| ==> !IsSpace(s[k])
  }

  /** A word of `split()`: non-empty and free of whitespace. */
  predicate IsWord(w: string) {
    w != [] && NoSpace(w)
  }

  predicate StartsWith(s: string, prefix: string) {
    |prefix| <= |s| && s[..|prefix|] == prefix
  }

  predicate EndsWith(s: string, suffix: string) {
    |suffix| <= |s| && s[|s| - |suffix|..] == suffix
  }

  /** `s.lstrip()`: the suffix left after dropping leading whitespace. */
  function LStrip(s: string): (r: string)
    ensures |r| <= |s|
  {
    if s != [] && IsSpace(s[0]) then LStrip(s[1..]) else s
  }

  lemma {:induction false} LStripFacts(s: string)
    ensures var r := LStrip(s);
      r == s[|s| - |r|..]
      && (forall k :: 0 <= k < |s| - |r| ==> IsSpace(s[k]))
      && (r == [] || !IsSpace(r[0]))
  {
    if s != [] && IsSpace(s[0]) {
      LStripFacts(s[1..]);
    }
  }

  /** `s.rstrip()`: the prefix left after dropping trailing whitespace. */
  function RStrip(s: string): (r: string)
    ensures |r| <= |s|
  {
    if s != [] && IsSpace(s[|s| - 1]) then RStrip(s[..|s| - 1]) else s
  }

  lemma {:induction false} RStripFacts(s: string)
    ensures var r := RStrip(s);
      r == s[..|r|]
      && (forall k :: |r| <= k < |s| ==> IsSpace(s[k]))
      && (r == [] || !IsSpace(r[|r| - 1]))
  {
    if s != [] && IsSpace(s[|s| - 1]) {
      RStripFacts(s[..|s| - 1]);
    }
  }

  /** `s.strip()`. */
  function Strip(s: string): string {
    RStrip(LStrip(s))
  }

  /** A stripped string neither starts nor ends with whitespace. */
  lemma StripFacts(s: string)
    ensures var r := Strip(s); r == [] || (!IsSpace(r[0]) && !IsSpace(r[|r| - 1]))
  {
    LStripFacts(s);
    RStripFacts(LStrip(s));
    var l := LStrip(s);
    var r := RStrip(l);
    if r != [] {
      assert r[0] == l[0];
    }
  }

  /** The longest prefix of `s` without whitespace. */
  function Token(s: string): (w: string)
    ensures |w| <= |s|
    ensures s != [] && !IsSpace(s[0]) ==> |w| >= 1
  {
    if s == [] || IsSpace(s[0]) then [] else [s[0]] + Token(s[1..])
  }

  lemma {:induction false} TokenFacts(s: string)
    ensures var w := Token(s);
      w == s[..|w|] && NoSpace(w) && (|w| == |s| || IsSpace(s[|w|]))
  {
    if s != [] && !IsSpace(s[0]) {
      TokenFacts(s[1..]);
    }
  }

  /** `s.split()`: the maximal runs of non-whitespace characters. */
  function Words(s: string): seq<string>
    decreases |s|
  {
    var t := LStrip(s);
    if t == [] then []
    else
      LStripFacts(s);
      var w := Token(t);
      [w] + Words(t[|w|..])
  }

  /** Every piece `split()` returns is a word. */
  lemma {:induction false} WordsAreWords(s: string)
    ensures forall i :: 0 <= i < |Words(s)| ==> IsWord(Words(s)[i])
    decreases |s|
  {
    var t := LStrip(s);
    if t != [] {
      LStripFacts(s);
      TokenFacts(t);
      var w := Token(t);
      var rest := Words(t[|w|..]);
      WordsAreWords(t[|w|..]);
      assert Words(s) == [w] + rest;
      assert IsWord(w);
      forall i | 0 <= i < |Words(s)| ensures IsWord(Words(s)[i]) {
        if i > 0 {
          assert Words(s)[i] == rest[i - 1];
        }
      }
    }
  }

  /** `sep.join(parts)`. */
  function Join(parts: seq<string>, sep: string): string {
    if parts == [] then ""
    else if |parts| == 1 then parts[0]
    else parts[0] + sep + Join(parts[1..], sep)
  }

  /** `s.split(c)` for a one-character separator: never empty, and the
      pieces between separators may be empty. */
  function SplitOn(s: string, c: char): (r: seq<string>)
    ensures |r| >= 1
    ensures forall i :: 0 <= i < |r| ==> c !in r[i]
  {
    if s == [] then [""]
    else
      var rest := SplitOn(s[1..], c);
      if s[0] == c then [""] + rest else [[s[0]] + rest[0]] + rest[1..]
  }

  /** Joining the pieces of `s.split(c)` with `c` gives back `s`. */
  lemma {:induction false} SplitOnJoin(s: string, c: char)
    ensures Join(SplitOn(s, c), [c]) == s
  {
    if s != [] {
      var rest := SplitOn(s[1..], c);
      SplitOnJoin(s[1..], c);
      if s[0] == c {
        assert Join([""] + rest, [c]) == "" + [c] + Join(rest, [c]);
      } else {
        var r := [[s[0]] + rest[0]] + rest[1..];
        if |rest| == 1 {
          assert Join(rest, [c]) == rest[0];
        } else {
          assert Join(rest, [c]) == rest[0] + [c] + Join(rest[1..], [c]);
          assert r[1..] == rest[1..];
        }
      }
    }
  }

  /** Splitting a join of separator-free pieces gives back the pieces. */
  lemma {:induction false} JoinSplitOn(parts: seq<string>, c: char)
    requires |parts| >= 1
    requires forall i :: 0 <= i < |parts| ==> c !in parts[i]
    ensures SplitOn(Join(parts, [c]), c) == parts
    decreases |parts|, |parts[0]|
  {
    if parts[0] == [] {
      if |parts| > 1 {
        assert Join(parts, [c]) == [c] + Join(parts[1..], [c]);
        JoinSplitOn(parts[1..], c);
        assert [c] + Join(parts[1..], [c]) != [] && ([c] + Join(parts[1..], [c]))[1..] == Join(parts[1..], [c]);
      }
    } else {
      var tail := [parts[0][1..]] + parts[1..];
      assert forall i :: 0 <= i < |tail| ==> c !in tail[i];
      JoinSplitOn(tail, c);
      JoinFirstChar(parts, c);
      var j := Join(parts, [c]);
      assert j[0] == parts[0][0] && j[1..] == Join(tail, [c]);
      assert parts[0] == [parts[0][0]] + tail[0];
      assert parts == [parts[0]] + tail[1..];
    }
  }

  /** The join starts with the first character of the first piece, then
      the join of the pieces with that character removed. */
  lemma JoinFirstChar(parts: seq<string>, c: char)
    requires |parts| >= 1 && parts[0] != []
    ensures Join(parts, [c]) == [parts[0][0]] + Join([parts[0][1..]] + parts[1..], [c])
  {
    var tail := [parts[0][1..]] + parts[1..];
    var j := Join(parts, [c]);
    if |parts| == 1 {
      assert j == [parts[0][0]] + Join(tail, [c]);
    } else {
      assert j == parts[0] + [c] + Join(parts[1..], [c]);
      assert tail[1..] == parts[1..];
      assert Join(tail, [c]) == parts[0][1..] + [c] + Join(parts[1..], [c]);
      assert parts[0] == [parts[0][0]] + parts[0][1..];
      ConcatRegroup([parts[0][0]], parts[0][1..], [c], Join(parts[1..], [c]));
    }
  }

  lemma ConcatRegroup(a: string, b: string, c: string, d: string)
    ensures (a + b) + c + d == a + (b + c + d)
  {
  }

  /** `sep.join(parts + [x])` is `sep.join(parts) + sep + x` when `parts` is non-empty. */
  lemma {:induction false} JoinSnoc(parts: seq<string>, x: string, sep: string)
    requires parts != []
    ensures Join(parts + [x], sep) == Join(parts, sep) + sep + x
  {
    if |parts| > 1 {
      assert (parts + [x])[1..] == parts[1..] + [x];
      JoinSnoc(parts[1..], x, sep);
    }
  }

  /** Length of the first line of `t`, its newline included. */
  function FirstLineLength(t: string): (n: nat)
    ensures n <= |t|
    ensures t != [] ==> n >= 1
    ensures forall k :: 0 <= k < n - 1 ==> t[k] != '\n'
    ensures n == |t| || (n >= 1 && t[n - 1] == '\n')
  {
    if t == [] then 0 else if t[0] == '\n' then 1 else 1 + FirstLineLength(t[1..])
  }

  /** The lines a text file object yields: each keeps its newline, the last
      one may lack it. */
  function LinesOf(text: string): (r: seq<string>)
    ensures Concat(r) == text
    ensures forall i :: 0 <= i < |r| ==> r[i] != []
    decreases |text|
  {
    if text == [] then []
    else
      var n := FirstLineLength(text);
      var rest := LinesOf(text[n..]);
      assert text == text[..n] + text[n..];
      [text[..n]] + rest
  }

  /** `"".join(parts)`. */
  function Concat(parts: seq<string>): string {
    if parts == [] then "" else parts[0] + Concat(parts[1..])
  }

  /** `s.ljust(width)`: `s` padded on the right with spaces to `width`. */
  function LJust(s: string, width: nat): (r: string)
    ensures |r| == if |s| < width then width else |s|
    ensures r[..|s|] == s
    ensures forall k :: |s| <= k < |r| ==> r[k] == ' '
  {
    if |s| < width then s + seq(width - |s|, _ => ' ') else s
  }

  /** Python's string order: lexicographic by code point, a proper prefix
      coming first. */
  predicate StrLess(a: string, b: string) {
    if a == [] then b != []
    else b != [] && (a[0] < b[0] || (a[0] == b[0] && StrLess(a[1..], b[1..])))
  }

  predicate StrLe(a: string, b: string) {
    a == b || StrLess(a, b)
  }

  lemma {:induction false} StrLessIrreflexive(a: string)
    ensures !StrLess(a, a)
  {
    if a != [] { StrLessIrreflexive(a[1..]); }
  }

  lemma {:induction false} StrLessTransitive(a: string, b: string, c: string)
    requires StrLess(a, b) && StrLess(b, c)
    ensures StrLess(a, c)
  {
    if a != [] && a[0] == b[0] && b[0] == c[0] {
      StrLessTransitive(a[1..], b[1..], c[1..]);
    }
  }

  lemma {:induction false} StrLessTotal(a: string, b: string)
    ensures a == b || StrLess(a, b) || StrLess(b, a)
  {
    if a != [] && b != [] && a[0] == b[0] {
      StrLessTotal(a[1..], b[1..]);
      if a[1..] == b[1..] {
        assert a == [a[0]] + a[1..] && b == [b[0]] + b[1..];
      }
    }
  }

  lemma {:induction false} StrLessAsymmetric(a: string, b: string)
    requires StrLess(a, b)
    ensures !StrLess(b, a)
  {
    if a != [] && b != [] && a[0] == b[0] {
      StrLessAsymmetric(a[1..], b[1..]);
    }
  }

  predicate Sorted(s: seq<string>) {
    forall i, j :: 0 <= i < j < |s| ==> StrLe(s[i], s[j])
  }

  /** Insertion of one string before the first element it does not
      exceed. */
  function Insert(x: string, s: seq<string>): (r: seq<string>)
    ensures multiset(r) == multiset(s) + multiset{x}
  {
    if s == [] then [x]
    else if StrLe(x, s[0]) then [x] + s
    else
      assert s == [s[0]] + s[1..];
      [s[0]] + Insert(x, s[1..])
  }

  /** Insertion keeps a sorted list sorted. */
  lemma {:induction false} InsertSorted(x: string, s: seq<string>)
    requires Sorted(s)
    ensures Sorted(Insert(x, s))
  {
    if s == [] {
    } else if StrLe(x, s[0]) {
      forall k | 0 <= k < |s| && StrLess(x, s[0]) && s[0] != s[k]
        ensures StrLess(x, s[k])
      {
        StrLessTransitive(x, s[0], s[k]);
      }
    } else {
      var rest := Insert(x, s[1..]);
      InsertSorted(x, s[1..]);
      StrLessTotal(x, s[0]);
      assert s == [s[0]] + s[1..];
      forall k | 0 <= k < |rest| ensures StrLe(s[0], rest[k]) {
        assert rest[k] in multiset(rest);
        if rest[k] != x {
          assert rest[k] in s[1..];
          var m :| 0 <= m < |s[1..]| && s[1..][m] == rest[k];
          assert s[1 + m] == rest[k];
        }
      }
    }
  }

  /** `sorted(s)` for a list of strings (an insertion sort). */
  function Sort(s: seq<string>): (r: seq<string>)
    ensures Sorted(r)
    ensures multiset(r) == multiset(s)
  {
    if s == [] then [] else
      assert s == [s[0]] + s[1..];
      InsertSorted(s[0], Sort(s[1..]));
      Insert(s[0], Sort(s[1..]))
  }

  lemma {:induction false} StrLeAntisymmetric(a: string, b: string)
    requires StrLe(a, b) && StrLe(b, a)
    ensures a == b
  {
    if a != [] && b != [] && a[0] == b[0] {
      StrLeAntisymmetric(a[1..], b[1..]);
      assert a == [a[0]] + a[1..] && b == [b[0]] + b[1..];
    }
  }

  /** `m` is the least string of `s`. */
  predicate IsLeast(m: string, s: set<string>) {
    m in s && forall y :: y in s ==> StrLe(m, y)
  }

  lemma LeastExists(s: set<string>)
    requires s != {}
    ensures exists m :: IsLeast(m, s)
    decreases |s|
  {
    var x :| x in s;
    if s - {x} == {} {
      forall y | y in s ensures StrLe(x, y) {
        assert y !in s - {x};
      }
      assert IsLeast(x, s);
    } else {
      LeastExists(s - {x});
      var m :| IsLeast(m, s - {x});
      StrLessTotal(x, m);
      if StrLess(x, m) {
        forall y | y in s ensures StrLe(x, y) {
          if y != x && y != m {
            assert y in s - {x};
            StrLessTransitive(x, m, y);
          }
        }
        assert IsLeast(x, s);
      } else {
        assert IsLeast(m, s);
      }
    }
  }

  lemma LeastUnique(s: set<string>)
    ensures forall m, m' :: IsLeast(m, s) && IsLeast(m', s) ==> m == m'
  {
    forall m, m' | IsLeast(m, s) && IsLeast(m', s) ensures m == m' {
      StrLeAntisymmetric(m, m');
    }
  }

  /** `sorted(s)` for a set of strings: its elements in increasing order. */
  function SortSet(s: set<string>): (r: seq<string>)
    ensures |r| == |s|
    ensures forall x :: x in r <==> x in s
    ensures forall i, j :: 0 <= i < j < |r| ==> StrLess(r[i], r[j])
    decreases |s|
  {
    if s == {} then []
    else
      LeastExists(s);
      LeastUnique(s);
      var m :| IsLeast(m, s);
      var rest := SortSet(s - {m});
      SortSetCons(s, m, rest);
      [m] + rest
  }

  /** The least element, then the others sorted, is `s` sorted. */
  lemma SortSetCons(s: set<string>, m: string, rest: seq<string>)
    requires IsLeast(m, s)
    requires |rest| == |s - {m}|
    requires forall x :: x in rest <==> x in s - {m}
    requires forall i, j :: 0 <= i < j < |rest| ==> StrLess(rest[i], rest[j])
    ensures |[m] + rest| == |s|
    ensures forall x :: x in [m] + rest <==> x in s
    ensures forall i, j :: 0 <= i < j < |[m] + rest| ==> StrLess(([m] + rest)[i], ([m] + rest)[j])
  {
    var r := [m] + rest;
    forall j | 0 <= j < |rest| ensures StrLess(m, rest[j]) {
      assert rest[j] in s - {m};
    }
    forall i, j | 0 <= i < j < |r| ensures StrLess(r[i], r[j]) {
      if i == 0 {
        assert r[j] == rest[j - 1];
      } else {
        assert r[i] == rest[i - 1] && r[j] == rest[j - 1];
      }
    }
  }

  /** ASCII lower case. */
  function Lower(c: char): char {
    if 'A' <= c <= 'Z' then (c as int + 32) as char else c
  }

  /** `s` starts with `prefix`, ignoring ASCII case. */
  predicate StartsWithNoCase(s: string, prefix: string) {
    |prefix| <= |s| && forall k :: 0 <= k < |prefix| ==> Lower(s[k]) == Lower(prefix[k])
  }

  /** The characters of the pattern `[, ]`. */
  predicate IsListSep(c: char) {
    c == ',' || c == ' '
  }

  /** Index of the first separator of `s`, or `|s|`. */
  function FirstSep(s: string): (i: nat)
    ensures i <= |s|
    ensures i < |s| ==> IsListSep(s[i])
  {
    if s == [] || IsListSep(s[0]) then 0 else 1 + FirstSep(s[1..])
  }

  /** No separator comes before the first one. */
  lemma {:induction false} FirstSepWord(s: string)
    ensures forall k :: 0 <= k < FirstSep(s) ==> !IsListSep(s[k])
  {
    if s != [] && !IsListSep(s[0]) {
      FirstSepWord(s[1..]);
      assert forall k :: 1 <= k < |s| ==> s[1..][k - 1] == s[k];
    }
  }

  /** End of the run of separators starting at `i`. */
  function RunEnd(s: string, i: nat): (j: nat)
    requires i <= |s|
    ensures i <= j <= |s|
    ensures j < |s| ==> !IsListSep(s[j])
    decreases |s| - i
  {
    if i < |s| && IsListSep(s[i]) then RunEnd(s, i + 1) else i
  }

  /** Everything from `i` up to the end of the run is a separator. */
  lemma {:induction false} RunEndSeps(s: string, i: nat)
    requires i <= |s|
    ensures forall k :: i <= k < RunEnd(s, i) ==> IsListSep(s[k])
    decreases |s| - i
  {
    if i < |s| && IsListSep(s[i]) {
      RunEndSeps(s, i + 1);
    }
  }

  /** `re.split(r'[, ]+', s)`: the pieces between maximal runs of commas
      and spaces. */
  function SplitRuns(s: string): (r: seq<string>)
    ensures |r| >= 1
    decreases |s|
  {
    var i := FirstSep(s);
    if i == |s| then [s]
    else [s[..i]] + SplitRuns(s[RunEnd(s, i + 1)..])
  }

  /** `s` without its commas and spaces. */
  function DropSeps(s: string): string {
    if s == [] then [] else (if IsListSep(s[0]) then [] else [s[0]]) + DropSeps(s[1..])
  }

  lemma {:induction false} DropSepsAppend(a: string, b: string)
    ensures DropSeps(a + b) == DropSeps(a) + DropSeps(b)
  {
    if a != [] {
      var head := if IsListSep(a[0]) then [] else [a[0]];
      assert (a + b)[0] == a[0] && (a + b)[1..] == a[1..] + b;
      assert DropSeps(a + b) == head + DropSeps(a[1..] + b);
      DropSepsAppend(a[1..], b);
      assert DropSeps(a) == head + DropSeps(a[1..]);
    } else {
      assert a + b == b;
    }
  }

  /** No piece holds a separator. */
  lemma {:induction false} SplitRunsNoSep(s: string)
    ensures forall i, k :: 0 <= i < |SplitRuns(s)| && 0 <= k < |SplitRuns(s)[i]| ==> !IsListSep(SplitRuns(s)[i][k])
    decreases |s|
  {
    var i := FirstSep(s);
    FirstSepWord(s);
    if i < |s| {
      SplitRunsNoSep(s[RunEnd(s, i + 1)..]);
    }
  }

  /** Every piece but the first and the last is non-empty. */
  lemma {:induction false} SplitRunsInner(s: string)
    ensures forall i :: 0 < i < |SplitRuns(s)| - 1 ==> SplitRuns(s)[i] != []
    decreases |s|
  {
    var i := FirstSep(s);
    if i < |s| {
      var j := RunEnd(s, i + 1);
      var rest := SplitRuns(s[j..]);
      SplitRunsInner(s[j..]);
      if j < |s| {
        assert FirstSep(s[j..]) > 0;
      }
    }
  }

  /** Together the pieces are `s` without its separators. */
  lemma {:induction false} SplitRunsConcat(s: string)
    ensures Concat(SplitRuns(s)) == DropSeps(s)
    decreases |s|
  {
    var i := FirstSep(s);
    FirstSepWord(s);
    if i == |s| {
      NoSepDrop(s);
      assert SplitRuns(s) == [s];
      assert Concat([s]) == s + Concat([]);
    } else {
      var j := RunEnd(s, i + 1);
      SplitRunsConcat(s[j..]);
      SplitRunsHead(s, i, j);
      SepRun(s, i);
      DropSepsRun(s, i, j);
    }
  }

  /** The first piece, then the pieces after the first run of separators. */
  lemma SplitRunsHead(s: string, i: nat, j: nat)
    requires i == FirstSep(s) < |s| && j == RunEnd(s, i + 1)
    ensures Concat(SplitRuns(s)) == s[..i] + Concat(SplitRuns(s[j..]))
  {
    SplitRunsStep(s, i, j);
    ConcatCons(s[..i], SplitRuns(s[j..]));
  }

  lemma SplitRunsStep(s: string, i: nat, j: nat)
    requires i == FirstSep(s) < |s| && j == RunEnd(s, i + 1)
    ensures SplitRuns(s) == [s[..i]] + SplitRuns(s[j..])
  {
  }

  lemma ConcatCons(a: string, rest: seq<string>)
    ensures Concat([a] + rest) == a + Concat(rest)
  {
    assert ([a] + rest)[1..] == rest;
  }

  /** The first separator starts a run of separators. */
  lemma SepRun(s: string, i: nat)
    requires i == FirstSep(s) < |s|
    ensures forall k :: i <= k < RunEnd(s, i + 1) ==> IsListSep(s[k])
  {
    RunEndSeps(s, i + 1);
  }

  /** Dropping the separators of a word followed by a run of separators. */
  lemma {:induction false} DropSepsRun(s: string, i: nat, j: nat)
    requires i <= j <= |s|
    requires forall k :: 0 <= k < i ==> !IsListSep(s[k])
    requires forall k :: i <= k < j ==> IsListSep(s[k])
    ensures DropSeps(s) == s[..i] + DropSeps(s[j..])
  {
    if j > 0 {
      var t := s[1..];
      assert forall k :: 0 <= k < |t| ==> t[k] == s[k + 1];
      assert t[j - 1..] == s[j..];
      if i > 0 {
        DropSepsRun(t, i - 1, j - 1);
        assert s[..i] == [s[0]] + t[..i - 1];
      } else {
        DropSepsRun(t, 0, j - 1);
      }
    }
  }

  lemma {:induction false} NoSepDrop(s: string)
    requires forall k :: 0 <= k < |s| ==> !IsListSep(s[k])
    ensures DropSeps(s) == s
  {
    if s != [] {
      NoSepDrop(s[1..]);
    }
  }

  lemma {:induction false} SepsDrop(s: string)
    requires forall k :: 0 <= k < |s| ==> IsListSep(s[k])
    ensures DropSeps(s) == []
  {
    if s != [] {
      SepsDrop(s[1..]);
    }
  }
}
