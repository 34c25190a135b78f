/** The string operations of Python that the parsers use. */
module Text {
  import opened Seqs

  /** `str.isspace` for one character. */
  predicate IsSpace(c: char) {
    var n := c as int;
    || 0x09 <= n <= 0x0d || 0x1c <= n <= 0x20 || n == 0x85 || n == 0xa0 || n == 0x1680
    || 0x2000 <= n <= 0x200a || n == 0x2028 || n == 0x2029 || n == 0x202f || n == 0x205f || n == 0x3000
  }

  /** The characters `str.splitlines` breaks at. */
  predicate IsBreak(c: char) {
    var n := c as int;
    0x0a <= n <= 0x0d || 0x1c <= n <= 0x1e || n == 0x85 || n == 0x2028 || n == 0x2029
  }

  /** The characters themselves: 10 end a line, and these are among the 29 that are blank. */
  lemma BreaksAndSpaces(c: char)
    ensures IsBreak(c) <==> c as int in {10, 11, 12, 13, 28, 29, 30, 133, 8232, 8233}
    ensures IsSpace(c) <==> IsBreak(c) || c as int in {9, 31, 32, 160, 5760, 8192, 8193, 8194, 8195, 8196, 8197, 8198, 8199, 8200,
                                                       8201, 8202, 8239, 8287, 12288}
  {}

  /** `x` occurs in `s` at position `i`. */
  predicate At(s: string, i: nat, x: string)
    decreases |x|
  {
    if x == [] then i <= |s| else i < |s| && s[i] == x[0] && At(s, i + 1, x[1..])
  }

  lemma {:induction false} AtSlice(s: string, i: nat, x: string)
    ensures At(s, i, x) <==> i + |x| <= |s| && s[i..i + |x|] == x
    decreases |x|
  {
    if x != [] {
      AtSlice(s, i + 1, x[1..]);
      if i + |x| <= |s| {
        assert s[i..i + |x|] == [s[i]] + s[i + 1..i + |x|];
        assert x == [x[0]] + x[1..];
      }
    }
  }

  lemma {:induction false} AtParts(s: string, i: nat, a: string, b: string)
    ensures At(s, i, a + b) <==> At(s, i, a) && At(s, i + |a|, b)
    decreases |a|
  {
    if a == [] {
      assert a + b == b;
      if At(s, i, b) {
        AtBound(s, i, b);
      }
    } else {
      assert (a + b)[1..] == a[1..] + b;
      AtParts(s, i + 1, a[1..], b);
    }
  }

  lemma {:induction false} AtBound(s: string, i: nat, x: string)
    requires At(s, i, x)
    ensures i + |x| <= |s|
    decreases |x|
  {
    if x != [] {
      AtBound(s, i + 1, x[1..]);
    }
  }

  lemma AtChar(s: string, i: nat, x: string, j: nat)
    requires At(s, i, x) && j < |x|
    ensures i + |x| <= |s| && s[i + j] == x[j]
  {
    AtSlice(s, i, x);
    assert s[i..i + |x|][j] == x[j];
  }

  /** First position at or after `i` holding `c`: `s.find(c, i)`. */
  function Find(s: string, c: char, i: nat): (r: Option<nat>)
    ensures r.Some? ==> i <= r.value < |s| && s[r.value] == c && forall k :: i <= k < r.value ==> s[k] != c
    ensures r.None? ==> forall k :: i <= k < |s| ==> s[k] != c
    decreases |s| - i
  {
    if i >= |s| then None else if s[i] == c then Some(i) else Find(s, c, i + 1)
  }

  lemma FindIs(s: string, c: char, i: nat, j: nat)
    requires i <= j < |s| && s[j] == c && forall k :: i <= k < j ==> s[k] != c
    ensures var r := Find(s, c, i); r.Some? && r.value == j
  {}

  function StripLeft(s: string): (r: string)
    ensures r == [] || !IsSpace(r[0])
    ensures |r| <= |s|
  {
    if s != [] && IsSpace(s[0]) then StripLeft(s[1..]) else s
  }

  function StripRight(s: string): string {
    if s != [] && IsSpace(s[|s| - 1]) then StripRight(s[..|s| - 1]) else s
  }

  function Strip(s: string): string {
    StripRight(StripLeft(s))
  }

  /** Nothing to remove at either end. */
  predicate Stripped(s: string) {
    s == [] || (!IsSpace(s[0]) && !IsSpace(s[|s| - 1]))
  }

  lemma StripWhole(s: string)
    requires Stripped(s)
    ensures Strip(s) == s
  {}

  predicate Spaces(s: string) {
    forall k :: 0 <= k < |s| ==> IsSpace(s[k])
  }

  /** Stripping takes away the blanks around a text, and no more. */
  lemma StripPadded(before: string, s: string, after: string)
    requires Spaces(before) && Spaces(after) && Stripped(s)
    ensures Strip(before + (s + after)) == s
  {
    StripLeftPadded(before, s + after);
    if s == [] {
      StripLeftPadded(after, []);
      assert s + after == after + [];
    } else {
      assert (s + after)[0] == s[0];
      StripRightPadded(s, after);
    }
  }

  lemma {:induction false} StripLeftPadded(before: string, s: string)
    requires Spaces(before)
    ensures StripLeft(before + s) == StripLeft(s)
  {
    if before == [] {
      assert before + s == s;
    } else {
      assert (before + s)[1..] == before[1..] + s;
      StripLeftPadded(before[1..], s);
    }
  }

  lemma {:induction false} StripRightPadded(s: string, after: string)
    requires Spaces(after)
    ensures StripRight(s + after) == StripRight(s)
    decreases |after|
  {
    if after == [] {
      assert s + after == s;
    } else {
      var shorter := after[..|after| - 1];
      assert (s + after)[..|s + after| - 1] == s + shorter;
      StripRightPadded(s, shorter);
    }
  }

  /** What is taken away is blank, and what is left has no blank at its ends. */
  lemma StripParts(s: string) returns (before: string, after: string)
    ensures Spaces(before) && Spaces(after) && Stripped(Strip(s)) && s == before + (Strip(s) + after)
  {
    var left := StripLeft(s);
    before := StripLeftParts(s);
    after := StripRightParts(left);
  }

  lemma {:induction false} StripLeftParts(s: string) returns (before: string)
    ensures Spaces(before) && s == before + StripLeft(s)
  {
    if s != [] && IsSpace(s[0]) {
      var rest := StripLeftParts(s[1..]);
      before := [s[0]] + rest;
      SpaceInFront(s, rest, StripLeft(s));
    } else {
      before := [];
    }
  }

  lemma SpaceInFront(s: string, rest: string, kept: string)
    requires s != [] && IsSpace(s[0]) && Spaces(rest) && s[1..] == rest + kept
    ensures Spaces([s[0]] + rest) && s == ([s[0]] + rest) + kept
  {
    assert s == [s[0]] + s[1..];
  }

  lemma {:induction false} StripRightParts(s: string) returns (after: string)
    ensures Spaces(after) && s == StripRight(s) + after
    ensures StripRight(s) == [] || (StripRight(s)[0] == s[0] && !IsSpace(StripRight(s)[|StripRight(s)| - 1]))
    decreases |s|
  {
    StripRightEnds(s);
    if s != [] && IsSpace(s[|s| - 1]) {
      var rest := StripRightParts(s[..|s| - 1]);
      after := rest + [s[|s| - 1]];
      OneMoreSpace(s, StripRight(s), rest);
    } else {
      after := [];
    }
  }

  lemma {:induction false} StripRightEnds(s: string)
    ensures StripRight(s) == [] || (s != [] && StripRight(s)[0] == s[0] && !IsSpace(StripRight(s)[|StripRight(s)| - 1]))
    decreases |s|
  {
    if s != [] && IsSpace(s[|s| - 1]) {
      StripRightEnds(s[..|s| - 1]);
    }
  }

  lemma OneMoreSpace(s: string, kept: string, rest: string)
    requires s != [] && s[..|s| - 1] == kept + rest && Spaces(rest) && IsSpace(s[|s| - 1])
    ensures s == kept + (rest + [s[|s| - 1]]) && Spaces(rest + [s[|s| - 1]])
  {
    assert s == s[..|s| - 1] + [s[|s| - 1]];
  }

  function LowerChar(c: char): char {
    if 'A' <= c <= 'Z' then (c as int + 32) as char else c
  }

  /** `str.lower` for the letters A to Z; no other character becomes one that is looked for here. */
  function Lower(s: string): string {
    Map(LowerChar, s)
  }

  /** `s.split(sep)` for a one-character separator. */
  function SplitOn(s: string, sep: char): (r: seq<string>)
    ensures |r| > 0
  {
    if s == [] then [[]]
    else
      var rest := SplitOn(s[1..], sep);
      if s[0] == sep then [[]] + rest else [[s[0]] + rest[0]] + rest[1..]
  }

  /** `sep.join(parts)`. */
  function Join(parts: seq<string>, sep: char): string {
    if parts == [] then []
    else if |parts| == 1 then parts[0]
    else parts[0] + [sep] + Join(parts[1..], sep)
  }

  lemma {:induction false} SplitHead(a: string, rest: string, sep: char)
    requires sep !in a
    ensures SplitOn(a + [sep] + rest, sep) == [a] + SplitOn(rest, sep)
  {
    var s := a + [sep] + rest;
    if a == [] {
      assert s[1..] == rest;
    } else {
      assert s[1..] == a[1..] + [sep] + rest;
      SplitHead(a[1..], rest, sep);
      assert s[0] == a[0] && a[0] in a;
      assert [a[0]] + a[1..] == a;
    }
  }

  lemma {:induction false} SplitWhole(a: string, sep: char)
    requires sep !in a
    ensures SplitOn(a, sep) == [a]
  {
    if a != [] {
      SplitWhole(a[1..], sep);
      assert a[0] in a && [a[0]] + a[1..] == a;
    }
  }

  /** Splitting undoes joining when no part holds the separator. */
  lemma {:induction false} SplitJoin(parts: seq<string>, sep: char)
    requires parts != [] && forall i :: 0 <= i < |parts| ==> sep !in parts[i]
    ensures SplitOn(Join(parts, sep), sep) == parts
  {
    if |parts| == 1 {
      SplitWhole(parts[0], sep);
    } else {
      SplitJoin(parts[1..], sep);
      SplitHead(parts[0], Join(parts[1..], sep), sep);
    }
  }

  /** Strings by code point, a prefix first. */
  predicate NameLe(a: string, b: string) {
    a == [] || (b != [] && (a[0] < b[0] || (a[0] == b[0] && NameLe(a[1..], b[1..]))))
  }

  lemma {:induction false} NameTotal(a: string, b: string)
    ensures NameLe(a, b) || NameLe(b, a)
  {
    if a != [] && b != [] && a[0] == b[0] {
      NameTotal(a[1..], b[1..]);
    }
  }

  lemma {:induction false} NameTransitive(a: string, b: string, c: string)
    requires NameLe(a, b) && NameLe(b, c)
    ensures NameLe(a, c)
  {
    if a != [] && a[0] == b[0] && b[0] == c[0] {
      NameTransitive(a[1..], b[1..], c[1..]);
    }
  }

  lemma {:induction false} NameAntisymmetric(a: string, b: string)
    requires NameLe(a, b) && NameLe(b, a)
    ensures a == b
  {
    if a != [] {
      NameAntisymmetric(a[1..], b[1..]);
      assert a == [a[0]] + a[1..] && b == [b[0]] + b[1..];
    }
  }

  /** By the first character that differs; a prefix comes first. */
  lemma NameOrder(p: string, x: char, a: string, y: char, b: string)
    ensures x != y ==> (NameLe(p + ([x] + a), p + ([y] + b)) <==> x < y)
    ensures NameLe(p, p + b) && !NameLe(p + ([x] + a), p)
  {
    NamePrefix(p, [x] + a, [y] + b);
    NamePrefix(p, [], b);
    NamePrefix(p, [x] + a, []);
    assert p + [] == p;
  }

  lemma {:induction false} NamePrefix(p: string, a: string, b: string)
    ensures NameLe(p + a, p + b) == NameLe(a, b)
  {
    if p == [] {
      assert p + a == a && p + b == b;
    } else {
      assert (p + a)[1..] == p[1..] + a && (p + b)[1..] == p[1..] + b;
      NamePrefix(p[1..], a, b);
    }
  }

  /** `s.split()`: the maximal runs of non-space characters. */
  function Words(s: string): seq<string>
    decreases |s|
  {
    var t := StripLeft(s);
    if t == [] then []
    else
      var n := WordLength(t);
      [t[..n]] + Words(t[n..])
  }

  function WordLength(s: string): (n: nat)
    ensures n <= |s| && forall i :: 0 <= i < n ==> !IsSpace(s[i])
    ensures n < |s| ==> IsSpace(s[n])
    ensures s != [] && !IsSpace(s[0]) ==> n > 0
  {
    if s == [] || IsSpace(s[0]) then 0
    else
      1 + WordLength(s[1..])
  }

  predicate IsWord(s: string) {
    s != [] && forall i :: 0 <= i < |s| ==> !IsSpace(s[i])
  }

  lemma WordFirst(w: string, rest: string)
    requires IsWord(w) && (rest == [] || IsSpace(rest[0]))
    ensures Words(w + rest) == [w] + Words(rest)
  {
    var s := w + rest;
    var n := WordLength(s);
    assert forall i :: 0 <= i < |w| ==> s[i] == w[i];
    assert rest != [] ==> s[|w|] == rest[0];
    assert s[..|w|] == w && s[|w|..] == rest;
  }

  lemma WordsSkipSpace(s: string)
    requires s != [] && IsSpace(s[0])
    ensures Words(s) == Words(s[1..])
  {
    assert StripLeft(s) == StripLeft(s[1..]);
  }

  /** Where the line after the first begins. */
  function NextLine(s: string): (next: nat)
    requires BreakIndex(s) < |s|
    ensures BreakIndex(s) < next <= |s|
  {
    var n := BreakIndex(s);
    n + (if s[n] == '\r' && n + 1 < |s| && s[n + 1] == '\n' then 2 else 1)
  }

  /** Lines of a text without their terminators; a final unterminated line counts. */
  function SplitLines(s: string): seq<string>
    decreases |s|
  {
    if s == [] then []
    else
      var n := BreakIndex(s);
      if n == |s| then [s]
      else [s[..n]] + SplitLines(s[NextLine(s)..])
  }

  function BreakIndex(s: string): (n: nat)
    ensures n <= |s| && (forall i :: 0 <= i < n ==> !IsBreak(s[i])) && (n < |s| ==> IsBreak(s[n]))
  {
    if s == [] || IsBreak(s[0]) then 0 else 1 + BreakIndex(s[1..])
  }

  predicate Unbroken(s: string) {
    forall i :: 0 <= i < |s| ==> !IsBreak(s[i])
  }

  /** A line ended by a newline is the first line, and the rest is split on its own. */
  lemma SplitLinesHead(line: string, rest: string)
    requires Unbroken(line)
    ensures SplitLines(line + "\n" + rest) == [line] + SplitLines(rest)
  {
    SplitLinesAt(line, '\n', rest);
  }

  /** So is a line ended by another break, but for a carriage return that belongs to a newline. */
  lemma SplitLinesAt(line: string, c: char, rest: string)
    requires Unbroken(line) && IsBreak(c) && (c == '\r' && rest != [] ==> rest[0] != '\n')
    ensures SplitLines(line + [c] + rest) == [line] + SplitLines(rest)
  {
    var s := line + [c] + rest;
    assert s[|line|] == c;
    var n := BreakIndex(s);
    assert forall i :: 0 <= i < |line| ==> s[i] == line[i];
    assert n == |line| && s[..n] == line && s[n + 1..] == rest;
  }

  /** A carriage return and the newline behind it end one line together. */
  lemma SplitLinesPair(line: string, rest: string)
    requires Unbroken(line)
    ensures SplitLines(line + "\r\n" + rest) == [line] + SplitLines(rest)
  {
    var s := line + "\r\n" + rest;
    assert s[|line|] == '\r' && s[|line| + 1] == '\n';
    var n := BreakIndex(s);
    assert forall i :: 0 <= i < |line| ==> s[i] == line[i];
    assert n == |line| && s[..n] == line && s[n + 2..] == rest;
  }

  lemma SplitLinesStep(s: string)
    requires BreakIndex(s) < |s|
    ensures SplitLines(s) == [s[..BreakIndex(s)]] + SplitLines(s[NextLine(s)..])
  {}

  /** A text that ends with a newline is split on its own. */
  lemma {:induction false} SplitLinesConcat(a: string, rest: string)
    requires a != [] ==> a[|a| - 1] == '\n'
    ensures SplitLines(a + rest) == SplitLines(a) + SplitLines(rest)
    decreases |a|
  {
    if a == [] {
      assert a + rest == rest;
    } else {
      NextLinePrefix(a, rest);
      SplitLinesStep(a);
      SplitLinesStep(a + rest);
      SplitLinesConcat(a[NextLine(a)..], rest);
      Regrouped([a[..BreakIndex(a)]], SplitLines(a[NextLine(a)..]), SplitLines(rest));
    }
  }

  lemma Regrouped<T>(a: seq<T>, b: seq<T>, c: seq<T>)
    ensures a + (b + c) == (a + b) + c
  {}

  lemma NextLinePrefix(a: string, rest: string)
    requires a != [] && a[|a| - 1] == '\n'
    ensures BreakIndex(a + rest) == BreakIndex(a) < |a| && NextLine(a + rest) == NextLine(a)
    ensures (a + rest)[..BreakIndex(a)] == a[..BreakIndex(a)]
    ensures (a + rest)[NextLine(a)..] == a[NextLine(a)..] + rest
  {
    BreakIndexPrefix(a, rest);
    assert forall i :: 0 <= i < |a| ==> (a + rest)[i] == a[i];
  }

  lemma BreakIndexPrefix(a: string, rest: string)
    requires a != [] && IsBreak(a[|a| - 1])
    ensures BreakIndex(a + rest) == BreakIndex(a) < |a|
  {
    var n, m := BreakIndex(a), BreakIndex(a + rest);
    assert forall i :: 0 <= i < |a| ==> (a + rest)[i] == a[i];
    assert n < |a|;
    assert m < |a + rest| && IsBreak((a + rest)[n]);
    assert m <= n;
    assert IsBreak((a + rest)[m]) && (a + rest)[m] == a[m];
  }

  /** Whatever break ends it, an unbroken prefix is the first line. */
  lemma SplitLinesFirst(line: string, c: char, rest: string)
    requires Unbroken(line) && IsBreak(c)
    ensures |SplitLines(line + [c] + rest)| > 0 && SplitLines(line + [c] + rest)[0] == line
  {
    var s := line + [c] + rest;
    assert s[|line|] == c;
    var n := BreakIndex(s);
    assert forall i :: 0 <= i < |line| ==> s[i] == line[i];
    assert n == |line| && s[..n] == line;
  }
}
