/**
 * Reading the Prometheus text exposition format (observability/promtext.py).
 *
 * Every parsing loop is a method proved equal to a recursive function; the properties
 * are then proved about the functions. Sample values stay abstract: `num` is `float()` on a
 * token, absent where it raises.
 */
module Exposition {
  import opened Seqs
  import opened Text

  datatype Sample<V> = Sample(name: string, labels: map<string, string>, value: V)

  datatype Problem =
    | ExpectedNameValue | NoMetricName | UnterminatedLabelSet | NoEquals | EmptyLabelName
    | ValueNotQuoted | TrailingEscape | UnterminatedValue | NoValue | NotANumber

  datatype Result<+T> = Ok(value: T) | Err(line: nat, problem: Problem)

  // ----- the label set ------------------------------------------------------

  /** Where the label set that is being scanned at `i` ends. */
  function CloseFrom(line: string, i: nat, quoted: bool): (r: Option<nat>)
    ensures r.Some? ==> i <= r.value < |line| && line[r.value] == '}'
    decreases |line| - i
  {
    if i >= |line| then None
    else if quoted && line[i] == '\\' then CloseFrom(line, i + 2, quoted)
    else if line[i] == '"' then CloseFrom(line, i + 1, !quoted)
    else if line[i] == '}' && !quoted then Some(i)
    else CloseFrom(line, i + 1, quoted)
  }

  method ClosingBrace(line: string, start: nat) returns (r: Option<nat>)
    ensures r == CloseFrom(line, start, false)
  {
    var quoted, i := false, start;
    while i < |line|
      invariant CloseFrom(line, start, false) == CloseFrom(line, i, quoted)
    {
      var c := line[i];
      if quoted && c == '\\' {
        i := i + 2;
        continue;
      }
      if c == '"' {
        quoted := !quoted;
      } else if c == '}' && !quoted {
        return Some(i);
      }
      i := i + 1;
    }
    return None;
  }

  /** What a backslash followed by `c` stands for. */
  function Unescape(c: char): string {
    if c == 'n' then "\n" else if c == '"' then "\"" else if c == '\\' then "\\" else ['\\', c]
  }

  /** The rest of a quoted value, after `chars` of it, and the position past its quote. */
  function QuotedFrom(body: string, i: nat, chars: string, lineno: nat): (r: Result<(string, nat)>)
    ensures r.Ok? ==> i < r.value.1 <= |body|
    decreases |body| - i
  {
    if i >= |body| then Err(lineno, UnterminatedValue)
    else if body[i] == '\\' then
      if i + 1 >= |body| then Err(lineno, TrailingEscape)
      else QuotedFrom(body, i + 2, chars + Unescape(body[i + 1]), lineno)
    else if body[i] == '"' then Ok((chars, i + 1))
    else QuotedFrom(body, i + 1, chars + [body[i]], lineno)
  }

  method ParseQuoted(body: string, start: nat, lineno: nat) returns (r: Result<(string, nat)>)
    ensures r == QuotedFrom(body, start, "", lineno)
  {
    var chars, i := "", start;
    while i < |body|
      invariant QuotedFrom(body, start, "", lineno) == QuotedFrom(body, i, chars, lineno)
    {
      var c := body[i];
      if c == '\\' {
        if i + 1 >= |body| {
          return Err(lineno, TrailingEscape);
        }
        chars := chars + Unescape(body[i + 1]);
        i := i + 2;
        continue;
      }
      if c == '"' {
        return Ok((chars, i + 1));
      }
      chars := chars + [c];
      i := i + 1;
    }
    return Err(lineno, UnterminatedValue);
  }

  predicate Skippable(c: char, commas: bool) {
    c == ' ' || c == '\t' || (commas && c == ',')
  }

  function SkipFrom(body: string, i: nat, commas: bool): (r: nat)
    requires i <= |body|
    ensures i <= r <= |body| && (r < |body| ==> !Skippable(body[r], commas))
    decreases |body| - i
  {
    if i < |body| && Skippable(body[i], commas) then SkipFrom(body, i + 1, commas) else i
  }

  method Skip(body: string, start: nat, commas: bool) returns (i: nat)
    requires start <= |body|
    ensures i == SkipFrom(body, start, commas)
  {
    i := start;
    while i < |body| && Skippable(body[i], commas)
      invariant start <= i <= |body| && SkipFrom(body, start, commas) == SkipFrom(body, i, commas)
    {
      i := i + 1;
    }
  }

  /** One `key="value"` at `j`: its key, its value and where it ends. */
  function LabelAt(body: string, j: nat, lineno: nat): (r: Result<(string, string, nat)>)
    requires j <= |body|
    ensures r.Ok? ==> j < r.value.2 <= |body|
  {
    var equals := Find(body, '=', j);
    if equals.None? then Err(lineno, NoEquals)
    else
      var key := Strip(body[j..equals.value]);
      if key == [] then Err(lineno, EmptyLabelName)
      else
        var q := SkipFrom(body, equals.value + 1, false);
        if q >= |body| || body[q] != '"' then Err(lineno, ValueNotQuoted)
        else
          var quoted := QuotedFrom(body, q + 1, "", lineno);
          if quoted.Err? then Err(quoted.line, quoted.problem)
          else Ok((key, quoted.value.0, quoted.value.1))
  }

  /** The labels read from position `i` on, added to those already read; a repeated key is overwritten. */
  function LabelsFrom(body: string, i: nat, labels: map<string, string>, lineno: nat): Result<map<string, string>>
    requires i <= |body|
    decreases |body| - i
  {
    var j := SkipFrom(body, i, true);
    if j >= |body| then Ok(labels)
    else
      var found := LabelAt(body, j, lineno);
      if found.Err? then Err(found.line, found.problem)
      else LabelsFrom(body, found.value.2, labels[found.value.0 := found.value.1], lineno)
  }

  method ParseLabel(body: string, j: nat, lineno: nat) returns (r: Result<(string, string, nat)>)
    requires j <= |body|
    ensures r == LabelAt(body, j, lineno)
  {
    var equals := Find(body, '=', j);
    if equals.None? {
      return Err(lineno, NoEquals);
    }
    var key := Strip(body[j..equals.value]);
    if key == [] {
      return Err(lineno, EmptyLabelName);
    }
    var q := Skip(body, equals.value + 1, false);
    if q >= |body| || body[q] != '"' {
      return Err(lineno, ValueNotQuoted);
    }
    var quoted := ParseQuoted(body, q + 1, lineno);
    if quoted.Err? {
      return Err(quoted.line, quoted.problem);
    }
    return Ok((key, quoted.value.0, quoted.value.1));
  }

  method ParseLabels(body: string, lineno: nat) returns (r: Result<map<string, string>>)
    ensures r == LabelsFrom(body, 0, map[], lineno)
  {
    var labels: map<string, string>, i := map[], 0;
    while i < |body|
      invariant i <= |body|
      invariant LabelsFrom(body, 0, map[], lineno) == LabelsFrom(body, i, labels, lineno)
    {
      var j := Skip(body, i, true);
      if j >= |body| {
        return Ok(labels);
      }
      var found := ParseLabel(body, j, lineno);
      if found.Err? {
        return Err(found.line, found.problem);
      }
      labels, i := labels[found.value.0 := found.value.1], found.value.2;
    }
    return Ok(labels);
  }

  // ----- samples and the whole text -----------------------------------------

  function Valued<V>(name: string, labels: map<string, string>, token: string, num: string -> Option<V>, lineno: nat)
    : Result<Sample<V>>
  {
    match num(token)
    case None => Err(lineno, NotANumber)
    case Some(v) => Ok(Sample(name, labels, v))
  }

  /** A line cut into its parts, before any of them is read. */
  datatype Cut = Unreadable(problem: Problem) | Bare(line: string) | Labelled(name: string, body: string, tail: string)

  function CutOf(line: string): Cut {
    var brace := Find(line, '{', 0);
    if brace.None? then Bare(line)
    else
      var name := Strip(line[..brace.value]);
      if name == [] then Unreadable(NoMetricName)
      else
        var close := CloseFrom(line, brace.value + 1, false);
        if close.None? then Unreadable(UnterminatedLabelSet)
        else Labelled(name, line[brace.value + 1..close.value], line[close.value + 1..])
  }

  function SampleOf<V>(line: string, lineno: nat, num: string -> Option<V>): Result<Sample<V>> {
    Read(CutOf(line), lineno, num)
  }

  function Read<V>(cut: Cut, lineno: nat, num: string -> Option<V>): Result<Sample<V>> {
    match cut
    case Unreadable(problem) => Err(lineno, problem)
    case Bare(line) =>
      var parts := Words(line);
      if |parts| < 2 then Err(lineno, ExpectedNameValue)
      else Valued(parts[0], map[], parts[1], num, lineno)
    case Labelled(name, body, tail) =>
      var labels := LabelsFrom(body, 0, map[], lineno);
      if labels.Err? then Err(labels.line, labels.problem)
      else
        var rest := Words(tail);
        if rest == [] then Err(lineno, NoValue)
        else Valued(name, labels.value, rest[0], num, lineno)
  }

  method ParseSample<V>(line: string, lineno: nat, num: string -> Option<V>) returns (r: Result<Sample<V>>)
    ensures r == SampleOf(line, lineno, num)
  {
    var brace := Find(line, '{', 0);
    if brace.None? {
      var parts := Words(line);
      if |parts| < 2 {
        return Err(lineno, ExpectedNameValue);
      }
      return Valued(parts[0], map[], parts[1], num, lineno);
    }
    var name := Strip(line[..brace.value]);
    if name == [] {
      return Err(lineno, NoMetricName);
    }
    var close := ClosingBrace(line, brace.value + 1);
    if close.None? {
      return Err(lineno, UnterminatedLabelSet);
    }
    var labels := ParseLabels(line[brace.value + 1..close.value], lineno);
    if labels.Err? {
      return Err(labels.line, labels.problem);
    }
    var rest := Words(line[close.value + 1..]);
    if rest == [] {
      return Err(lineno, NoValue);
    }
    return Valued(name, labels.value, rest[0], num, lineno);
  }

  predicate Ignored(line: string) {
    line == [] || line[0] == '#'
  }

  /** The samples of the lines, in order; the first bad line is the result if there is one. */
  function SamplesOf<V>(lines: seq<string>, lineno: nat, num: string -> Option<V>): Result<seq<Sample<V>>> {
    if lines == [] then Ok([])
    else After(LineOf(lines[0], lineno, num), SamplesOf(lines[1..], lineno + 1, num))
  }

  /** What one line contributes: no sample, one sample, or an error. */
  function LineOf<V>(raw: string, lineno: nat, num: string -> Option<V>): Result<seq<Sample<V>>> {
    var line := Strip(raw);
    if Ignored(line) then Ok([])
    else
      var sample := SampleOf(line, lineno, num);
      if sample.Err? then Err(sample.line, sample.problem) else Ok([sample.value])
  }

  function After<V>(first: Result<seq<Sample<V>>>, rest: Result<seq<Sample<V>>>): Result<seq<Sample<V>>> {
    if first.Err? then first else if rest.Err? then rest else Ok(first.value + rest.value)
  }

  function Parsed<V>(text: string, num: string -> Option<V>): Result<seq<Sample<V>>> {
    SamplesOf(SplitLines(text), 1, num)
  }

  method ParseLine<V>(raw: string, lineno: nat, num: string -> Option<V>) returns (r: Result<seq<Sample<V>>>)
    ensures r == LineOf(raw, lineno, num)
  {
    var line := Strip(raw);
    if Ignored(line) {
      return Ok([]);
    }
    var sample := ParseSample(line, lineno, num);
    if sample.Err? {
      return Err(sample.line, sample.problem);
    }
    return Ok([sample.value]);
  }

  method ParseExposition<V>(text: string, num: string -> Option<V>) returns (r: Result<seq<Sample<V>>>)
    ensures r == Parsed(text, num)
  {
    var lines := SplitLines(text);
    var samples: seq<Sample<V>> := [];
    assert lines[0..] == lines;
    AfterNothing(SamplesOf(lines, 1, num));
    for k := 0 to |lines|
      invariant Parsed(text, num) == After(Ok(samples), SamplesOf(lines[k..], k + 1, num))
    {
      var found := ParseLine(lines[k], k + 1, num);
      SamplesStep(lines, k, num);
      if found.Err? {
        return found;
      }
      AfterTwice(samples, found.value, SamplesOf(lines[k + 1..], k + 2, num));
      samples := samples + found.value;
    }
    assert samples + [] == samples;
    r := Ok(samples);
  }

  lemma SamplesStep<V>(lines: seq<string>, k: nat, num: string -> Option<V>)
    requires k < |lines|
    ensures SamplesOf(lines[k..], k + 1, num)
         == After(LineOf(lines[k], k + 1, num), SamplesOf(lines[k + 1..], k + 2, num))
  {
    assert lines[k..][1..] == lines[k + 1..];
  }

  lemma AfterNothing<V>(rest: Result<seq<Sample<V>>>)
    ensures After(Ok([]), rest) == rest
  {
    if rest.Ok? {
      assert [] + rest.value == rest.value;
    }
  }

  lemma AfterTwice<V>(a: seq<Sample<V>>, b: seq<Sample<V>>, rest: Result<seq<Sample<V>>>)
    ensures After(Ok(a), After(Ok(b), rest)) == After(Ok(a + b), rest)
  {
    if rest.Ok? {
      assert a + (b + rest.value) == a + b + rest.value;
    }
  }
}
