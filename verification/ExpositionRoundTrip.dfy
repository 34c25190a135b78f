/**
 * A printer for the text format (Prometheus text-based exposition format, version 0.0.4,
 * section "Text format details") and the proof that the parser inverts it.
 */
module ExpositionRoundTrip {
  import opened Seqs
  import opened Text
  import opened Exposition

  /** One line as an exporter writes it. */
  datatype Entry<V> =
    | Blank(space: string)
    | Comment(text: string)
    | Series(name: string, pairs: seq<(string, string)>, value: V, stamp: Option<string>)

  function EscapeChar(c: char): string {
    if c == '\n' then "\\n" else if c == '"' then "\\\"" else if c == '\\' then "\\\\" else [c]
  }

  function Escape(v: string): string {
    if v == [] then [] else EscapeChar(v[0]) + Escape(v[1..])
  }

  function PrintPair(p: (string, string)): string {
    p.0 + ("=\"" + (Escape(p.1) + "\""))
  }

  function PrintPairs(pairs: seq<(string, string)>): string {
    if pairs == [] then []
    else if |pairs| == 1 then PrintPair(pairs[0])
    else PrintPair(pairs[0]) + ("," + PrintPairs(pairs[1..]))
  }

  function Stamp(stamp: Option<string>): string {
    match stamp case None => "" case Some(t) => " " + t
  }

  function PrintEntry<V>(e: Entry<V>, show: V -> string): string {
    match e
    case Blank(space) => space
    case Comment(text) => "#" + text
    case Series(name, pairs, value, stamp) =>
      if pairs == [] then name + " " + (show(value) + Stamp(stamp))
      else name + ("{" + (PrintPairs(pairs) + ("}" + (" " + (show(value) + Stamp(stamp))))))
  }

  function Print<V>(doc: seq<Entry<V>>, show: V -> string): string {
    if doc == [] then [] else PrintEntry(doc[0], show) + "\n" + Print(doc[1..], show)
  }

  /** The dict a list of pairs builds: a later pair wins over an earlier one with the same key. */
  function Labels(pairs: seq<(string, string)>, onto: map<string, string>): map<string, string> {
    if pairs == [] then onto else Labels(pairs[1..], onto[pairs[0].0 := pairs[0].1])
  }

  function Samples<V>(doc: seq<Entry<V>>): seq<Sample<V>> {
    if doc == [] then []
    else if doc[0].Series? then [Sample(doc[0].name, Labels(doc[0].pairs, map[]), doc[0].value)] + Samples(doc[1..])
    else Samples(doc[1..])
  }

  // ----- what an exporter may write -----------------------------------------

  predicate IsName(s: string) {
    IsWord(s) && s[0] != '#' && '{' !in s
  }

  predicate KeyChar(c: char) {
    !IsSpace(c) && c != '=' && c != ',' && c != '"' && c != '}'
  }

  predicate IsKey(s: string) {
    s != [] && forall i :: 0 <= i < |s| ==> KeyChar(s[i])
  }

  /** Milliseconds since the epoch, in decimal. */
  predicate IsStamp(s: string) {
    s != [] && forall i :: 0 <= i < |s| ==> '0' <= s[i] <= '9' || s[i] == '-'
  }

  /**
   * What the format asks of a line, or more. Label values are arbitrary; comments, help texts among
   * them, hold any characters but newline, which would end them.
   */
  predicate Writable<V>(e: Entry<V>) {
    match e
    case Blank(space) => forall i :: 0 <= i < |space| ==> space[i] == ' ' || space[i] == '\t'
    case Comment(text) => '\n' !in text
    case Series(name, pairs, _, stamp) =>
      && IsName(name) && (forall i :: 0 <= i < |pairs| ==> IsKey(pairs[i].0))
      && (stamp.Some? ==> IsStamp(stamp.value))
  }

  /** No line terminator except newline, which the format escapes. */
  predicate OneLine(v: string) {
    forall i :: 0 <= i < |v| ==> IsBreak(v[i]) ==> v[i] == '\n'
  }

  predicate OneLiner<V>(e: Entry<V>) {
    e.Series? ==> forall i :: 0 <= i < |e.pairs| ==> OneLine(e.pairs[i].1)
  }

  /** The lines that the parser sees in a comment: every break in it starts one. */
  function CommentLines(text: string): seq<string> {
    SplitLines("#" + text + "\n")
  }

  /** All of them are blank or comments themselves. */
  predicate Harmless(text: string) {
    forall i :: 0 <= i < |CommentLines(text)| ==> Ignored(Strip(CommentLines(text)[i]))
  }

  /** Read for what it is. */
  predicate Intact<V>(e: Entry<V>) {
    match e
    case Blank(_) => true
    case Comment(text) => Harmless(text)
    case Series(_, _, _, _) => OneLiner(e)
  }

  /** The value is written as one word without a brace, and `num` reads it back. */
  predicate Shown<V(==)>(v: V, num: string -> Option<V>, show: V -> string) {
    IsWord(show(v)) && '{' !in show(v) && num(show(v)) == Some(v)
  }

  predicate Readable<V(==)>(e: Entry<V>, num: string -> Option<V>, show: V -> string) {
    e.Series? ==> Shown(e.value, num, show)
  }

  /** Every value of the document is; nothing is asked of values that are not in it. */
  predicate Legible<V(==)>(doc: seq<Entry<V>>, num: string -> Option<V>, show: V -> string) {
    forall i :: 0 <= i < |doc| ==> Readable(doc[i], num, show)
  }

  // ----- the closing brace is found past every string ------------------------

  lemma {:induction false} CloseSkipsValue(line: string, i: nat, v: string)
    requires At(line, i, Escape(v))
    ensures CloseFrom(line, i, true) == CloseFrom(line, i + |Escape(v)|, true)
    decreases |v|
  {
    if v != [] {
      var e := EscapeChar(v[0]);
      AtParts(line, i, e, Escape(v[1..]));
      AtChar(line, i, e, 0);
      CloseSkipsValue(line, i + |e|, v[1..]);
    }
  }

  lemma {:induction false} CloseSkipsKey(line: string, i: nat, k: string)
    requires At(line, i, k) && '"' !in k && '}' !in k
    ensures CloseFrom(line, i, false) == CloseFrom(line, i + |k|, false)
    decreases |k|
  {
    if k != [] {
      assert k == [k[0]] + k[1..] && k[0] in k;
      AtParts(line, i, [k[0]], k[1..]);
      AtChar(line, i, [k[0]], 0);
      CloseSkipsKey(line, i + 1, k[1..]);
    }
  }

  /** After the key, inside the opening quote of the value. */
  lemma CloseEntersValue(line: string, i: nat, k: string)
    requires At(line, i, k + "=\"") && IsKey(k)
    ensures CloseFrom(line, i, false) == CloseFrom(line, i + |k| + 2, true)
  {
    AtParts(line, i, k, "=\"");
    assert '"' !in k && '}' !in k;
    CloseSkipsKey(line, i, k);
    OpeningQuote(line, i + |k|);
  }

  lemma OpeningQuote(line: string, i: nat)
    requires At(line, i, "=\"")
    ensures line[i] == '=' && line[i + 1] == '"'
    ensures CloseFrom(line, i, false) == CloseFrom(line, i + 2, true)
  {
    AtChar(line, i, "=\"", 0);
    AtChar(line, i, "=\"", 1);
    assert CloseFrom(line, i, false) == CloseFrom(line, i + 1, false);
  }

  lemma CloseSkipsPair(line: string, i: nat, p: (string, string))
    requires At(line, i, PrintPair(p)) && IsKey(p.0)
    ensures CloseFrom(line, i, false) == CloseFrom(line, i + |PrintPair(p)|, false)
  {
    PairParts(line, i, p);
    var j := i + |p.0| + 2;
    CloseEntersValue(line, i, p.0);
    CloseSkipsValue(line, j, p.1);
    AtChar(line, j + |Escape(p.1)|, "\"", 0);
  }

  lemma PairParts(line: string, i: nat, p: (string, string))
    requires At(line, i, PrintPair(p))
    ensures At(line, i, p.0 + "=\"")
    ensures At(line, i + |p.0| + 2, Escape(p.1))
    ensures At(line, i + |p.0| + 2 + |Escape(p.1)|, "\"")
  {
    AtParts(line, i, p.0, "=\"" + (Escape(p.1) + "\""));
    AtParts(line, i + |p.0|, "=\"", Escape(p.1) + "\"");
    AtParts(line, i + |p.0| + 2, Escape(p.1), "\"");
    AtParts(line, i, p.0, "=\"");
  }

  lemma PairsParts(line: string, i: nat, pairs: seq<(string, string)>)
    requires |pairs| > 1 && At(line, i, PrintPairs(pairs))
    ensures At(line, i, PrintPair(pairs[0]))
    ensures i + |PrintPair(pairs[0])| < |line| && line[i + |PrintPair(pairs[0])|] == ','
    ensures At(line, i + |PrintPair(pairs[0])| + 1, PrintPairs(pairs[1..]))
    ensures |PrintPairs(pairs)| == |PrintPair(pairs[0])| + 1 + |PrintPairs(pairs[1..])|
  {
    var head, tail := PrintPair(pairs[0]), PrintPairs(pairs[1..]);
    AtParts(line, i, head, "," + tail);
    AtParts(line, i + |head|, ",", tail);
    AtChar(line, i + |head|, ",", 0);
  }

  lemma {:induction false} CloseSkipsPairs(line: string, i: nat, pairs: seq<(string, string)>)
    requires At(line, i, PrintPairs(pairs)) && forall k :: 0 <= k < |pairs| ==> IsKey(pairs[k].0)
    ensures CloseFrom(line, i, false) == CloseFrom(line, i + |PrintPairs(pairs)|, false)
    decreases |pairs|
  {
    if |pairs| == 1 {
      CloseSkipsPair(line, i, pairs[0]);
    } else if |pairs| > 1 {
      var head := PrintPair(pairs[0]);
      PairsParts(line, i, pairs);
      CloseSkipsPair(line, i, pairs[0]);
      CloseSkipsPairs(line, i + |head| + 1, pairs[1..]);
    }
  }

  // ----- the label loop reads the pairs back ---------------------------------

  lemma QuotedChar(body: string, i: nat, c: char, chars: string, lineno: nat)
    requires At(body, i, EscapeChar(c))
    ensures QuotedFrom(body, i, chars, lineno) == QuotedFrom(body, i + |EscapeChar(c)|, chars + [c], lineno)
  {
    var e := EscapeChar(c);
    AtChar(body, i, e, 0);
    if |e| == 2 {
      AtChar(body, i, e, 1);
      assert Unescape(e[1]) == [c];
    }
  }

  lemma {:induction false} QuotedReads(body: string, i: nat, v: string, chars: string, lineno: nat)
    requires At(body, i, Escape(v) + "\"")
    ensures var r := QuotedFrom(body, i, chars, lineno);
      r.Ok? && r.value.0 == chars + v && r.value.1 == i + |Escape(v)| + 1
    decreases |v|
  {
    if v == [] {
      assert Escape(v) + "\"" == "\"";
      AtChar(body, i, "\"", 0);
      assert chars + v == chars;
    } else {
      var e, rest := EscapeChar(v[0]), Escape(v[1..]) + "\"";
      assert Escape(v) + "\"" == e + rest;
      AtParts(body, i, e, rest);
      QuotedChar(body, i, v[0], chars, lineno);
      QuotedReads(body, i + |e|, v[1..], chars + [v[0]], lineno);
      assert chars + [v[0]] + v[1..] == chars + v;
    }
  }

  lemma KeyChars(body: string, i: nat, k: string)
    requires At(body, i, k) && IsKey(k)
    ensures i + |k| <= |body| && forall j :: i <= j < i + |k| ==> KeyChar(body[j])
  {
    AtBound(body, i, k);
    forall j | i <= j < i + |k| ensures KeyChar(body[j]) {
      AtChar(body, i, k, j - i);
    }
  }

  lemma KeyFound(body: string, i: nat, k: string)
    requires At(body, i, k) && IsKey(k) && i + |k| < |body| && body[i + |k|] == '='
    ensures SkipFrom(body, i, true) == i
    ensures var r := Find(body, '=', i); r.Some? && r.value == i + |k|
  {
    KeyChars(body, i, k);
    FindIs(body, '=', i, i + |k|);
  }

  lemma KeyStrips(body: string, i: nat, k: string)
    requires At(body, i, k) && IsKey(k)
    ensures i + |k| <= |body| && Strip(body[i..i + |k|]) == k
  {
    AtSlice(body, i, k);
    StripWhole(k);
  }

  lemma PairReads(body: string, i: nat, p: (string, string), lineno: nat)
    requires At(body, i, PrintPair(p)) && IsKey(p.0)
    ensures SkipFrom(body, i, true) == i < |body|
    ensures var r := LabelAt(body, i, lineno);
      r.Ok? && r.value.0 == p.0 && r.value.1 == p.1 && r.value.2 == i + |PrintPair(p)|
  {
    var equals := i + |p.0|;
    PairParts(body, i, p);
    KeyReads(body, i, p.0);
    ValueReads(body, equals + 2, p.1, lineno);
    LabelIs(body, i, p.0, equals, p.1, equals + 2 + |Escape(p.1)| + 1, lineno);
  }

  lemma KeyReads(body: string, i: nat, k: string)
    requires At(body, i, k + "=\"") && IsKey(k)
    ensures i + |k| + 1 < |body| && SkipFrom(body, i, true) == i
    ensures var r := Find(body, '=', i); r.Some? && r.value == i + |k|
    ensures Strip(body[i..i + |k|]) == k && body[i + |k| + 1] == '"'
  {
    AtParts(body, i, k, "=\"");
    OpeningQuote(body, i + |k|);
    KeyFound(body, i, k);
    KeyStrips(body, i, k);
  }

  lemma ValueReads(body: string, i: nat, v: string, lineno: nat)
    requires At(body, i, Escape(v)) && At(body, i + |Escape(v)|, "\"")
    ensures var r := QuotedFrom(body, i, "", lineno); r.Ok? && r.value.0 == v && r.value.1 == i + |Escape(v)| + 1
  {
    AtParts(body, i, Escape(v), "\"");
    QuotedReads(body, i, v, "", lineno);
    assert "" + v == v;
  }

  lemma LabelIs(body: string, i: nat, k: string, equals: nat, v: string, next: nat, lineno: nat)
    requires i <= equals && equals + 1 < |body| && (var r := Find(body, '=', i); r.Some? && r.value == equals)
    requires Strip(body[i..equals]) == k != []
    requires body[equals + 1] == '"'
    requires var r := QuotedFrom(body, equals + 2, "", lineno); r.Ok? && r.value.0 == v && r.value.1 == next
    ensures var r := LabelAt(body, i, lineno); r.Ok? && r.value.0 == k && r.value.1 == v && r.value.2 == next
  {}

  lemma LabelsStep(body: string, i: nat, p: (string, string), labels: map<string, string>, lineno: nat) returns (next: nat)
    requires At(body, i, PrintPair(p)) && IsKey(p.0)
    ensures next == i + |PrintPair(p)| <= |body|
    ensures LabelsFrom(body, i, labels, lineno) == LabelsFrom(body, next, labels[p.0 := p.1], lineno)
  {
    next := i + |PrintPair(p)|;
    AtBound(body, i, PrintPair(p));
    PairReads(body, i, p, lineno);
    LabelsUnfold(body, i, p.0, p.1, next, labels, lineno);
  }

  lemma LabelsUnfold(body: string, i: nat, k: string, v: string, next: nat, labels: map<string, string>, lineno: nat)
    requires i < |body| && next <= |body| && SkipFrom(body, i, true) == i
    requires var r := LabelAt(body, i, lineno); r.Ok? && r.value.0 == k && r.value.1 == v && r.value.2 == next
    ensures LabelsFrom(body, i, labels, lineno) == LabelsFrom(body, next, labels[k := v], lineno)
  {}

  lemma LabelsDone(body: string, i: nat, labels: map<string, string>, lineno: nat)
    requires i == |body|
    ensures LabelsFrom(body, i, labels, lineno) == Ok(labels)
  {}

  lemma {:induction false} PairsRead(body: string, i: nat, pairs: seq<(string, string)>, labels: map<string, string>, lineno: nat)
    requires At(body, i, PrintPairs(pairs)) && i + |PrintPairs(pairs)| == |body|
    requires forall k :: 0 <= k < |pairs| ==> IsKey(pairs[k].0)
    ensures i <= |body|
    ensures var r := LabelsFrom(body, i, labels, lineno); r.Ok? && r.value == Labels(pairs, labels)
    decreases |pairs|
  {
    if pairs == [] {
      LabelsDone(body, i, labels, lineno);
    } else if |pairs| == 1 {
      var next := LabelsStep(body, i, pairs[0], labels, lineno);
      LabelsDone(body, next, labels[pairs[0].0 := pairs[0].1], lineno);
      assert pairs[1..] == [];
    } else {
      var at := FirstPairRead(body, i, pairs, labels, lineno);
      PairsRead(body, at, pairs[1..], labels[pairs[0].0 := pairs[0].1], lineno);
    }
  }

  /** Past the first pair and its comma. */
  lemma FirstPairRead(body: string, i: nat, pairs: seq<(string, string)>, labels: map<string, string>, lineno: nat) returns (at: nat)
    requires |pairs| > 1 && At(body, i, PrintPairs(pairs)) && IsKey(pairs[0].0)
    ensures i < at <= |body| && At(body, at, PrintPairs(pairs[1..]))
    ensures at + |PrintPairs(pairs[1..])| == i + |PrintPairs(pairs)|
    ensures LabelsFrom(body, i, labels, lineno) == LabelsFrom(body, at, labels[pairs[0].0 := pairs[0].1], lineno)
  {
    PairsParts(body, i, pairs);
    PairAndComma(body, i, pairs[0], labels, lineno);
    at := i + |PrintPair(pairs[0])| + 1;
  }

  lemma PairAndComma(body: string, i: nat, p: (string, string), labels: map<string, string>, lineno: nat)
    requires At(body, i, PrintPair(p)) && IsKey(p.0)
    requires i + |PrintPair(p)| < |body| && body[i + |PrintPair(p)|] == ','
    ensures LabelsFrom(body, i, labels, lineno) == LabelsFrom(body, i + |PrintPair(p)| + 1, labels[p.0 := p.1], lineno)
  {
    var comma := LabelsStep(body, i, p, labels, lineno);
    CommaSkipped(body, comma, labels[p.0 := p.1], lineno);
  }

  lemma CommaSkipped(body: string, i: nat, labels: map<string, string>, lineno: nat)
    requires i < |body| && body[i] == ','
    ensures LabelsFrom(body, i, labels, lineno) == LabelsFrom(body, i + 1, labels, lineno)
  {
    assert SkipFrom(body, i, true) == SkipFrom(body, i + 1, true);
  }

  // ----- one line ------------------------------------------------------------

  lemma NoBrace(name: string, token: string)
    requires '{' !in name && '{' !in token
    ensures Find(name + " " + token, '{', 0) == None
  {
    var line := name + " " + token;
    forall k | 0 <= k < |line| ensures line[k] != '{' {
      if k < |name| {
        assert line[k] == name[k] && name[k] in name;
      } else if k > |name| {
        assert line[k] == token[k - |name| - 1] && token[k - |name| - 1] in token;
      }
    }
  }

  lemma ValueWord(token: string, stamp: Option<string>)
    requires IsWord(token)
    ensures var w := Words(" " + (token + Stamp(stamp))); w != [] && w[0] == token
  {
    var tail := token + Stamp(stamp);
    WordsSkipSpace(" " + tail);
    assert (" " + tail)[1..] == tail;
    WordFirst(token, Stamp(stamp));
  }

  lemma TailEnds(token: string, stamp: Option<string>)
    requires IsWord(token) && '{' !in token && (stamp.Some? ==> IsStamp(stamp.value))
    ensures var tail := token + Stamp(stamp); tail != [] && !IsSpace(tail[|tail| - 1]) && '{' !in tail && Unbroken(tail)
  {}

  lemma BareSeriesReads<V>(name: string, value: V, stamp: Option<string>, lineno: nat, num: string -> Option<V>, show: V -> string)
    requires Shown(value, num, show) && IsName(name) && (stamp.Some? ==> IsStamp(stamp.value))
    ensures SampleOf(name + " " + (show(value) + Stamp(stamp)), lineno, num) == Ok(Sample(name, map[], value))
  {
    TailEnds(show(value), stamp);
    NoBrace(name, show(value) + Stamp(stamp));
    BareWords(name, show(value), stamp);
    BareIs(name + " " + (show(value) + Stamp(stamp)), name, show(value), value, lineno, num);
  }

  lemma BareWords(name: string, token: string, stamp: Option<string>)
    requires IsWord(name) && IsWord(token)
    ensures var w := Words(name + " " + (token + Stamp(stamp))); |w| >= 2 && w[0] == name && w[1] == token
  {
    ValueWord(token, stamp);
    WordThen(name, token + Stamp(stamp));
  }

  lemma WordThen(name: string, tail: string)
    requires IsWord(name)
    ensures Words(name + " " + tail) == [name] + Words(" " + tail)
  {
    SpaceBetween(name, tail);
    WordFirst(name, " " + tail);
  }

  lemma SpaceBetween(name: string, tail: string)
    ensures name + " " + tail == name + (" " + tail)
  {}

  lemma BareIs<V>(line: string, name: string, token: string, value: V, lineno: nat, num: string -> Option<V>)
    requires Find(line, '{', 0).None? && num(token) == Some(value)
    requires var w := Words(line); |w| >= 2 && w[0] == name && w[1] == token
    ensures SampleOf(line, lineno, num) == Ok(Sample(name, map[], value))
  {}

  lemma PairsReadWhole(pairs: seq<(string, string)>, lineno: nat)
    requires forall k :: 0 <= k < |pairs| ==> IsKey(pairs[k].0)
    ensures var r := LabelsFrom(PrintPairs(pairs), 0, map[], lineno); r.Ok? && r.value == Labels(pairs, map[])
  {
    var body := PrintPairs(pairs);
    assert body[0..0 + |body|] == body;
    AtSlice(body, 0, body);
    PairsRead(body, 0, pairs, map[], lineno);
  }

  lemma ClosesAtBrace(line: string, i: nat, pairs: seq<(string, string)>)
    requires At(line, i, PrintPairs(pairs) + "}") && forall k :: 0 <= k < |pairs| ==> IsKey(pairs[k].0)
    ensures var r := CloseFrom(line, i, false); r.Some? && r.value == i + |PrintPairs(pairs)|
  {
    var body := PrintPairs(pairs);
    AtParts(line, i, body, "}");
    AtChar(line, i + |body|, "}", 0);
    CloseSkipsPairs(line, i, pairs);
  }

  lemma CutsAt(line: string, name: string, close: nat)
    requires |name| < close < |line| && Strip(line[..|name|]) == name != []
    requires var r := Find(line, '{', 0); r.Some? && r.value == |name|
    requires var r := CloseFrom(line, |name| + 1, false); r.Some? && r.value == close
    ensures var c := CutOf(line);
      c.Labelled? && c.name == name && c.body == line[|name| + 1..close] && c.tail == line[close + 1..]
  {}

  lemma ReadIs<V>(name: string, body: string, tail: string, labels: map<string, string>, token: string, value: V,
                  lineno: nat, num: string -> Option<V>)
    requires var r := LabelsFrom(body, 0, map[], lineno); r.Ok? && r.value == labels
    requires var w := Words(tail); w != [] && w[0] == token
    requires num(token) == Some(value)
    ensures Read(Labelled(name, body, tail), lineno, num) == Ok(Sample(name, labels, value))
  {}

  lemma LabelledReads<V>(name: string, pairs: seq<(string, string)>, value: V, stamp: Option<string>, lineno: nat,
                         num: string -> Option<V>, show: V -> string)
    requires Shown(value, num, show) && forall k :: 0 <= k < |pairs| ==> IsKey(pairs[k].0)
    ensures Read(Labelled(name, PrintPairs(pairs), " " + (show(value) + Stamp(stamp))), lineno, num)
         == Ok(Sample(name, Labels(pairs, map[]), value))
  {
    PairsReadWhole(pairs, lineno);
    ValueWord(show(value), stamp);
    ReadIs(name, PrintPairs(pairs), " " + (show(value) + Stamp(stamp)), Labels(pairs, map[]), show(value), value, lineno, num);
  }

  /** A name, a label set in braces and a tail: what the line is cut into, if the brace is found to close. */
  lemma Sections(line: string, name: string, body: string, tail: string, close: nat)
    requires '{' !in name && line == name + ("{" + (body + ("}" + tail))) && close == |name| + 1 + |body|
    ensures |name| < close < |line| && line[..|name|] == name
    ensures line[|name| + 1..close] == body && line[close + 1..] == tail
    ensures var r := Find(line, '{', 0); r.Some? && r.value == |name|
  {
    forall k | 0 <= k < |name| ensures line[k] != '{' {
      assert line[k] == name[k] && name[k] in name;
    }
    FindIs(line, '{', 0, |name|);
  }

  lemma BodyInPlace(line: string, name: string, body: string, tail: string)
    requires line == name + ("{" + (body + ("}" + tail)))
    ensures At(line, |name| + 1, body + "}")
  {
    assert line[|name| + 1..|name| + 1 + |body + "}"|] == body + "}";
    AtSlice(line, |name| + 1, body + "}");
  }

  lemma CutsIntoSections(line: string, name: string, body: string, tail: string, close: nat)
    requires IsName(name) && line == name + ("{" + (body + ("}" + tail))) && close == |name| + 1 + |body|
    requires var r := CloseFrom(line, |name| + 1, false); r.Some? && r.value == close
    ensures var c := CutOf(line); c.Labelled? && c.name == name && c.body == body && c.tail == tail
  {
    Sections(line, name, body, tail, close);
    StripWhole(name);
    CutsAt(line, name, close);
  }

  lemma LabelledSeriesCuts(line: string, name: string, pairs: seq<(string, string)>, tail: string)
    requires IsName(name) && forall k :: 0 <= k < |pairs| ==> IsKey(pairs[k].0)
    requires line == name + ("{" + (PrintPairs(pairs) + ("}" + tail)))
    ensures var c := CutOf(line); c.Labelled? && c.name == name && c.body == PrintPairs(pairs) && c.tail == tail
  {
    BodyInPlace(line, name, PrintPairs(pairs), tail);
    ClosesAtBrace(line, |name| + 1, pairs);
    CutsIntoSections(line, name, PrintPairs(pairs), tail, |name| + 1 + |PrintPairs(pairs)|);
  }

  lemma SeriesReads<V>(e: Entry<V>, lineno: nat, num: string -> Option<V>, show: V -> string)
    requires Readable(e, num, show) && e.Series? && Writable(e)
    ensures LineOf(PrintEntry(e, show), lineno, num) == Ok([Sample(e.name, Labels(e.pairs, map[]), e.value)])
  {
    var line, tail := PrintEntry(e, show), show(e.value) + Stamp(e.stamp);
    TailEnds(show(e.value), e.stamp);
    assert line[0] == e.name[0] && line[|line| - 1] == tail[|tail| - 1];
    StripWhole(line);
    if e.pairs == [] {
      BareSeriesReads(e.name, e.value, e.stamp, lineno, num, show);
    } else {
      LabelledSeriesCuts(line, e.name, e.pairs, " " + tail);
      LabelledReads(e.name, e.pairs, e.value, e.stamp, lineno, num, show);
    }
  }

  lemma {:induction false} StripBlank(s: string)
    requires forall i :: 0 <= i < |s| ==> IsSpace(s[i])
    ensures Strip(s) == []
  {
    if s != [] {
      StripBlank(s[1..]);
    }
  }

  lemma BlankReads<V>(space: string, lineno: nat, num: string -> Option<V>)
    requires Writable<V>(Blank(space))
    ensures LineOf(space, lineno, num) == Ok([])
  {
    StripBlank(space);
  }

  lemma {:induction false} StripRightKeepsFirst(s: string)
    requires s != [] && !IsSpace(s[0])
    ensures StripRight(s) != [] && StripRight(s)[0] == s[0]
    decreases |s|
  {
    if IsSpace(s[|s| - 1]) {
      StripRightKeepsFirst(s[..|s| - 1]);
    }
  }

  lemma StripKeepsFirst(s: string)
    requires s != [] && !IsSpace(s[0])
    ensures Strip(s) == StripRight(s) != [] && Strip(s)[0] == s[0]
  {
    StripRightKeepsFirst(s);
  }

  // ----- the whole text -------------------------------------------------------

  lemma {:induction false} EscapeUnbroken(v: string)
    requires OneLine(v)
    ensures Unbroken(Escape(v))
  {
    if v != [] {
      EscapeUnbroken(v[1..]);
    }
  }

  lemma PairUnbroken(p: (string, string))
    requires IsKey(p.0) && OneLine(p.1)
    ensures Unbroken(PrintPair(p))
  {
    EscapeUnbroken(p.1);
  }

  lemma {:induction false} PairsUnbroken(pairs: seq<(string, string)>)
    requires forall k :: 0 <= k < |pairs| ==> IsKey(pairs[k].0) && OneLine(pairs[k].1)
    ensures Unbroken(PrintPairs(pairs))
  {
    if pairs != [] {
      PairUnbroken(pairs[0]);
      PairsUnbroken(pairs[1..]);
    }
  }

  lemma SeriesUnbroken<V>(e: Entry<V>, num: string -> Option<V>, show: V -> string)
    requires Readable(e, num, show) && Writable(e) && e.Series? && OneLiner(e)
    ensures Unbroken(PrintEntry(e, show))
  {
    TailEnds(show(e.value), e.stamp);
    PairsUnbroken(e.pairs);
  }

  /** Each entry is split into lines on its own. */
  lemma PrintedLines<V>(doc: seq<Entry<V>>, show: V -> string)
    requires doc != []
    ensures SplitLines(Print(doc, show)) == SplitLines(PrintEntry(doc[0], show) + "\n") + SplitLines(Print(doc[1..], show))
  {
    SplitLinesConcat(PrintEntry(doc[0], show) + "\n", Print(doc[1..], show));
  }

  lemma OneLineReads<V>(line: string, lineno: nat, num: string -> Option<V>)
    requires Unbroken(line)
    ensures SamplesOf(SplitLines(line + "\n"), lineno, num) == LineOf(line, lineno, num)
  {
    SplitLinesHead(line, "");
    assert line + "\n" + "" == line + "\n";
    assert [line] + [] == [line] && [line][1..] == [];
    var first := LineOf(line, lineno, num);
    if first.Ok? {
      assert first.value + [] == first.value;
    }
  }

  // ----- line numbers are only reported ---------------------------------------

  /** Alike but for the line that an error names. */
  predicate Same<T(==)>(a: Result<T>, b: Result<T>) {
    a.Ok? == b.Ok? && (a.Ok? ==> a.value == b.value)
  }

  lemma {:induction false} QuotedAnywhere(body: string, i: nat, chars: string, a: nat, b: nat)
    ensures Same(QuotedFrom(body, i, chars, a), QuotedFrom(body, i, chars, b))
    decreases |body| - i
  {
    if i < |body| {
      if body[i] == '\\' {
        if i + 1 < |body| {
          QuotedAnywhere(body, i + 2, chars + Unescape(body[i + 1]), a, b);
        }
      } else if body[i] != '"' {
        QuotedAnywhere(body, i + 1, chars + [body[i]], a, b);
      }
    }
  }

  lemma LabelAnywhere(body: string, j: nat, a: nat, b: nat)
    requires j <= |body|
    ensures Same(LabelAt(body, j, a), LabelAt(body, j, b))
  {
    var equals := Find(body, '=', j);
    if equals.Some? {
      QuotedAnywhere(body, SkipFrom(body, equals.value + 1, false) + 1, "", a, b);
    }
  }

  lemma {:induction false} LabelsAnywhere(body: string, i: nat, labels: map<string, string>, a: nat, b: nat)
    requires i <= |body|
    ensures Same(LabelsFrom(body, i, labels, a), LabelsFrom(body, i, labels, b))
    decreases |body| - i
  {
    var j := SkipFrom(body, i, true);
    if j < |body| {
      LabelAnywhere(body, j, a, b);
      var found := LabelAt(body, j, a);
      if found.Ok? {
        LabelsAnywhere(body, found.value.2, labels[found.value.0 := found.value.1], a, b);
      }
    }
  }

  lemma ReadAnywhere<V>(cut: Cut, a: nat, b: nat, num: string -> Option<V>)
    ensures Same(Read(cut, a, num), Read(cut, b, num))
  {
    if cut.Labelled? {
      LabelsAnywhere(cut.body, 0, map[], a, b);
    }
  }

  lemma LineAnywhere<V>(raw: string, a: nat, b: nat, num: string -> Option<V>)
    ensures Same(LineOf(raw, a, num), LineOf(raw, b, num))
  {
    ReadAnywhere(CutOf(Strip(raw)), a, b, num);
  }

  lemma {:induction false} LinesAnywhere<V>(lines: seq<string>, a: nat, b: nat, num: string -> Option<V>)
    ensures Same(SamplesOf(lines, a, num), SamplesOf(lines, b, num))
    decreases |lines|
  {
    if lines != [] {
      LineAnywhere(lines[0], a, b, num);
      LinesAnywhere(lines[1..], a + 1, b + 1, num);
    }
  }

  // ----- and otherwise it is refused ------------------------------------------

  /** The printed pairs up to, and without, character `j` of the value of pair `m`. */
  function CutPairs(pairs: seq<(string, string)>, m: nat, j: nat): string
    requires m < |pairs| && j <= |pairs[m].1|
  {
    if m == 0 then pairs[0].0 + ("=\"" + Escape(pairs[0].1[..j]))
    else PrintPair(pairs[0]) + ("," + CutPairs(pairs[1..], m - 1, j))
  }

  lemma {:induction false} EscapeConcat(a: string, b: string)
    ensures Escape(a + b) == Escape(a) + Escape(b)
  {
    if a == [] {
      assert a + b == b;
    } else {
      assert (a + b)[1..] == a[1..] + b;
      EscapeConcat(a[1..], b);
    }
  }

  lemma EscapeAround(a: string, c: char, b: string)
    ensures Escape(a + [c]) == Escape(a) + EscapeChar(c)
    ensures Escape(a + [c] + b) == Escape(a) + EscapeChar(c) + Escape(b)
  {
    EscapeOne(c);
    EscapeConcat(a, [c]);
    EscapeConcat(a + [c], b);
  }

  lemma EscapeOne(c: char)
    ensures Escape([c]) == EscapeChar(c)
  {
    assert [c][1..] == [];
    assert Escape([c]) == EscapeChar(c) + Escape([]);
  }

  /** A break other than newline is written as it is. */
  lemma EscapeAt(v: string, j: nat)
    requires j < |v| && IsBreak(v[j]) && v[j] != '\n'
    ensures Escape(v) == Escape(v[..j]) + [v[j]] + Escape(v[j + 1..])
  {
    assert v == v[..j] + ([v[j]] + v[j + 1..]);
    EscapeConcat(v[..j], [v[j]] + v[j + 1..]);
    EscapeConcat([v[j]], v[j + 1..]);
    EscapeOne(v[j]);
    Regrouped(Escape(v[..j]), [v[j]], Escape(v[j + 1..]));
  }

  /** So the text continues with the break. */
  lemma {:induction false} CutContinues(pairs: seq<(string, string)>, m: nat, j: nat) returns (rest: string)
    requires m < |pairs| && j < |pairs[m].1| && IsBreak(pairs[m].1[j]) && pairs[m].1[j] != '\n'
    ensures PrintPairs(pairs) == CutPairs(pairs, m, j) + [pairs[m].1[j]] + rest
    decreases m
  {
    var c := [pairs[m].1[j]];
    if m == 0 {
      var k, v := pairs[0].0, pairs[0].1;
      EscapeAt(v, j);
      var others := if |pairs| == 1 then "" else "," + PrintPairs(pairs[1..]);
      rest := (Escape(v[j + 1..]) + "\"") + others;
      PairAround(k, Escape(v[..j]), c, Escape(v[j + 1..]), others);
    } else {
      rest := CutContinues(pairs[1..], m - 1, j);
      PairBefore(PrintPair(pairs[0]), CutPairs(pairs[1..], m - 1, j), c, rest);
    }
  }

  lemma PairAround(k: string, a: string, c: string, b: string, others: string)
    ensures k + ("=\"" + ((a + c + b) + "\"")) + others == (k + ("=\"" + a)) + c + ((b + "\"") + others)
  {}

  lemma KeyBefore(k: string, a: string, c: string)
    ensures k + ("=\"" + (a + c)) == (k + ("=\"" + a)) + c
  {}

  lemma PairBefore(head: string, cut: string, c: string, rest: string)
    ensures head + ("," + (cut + c + rest)) == (head + ("," + cut)) + c + rest
  {}

  lemma {:induction false} CutUnbroken(pairs: seq<(string, string)>, m: nat, j: nat)
    requires m < |pairs| && j <= |pairs[m].1| && OneLine(pairs[m].1[..j])
    requires forall k :: 0 <= k <= m ==> IsKey(pairs[k].0)
    requires forall k :: 0 <= k < m ==> OneLine(pairs[k].1)
    ensures Unbroken(CutPairs(pairs, m, j))
    decreases m
  {
    if m == 0 {
      EscapeUnbroken(pairs[0].1[..j]);
    } else {
      PairUnbroken(pairs[0]);
      CutUnbroken(pairs[1..], m - 1, j);
    }
  }

  lemma CutBefore(head: string, cut: string, c: string)
    ensures head + ("," + (cut + c)) == (head + ("," + cut)) + c
  {}

  lemma EscapeLast(v: string, j: nat)
    requires 0 < j <= |v|
    ensures Escape(v[..j]) == Escape(v[..j - 1]) + EscapeChar(v[j - 1])
  {
    EscapeAround(v[..j - 1], v[j - 1], []);
    assert v[..j] == v[..j - 1] + [v[j - 1]];
  }

  lemma {:induction false} CutShrinks(pairs: seq<(string, string)>, m: nat, j: nat)
    requires m < |pairs| && 0 < j <= |pairs[m].1|
    ensures CutPairs(pairs, m, j) == CutPairs(pairs, m, j - 1) + EscapeChar(pairs[m].1[j - 1])
    decreases m
  {
    if m == 0 {
      var v := pairs[0].1;
      EscapeLast(v, j);
      KeyBefore(pairs[0].0, Escape(v[..j - 1]), EscapeChar(v[j - 1]));
    } else {
      CutShrinks(pairs[1..], m - 1, j);
      CutBefore(PrintPair(pairs[0]), CutPairs(pairs[1..], m - 1, j - 1), EscapeChar(pairs[m].1[j - 1]));
    }
  }

  lemma {:induction false} CutStartsWithQuote(pairs: seq<(string, string)>, m: nat)
    requires m < |pairs|
    ensures var c := CutPairs(pairs, m, 0); c != [] && c[|c| - 1] == '"'
    decreases m
  {
    if m > 0 {
      CutStartsWithQuote(pairs[1..], m - 1);
    }
  }

  /** Stripping trailing space cannot get past the opening quote. */
  lemma CutStrips(pre: string, pairs: seq<(string, string)>, m: nat, j: nat) returns (n: nat)
    requires m < |pairs| && j <= |pairs[m].1|
    ensures n <= j && StripRight(pre + CutPairs(pairs, m, j)) == pre + CutPairs(pairs, m, n)
  {
    var blanks;
    n, blanks := CutTrims(pairs, m, j);
    assert pre + (CutPairs(pairs, m, n) + blanks) == (pre + CutPairs(pairs, m, n)) + blanks;
    StripRightBlanks(pre + CutPairs(pairs, m, n), blanks);
  }

  lemma OneMoreBlank(cut: string, shorter: string, kept: string, blanks: string, c: char)
    requires cut == shorter + [c] && shorter == kept + blanks && IsSpace(c)
    requires forall i :: 0 <= i < |blanks| ==> IsSpace(blanks[i])
    ensures cut == kept + (blanks + [c]) && forall i :: 0 <= i < |blanks + [c]| ==> IsSpace((blanks + [c])[i])
  {}

  lemma {:induction false} CutTrims(pairs: seq<(string, string)>, m: nat, j: nat) returns (n: nat, blanks: string)
    requires m < |pairs| && j <= |pairs[m].1|
    ensures n <= j && CutPairs(pairs, m, j) == CutPairs(pairs, m, n) + blanks
    ensures var c := CutPairs(pairs, m, n); c != [] && !IsSpace(c[|c| - 1])
    ensures forall i :: 0 <= i < |blanks| ==> IsSpace(blanks[i])
    decreases j
  {
    n, blanks := j, "";
    if j > 0 && IsSpace(pairs[m].1[j - 1]) && pairs[m].1[j - 1] != '\n' {
      var c := pairs[m].1[j - 1];
      CutShrinks(pairs, m, j);
      var fewer;
      n, fewer := CutTrims(pairs, m, j - 1);
      OneMoreBlank(CutPairs(pairs, m, j), CutPairs(pairs, m, j - 1), CutPairs(pairs, m, n), fewer, c);
      blanks := fewer + [c];
    } else {
      CutEnds(pairs, m, j);
    }
  }

  lemma {:induction false} StripRightBlanks(s: string, blanks: string)
    requires s != [] && !IsSpace(s[|s| - 1])
    requires forall i :: 0 <= i < |blanks| ==> IsSpace(blanks[i])
    ensures StripRight(s + blanks) == s
    decreases |blanks|
  {
    if blanks == [] {
      assert s + blanks == s;
    } else {
      var fewer := blanks[..|blanks| - 1];
      assert (s + blanks)[..|s + blanks| - 1] == s + fewer;
      StripRightBlanks(s, fewer);
    }
  }

  lemma CutEnds(pairs: seq<(string, string)>, m: nat, j: nat)
    requires m < |pairs| && j <= |pairs[m].1|
    requires j > 0 && IsSpace(pairs[m].1[j - 1]) ==> pairs[m].1[j - 1] == '\n'
    ensures var c := CutPairs(pairs, m, j); c != [] && !IsSpace(c[|c| - 1])
  {
    if j == 0 {
      CutStartsWithQuote(pairs, m);
    } else {
      CutShrinks(pairs, m, j);
    }
  }

  /** A line that stops inside a value has no closing brace. */
  lemma {:induction false} CutNeverCloses(line: string, i: nat, pairs: seq<(string, string)>, m: nat, j: nat)
    requires m < |pairs| && j <= |pairs[m].1| && forall k :: 0 <= k <= m ==> IsKey(pairs[k].0)
    requires At(line, i, CutPairs(pairs, m, j)) && i + |CutPairs(pairs, m, j)| == |line|
    ensures CloseFrom(line, i, false).None?
    decreases m
  {
    if m == 0 {
      var k, v := pairs[0].0, pairs[0].1[..j];
      AtParts(line, i, k, "=\"" + Escape(v));
      AtParts(line, i + |k|, "=\"", Escape(v));
      AtParts(line, i, k, "=\"");
      CloseEntersValue(line, i, k);
      CloseSkipsValue(line, i + |k| + 2, v);
    } else {
      var head, tail := PrintPair(pairs[0]), CutPairs(pairs[1..], m - 1, j);
      AtParts(line, i, head, "," + tail);
      AtParts(line, i + |head|, ",", tail);
      CloseSkipsPair(line, i, pairs[0]);
      CutNeverCloses(line, i + |head| + 1, pairs[1..], m - 1, j);
    }
  }

  lemma NoCloseNoSample<V>(line: string, brace: nat, lineno: nat, num: string -> Option<V>)
    requires brace < |line| && (var r := Find(line, '{', 0); r.Some? && r.value == brace)
    requires CloseFrom(line, brace + 1, false).None?
    ensures SampleOf(line, lineno, num).Err?
  {}

  /** So a series with another break in a value puts a line in the text that does not parse. */
  lemma CutLineFails<V>(name: string, pairs: seq<(string, string)>, m: nat, j: nat, lineno: nat, num: string -> Option<V>)
    requires IsName(name) && m < |pairs| && j <= |pairs[m].1| && forall k :: 0 <= k <= m ==> IsKey(pairs[k].0)
    ensures LineOf(name + "{" + CutPairs(pairs, m, j), lineno, num).Err?
  {
    StripKeepsFirst(name + "{" + CutPairs(pairs, m, j));
    var n := CutStrips(name + "{", pairs, m, j);
    CutOpens(name, pairs, m, n);
    NoCloseNoSample(name + "{" + CutPairs(pairs, m, n), |name|, lineno, num);
  }

  lemma CutOpens(name: string, pairs: seq<(string, string)>, m: nat, n: nat)
    requires IsName(name) && m < |pairs| && n <= |pairs[m].1| && forall k :: 0 <= k <= m ==> IsKey(pairs[k].0)
    ensures var line := name + "{" + CutPairs(pairs, m, n);
      && (var r := Find(line, '{', 0); r.Some? && r.value == |name|)
      && CloseFrom(line, |name| + 1, false).None?
  {
    var cut := CutPairs(pairs, m, n);
    var line := name + "{" + cut;
    forall k | 0 <= k < |name| ensures line[k] != '{' {
      assert line[k] == name[k] && name[k] in name;
    }
    FindIs(line, '{', 0, |name|);
    assert line[|name| + 1..] == cut;
    AtSlice(line, |name| + 1, cut);
    CutNeverCloses(line, |name| + 1, pairs, m, n);
  }

  /** The first value of a series with a break in it, and the first break in that value. */
  lemma FirstBreak(pairs: seq<(string, string)>) returns (m: nat, j: nat)
    requires exists k :: 0 <= k < |pairs| && !OneLine(pairs[k].1)
    ensures m < |pairs| && (forall k :: 0 <= k < m ==> OneLine(pairs[k].1))
    ensures j < |pairs[m].1| && IsBreak(pairs[m].1[j]) && pairs[m].1[j] != '\n' && OneLine(pairs[m].1[..j])
  {
    m := 0;
    while OneLine(pairs[m].1)
      invariant m < |pairs| && forall k :: 0 <= k < m ==> OneLine(pairs[k].1)
      invariant exists k :: m <= k < |pairs| && !OneLine(pairs[k].1)
      decreases |pairs| - m
    {
      m := m + 1;
    }
    var v := pairs[m].1;
    j := 0;
    while !(IsBreak(v[j]) && v[j] != '\n')
      invariant j < |v| && OneLine(v[..j])
      invariant exists i :: j <= i < |v| && IsBreak(v[i]) && v[i] != '\n'
      decreases |v| - j
    {
      j := j + 1;
    }
  }

  lemma BrokenEntryFails<V>(e: Entry<V>, lineno: nat, num: string -> Option<V>, show: V -> string)
    requires Writable(e) && !OneLiner(e)
    ensures SamplesOf(SplitLines(PrintEntry(e, show) + "\n"), lineno, num).Err?
  {
    var m, j := FirstBreak(e.pairs);
    var c, cut := e.pairs[m].1[j], CutPairs(e.pairs, m, j);
    var rest := CutContinues(e.pairs, m, j);
    var first, end := e.name + "{" + cut, "}" + (" " + (show(e.value) + Stamp(e.stamp)));
    var more, text := rest + end + "\n", PrintEntry(e, show) + "\n";
    assert text == first + [c] + more by {
      LineAround(e.name, cut, [c], rest, end, "\n");
    }
    CutUnbroken(e.pairs, m, j);
    SplitLinesFirst(first, c, more);
    CutLineFails(e.name, e.pairs, m, j, lineno, num);
    FirstLineFails(SplitLines(text), lineno, num);
  }

  lemma LineAround(name: string, cut: string, c: string, rest: string, end: string, tail: string)
    ensures (name + ("{" + ((cut + c + rest) + end))) + tail == (name + "{" + cut) + c + (rest + end + tail)
  {}

  lemma FirstLineFails<V>(lines: seq<string>, lineno: nat, num: string -> Option<V>)
    requires lines != [] && LineOf(lines[0], lineno, num).Err?
    ensures SamplesOf(lines, lineno, num).Err?
  {}

  // ----- the whole text -------------------------------------------------------

  /** What an entry becomes: samples, or an error. A comment becomes whatever its own lines hold. */
  function Contribution<V>(e: Entry<V>, num: string -> Option<V>): Option<seq<Sample<V>>> {
    match e
    case Blank(_) => Some([])
    case Comment(text) => (match SamplesOf(CommentLines(text), 1, num) case Ok(samples) => Some(samples) case Err(_, _) => None)
    case Series(name, pairs, value, _) => if OneLiner(e) then Some([Sample(name, Labels(pairs, map[]), value)]) else None
  }

  function Both<V>(a: Option<seq<V>>, b: Option<seq<V>>): Option<seq<V>> {
    if a.Some? && b.Some? then Some(a.value + b.value) else None
  }

  function Contributions<V>(doc: seq<Entry<V>>, num: string -> Option<V>): Option<seq<Sample<V>>> {
    if doc == [] then Some([]) else Both(Contribution(doc[0], num), Contributions(doc[1..], num))
  }

  predicate Gives<V(==)>(r: Result<seq<Sample<V>>>, c: Option<seq<Sample<V>>>) {
    r.Ok? == c.Some? && (r.Ok? ==> r.value == c.value)
  }

  lemma EntryGives<V>(e: Entry<V>, lineno: nat, num: string -> Option<V>, show: V -> string)
    requires Readable(e, num, show) && Writable(e)
    ensures Gives(SamplesOf(SplitLines(PrintEntry(e, show) + "\n"), lineno, num), Contribution(e, num))
  {
    match e
    case Blank(space) =>
      BlankReads(space, lineno, num);
      OneLineReads(space, lineno, num);
    case Comment(text) =>
      LinesAnywhere(CommentLines(text), lineno, 1, num);
    case Series(_, _, _, _) =>
      if OneLiner(e) {
        SeriesUnbroken(e, num, show);
        OneLineReads(PrintEntry(e, show), lineno, num);
        SeriesReads(e, lineno, num, show);
      } else {
        BrokenEntryFails(e, lineno, num, show);
      }
  }

  lemma AfterGives<V>(r: Result<seq<Sample<V>>>, s: Result<seq<Sample<V>>>, c: Option<seq<Sample<V>>>, d: Option<seq<Sample<V>>>)
    requires Gives(r, c) && Gives(s, d)
    ensures Gives(After(r, s), Both(c, d))
  {}

  lemma AfterThrice<V>(a: Result<seq<Sample<V>>>, b: Result<seq<Sample<V>>>, c: Result<seq<Sample<V>>>)
    ensures After(a, After(b, c)) == After(After(a, b), c)
  {
    if a.Ok? && b.Ok? && c.Ok? {
      assert a.value + (b.value + c.value) == a.value + b.value + c.value;
    }
  }

  /** `SamplesOf` for any way of reading a line. */
  function Folded<V>(lines: seq<string>, lineno: nat, read: (string, nat) -> Result<seq<Sample<V>>>): Result<seq<Sample<V>>> {
    if lines == [] then Ok([]) else After(read(lines[0], lineno), Folded(lines[1..], lineno + 1, read))
  }

  lemma {:induction false} FoldedConcat<V>(a: seq<string>, b: seq<string>, lineno: nat, read: (string, nat) -> Result<seq<Sample<V>>>)
    ensures Folded(a + b, lineno, read) == After(Folded(a, lineno, read), Folded(b, lineno + |a|, read))
    decreases |a|
  {
    if a == [] {
      assert a + b == b;
      AfterNothing(Folded(b, lineno, read));
    } else {
      assert (a + b)[1..] == a[1..] + b;
      FoldedConcat(a[1..], b, lineno + 1, read);
      AfterThrice(read(a[0], lineno), Folded(a[1..], lineno + 1, read), Folded(b, lineno + |a|, read));
    }
  }

  lemma {:induction false} SamplesFolded<V>(lines: seq<string>, lineno: nat, num: string -> Option<V>, read: (string, nat) -> Result<seq<Sample<V>>>)
    requires forall line, n :: read(line, n) == LineOf(line, n, num)
    ensures SamplesOf(lines, lineno, num) == Folded(lines, lineno, read)
    decreases |lines|
  {
    if lines != [] {
      SamplesFolded(lines[1..], lineno + 1, num, read);
    }
  }

  lemma LinesConcat<V>(a: seq<string>, b: seq<string>, lineno: nat, num: string -> Option<V>)
    ensures SamplesOf(a + b, lineno, num) == After(SamplesOf(a, lineno, num), SamplesOf(b, lineno + |a|, num))
  {
    var read := (line: string, n: nat) => LineOf(line, n, num);
    SamplesFolded(a, lineno, num, read);
    SamplesFolded(b, lineno + |a|, num, read);
    SamplesFolded(a + b, lineno, num, read);
    FoldedConcat(a, b, lineno, read);
  }

  /** A printed text is read entry by entry, or fails if one of them does: no entry disturbs another. */
  lemma {:induction false} ReadByEntry<V>(doc: seq<Entry<V>>, lineno: nat, num: string -> Option<V>, show: V -> string)
    requires Legible(doc, num, show)
    requires forall i :: 0 <= i < |doc| ==> Writable(doc[i])
    ensures Gives(SamplesOf(SplitLines(Print(doc, show)), lineno, num), Contributions(doc, num))
    decreases |doc|
  {
    if doc != [] {
      var first, rest := SplitLines(PrintEntry(doc[0], show) + "\n"), SplitLines(Print(doc[1..], show));
      PrintedLines(doc, show);
      EntryGives(doc[0], lineno, num, show);
      ReadByEntry(doc[1..], lineno + |first|, num, show);
      LinesConcat(first, rest, lineno, num);
      AfterGives(SamplesOf(first, lineno, num), SamplesOf(rest, lineno + |first|, num),
                 Contribution(doc[0], num), Contributions(doc[1..], num));
    }
  }

  lemma {:induction false} IgnoredLines<V>(lines: seq<string>, lineno: nat, num: string -> Option<V>)
    ensures var r := SamplesOf(lines, lineno, num);
      r.Ok? && r.value == [] <==> forall i :: 0 <= i < |lines| ==> Ignored(Strip(lines[i]))
    decreases |lines|
  {
    if lines != [] {
      IgnoredLines(lines[1..], lineno + 1, num);
      assert lines == [lines[0]] + lines[1..];
    }
  }

  lemma SamplesCons<V>(doc: seq<Entry<V>>)
    requires doc != []
    ensures Samples(doc) == Samples([doc[0]]) + Samples(doc[1..])
  {
    var one := [doc[0]];
    assert one[1..] == [];
    assert Samples(one[1..]) == [];
  }

  lemma EntryOnlyMore<V>(e: Entry<V>, num: string -> Option<V>)
    ensures Intact(e) ==> Contribution(e, num).Some? && Contribution(e, num).value == Samples([e])
    ensures Contribution(e, num).Some? ==>
      && OneLiner(e) && |Contribution(e, num).value| >= |Samples([e])|
      && (|Contribution(e, num).value| == |Samples([e])| ==> Intact(e))
  {
    assert [e][1..] == [];
    assert Samples([e][1..]) == [];
    if e.Comment? {
      IgnoredLines(CommentLines(e.text), 1, num);
    }
  }

  lemma {:induction false} AllIntact<V>(doc: seq<Entry<V>>, num: string -> Option<V>)
    requires forall i :: 0 <= i < |doc| ==> Intact(doc[i])
    ensures Contributions(doc, num).Some? && Contributions(doc, num).value == Samples(doc)
    decreases |doc|
  {
    if doc != [] {
      AllIntact(doc[1..], num);
      EntryOnlyMore(doc[0], num);
      SamplesCons(doc);
    }
  }

  /** Comments only ever add samples, and each that is not harmless adds one or fails. */
  lemma {:induction false} OnlyMore<V>(doc: seq<Entry<V>>, num: string -> Option<V>)
    requires Contributions(doc, num).Some?
    ensures forall i :: 0 <= i < |doc| ==> OneLiner(doc[i])
    ensures |Contributions(doc, num).value| >= |Samples(doc)|
    ensures |Contributions(doc, num).value| == |Samples(doc)| ==> forall i :: 0 <= i < |doc| ==> Intact(doc[i])
    decreases |doc|
  {
    if doc != [] {
      OnlyMore(doc[1..], num);
      EntryOnlyMore(doc[0], num);
      SamplesCons(doc);
    }
  }

  lemma ContributionsExactly<V>(doc: seq<Entry<V>>, num: string -> Option<V>)
    ensures Contributions(doc, num) == Some(Samples(doc)) <==> forall i :: 0 <= i < |doc| ==> Intact(doc[i])
  {
    if forall i :: 0 <= i < |doc| ==> Intact(doc[i]) {
      AllIntact(doc, num);
    }
    if Contributions(doc, num).Some? {
      OnlyMore(doc, num);
    }
  }

  /** A label value with another break makes the text an error, whatever else it holds. */
  lemma BrokenTextFails<V>(doc: seq<Entry<V>>, num: string -> Option<V>, show: V -> string)
    requires Legible(doc, num, show)
    requires forall i :: 0 <= i < |doc| ==> Writable(doc[i])
    requires exists i :: 0 <= i < |doc| && !OneLiner(doc[i])
    ensures Parsed(Print(doc, show), num).Err?
  {
    ReadByEntry(doc, 1, num, show);
    if Contributions(doc, num).Some? {
      OnlyMore(doc, num);
    }
  }

  /**
   * The round trip: a printed text is parsed back to its samples, in order, exactly when no label
   * value holds a line terminator other than newline, and no comment has one before something that
   * is neither blank nor a comment. With harmless comments the parse succeeds exactly then.
   */
  lemma RoundTrip<V>(doc: seq<Entry<V>>, num: string -> Option<V>, show: V -> string)
    requires Legible(doc, num, show)
    requires forall i :: 0 <= i < |doc| ==> Writable(doc[i])
    ensures Parsed(Print(doc, show), num) == Ok(Samples(doc)) <==> forall i :: 0 <= i < |doc| ==> Intact(doc[i])
    ensures (forall i :: 0 <= i < |doc| && doc[i].Comment? ==> Harmless(doc[i].text)) ==>
      (Parsed(Print(doc, show), num).Ok? <==> forall i :: 0 <= i < |doc| ==> Intact(doc[i]))
  {
    ReadByEntry(doc, 1, num, show);
    ContributionsExactly(doc, num);
    if Contributions(doc, num).Some? {
      OnlyMore(doc, num);
    }
  }

  /** A comment that another break divides can be read as a sample that nobody wrote. */
  lemma CommentBecomesSample<V>(before: string, c: char, name: string, value: V, num: string -> Option<V>, show: V -> string)
    requires Unbroken(before) && IsBreak(c) && c != '\n' && IsName(name) && Shown(value, num, show)
    ensures var doc := [Comment(before + [c] + (name + " " + show(value)))];
      && Writable(doc[0]) && Samples(doc) == []
      && Parsed(Print(doc, show), num) == Ok([Sample(name, map[], value)])
  {
    var line := name + " " + show(value);
    BareLineReads(name, value, 2, num, show);
    CommentPrinted(before + [c] + line, show);
    Divided(before, c, line);
    DividedReads("#" + before, c, line, num);
  }

  lemma Divided(before: string, c: char, line: string)
    requires Unbroken(before) && Unbroken(line) && c != '\n'
    ensures "#" + (before + [c] + line) + "\n" == ("#" + before) + [c] + (line + "\n")
    ensures '\n' !in before + [c] + line
  {}

  lemma DividedReads<V>(first: string, c: char, line: string, num: string -> Option<V>)
    requires first != [] && first[0] == '#' && Unbroken(first) && IsBreak(c) && Unbroken(line) && line != []
    ensures Parsed(first + [c] + (line + "\n"), num) == LineOf(line, 2, num)
  {
    SplitLinesAt(first, c, line + "\n");
    CommentThenLine(first, line, num);
  }

  lemma CommentPrinted<V>(text: string, show: V -> string)
    ensures var doc: seq<Entry<V>> := [Comment(text)]; Print(doc, show) == "#" + text + "\n" && Samples(doc) == []
  {
    var doc: seq<Entry<V>> := [Comment(text)];
    assert doc[1..] == [] && Print(doc[1..], show) == "";
    assert "#" + text + "\n" + "" == "#" + text + "\n";
  }

  lemma BareLineReads<V>(name: string, value: V, lineno: nat, num: string -> Option<V>, show: V -> string)
    requires IsName(name) && Shown(value, num, show)
    ensures var line := name + " " + show(value);
      Unbroken(line) && LineOf(line, lineno, num) == Ok([Sample(name, map[], value)])
  {
    var e := Series(name, [], value, None);
    assert show(value) + "" == show(value);
    SeriesUnbroken(e, num, show);
    SeriesReads(e, lineno, num, show);
  }

  lemma CommentThenLine<V>(comment: string, line: string, num: string -> Option<V>)
    requires comment != [] && comment[0] == '#' && Unbroken(line)
    ensures SamplesOf([comment] + SplitLines(line + "\n"), 1, num) == LineOf(line, 2, num)
  {
    StripKeepsFirst(comment);
    OneLineReads(line, 2, num);
    assert ([comment] + SplitLines(line + "\n"))[1..] == SplitLines(line + "\n");
    AfterNothing(LineOf(line, 2, num));
  }

  // ----- what is asked of the numerals can be met ----------------------------------------

  function Unary(n: nat): (s: string)
    ensures |s| == n + 1 && forall i :: 0 <= i < |s| ==> s[i] == '1'
  {
    if n == 0 then "1" else "1" + Unary(n - 1)
  }

  function IndexOf<V(==)>(v: V, vs: seq<V>): (i: nat)
    ensures v in vs ==> i < |vs| && vs[i] == v
  {
    if vs == [] || vs[0] == v then 0 else 1 + IndexOf(v, vs[1..])
  }

  /** Values written by their place in a list. */
  function Token<V(==)>(vs: seq<V>): V -> string {
    (v: V) => Unary(IndexOf(v, vs))
  }

  function Numeral<V>(vs: seq<V>): string -> Option<V> {
    (s: string) => if 1 <= |s| <= |vs| then Some(vs[|s| - 1]) else None
  }

  lemma ListedIsShown<V>(v: V, vs: seq<V>)
    requires v in vs
    ensures Shown(v, Numeral(vs), Token(vs))
  {
    var token := Token(vs)(v);
    assert token == Unary(IndexOf(v, vs));
  }

  /** The values of the lines that carry one. */
  function ValuesIn<V>(doc: seq<Entry<V>>): seq<V> {
    FilterMap((e: Entry<V>) => if e.Series? then Some(e.value) else None, doc)
  }

  lemma {:induction false} ValueIsIn<V>(doc: seq<Entry<V>>, i: nat)
    requires i < |doc| && doc[i].Series?
    ensures doc[i].value in ValuesIn(doc)
  {
    if i > 0 {
      ValueIsIn(doc[1..], i - 1);
    }
  }

  /** For every document there are numerals that it is legible in. */
  lemma EveryDocumentCanBeLegible<V>(doc: seq<Entry<V>>)
    ensures Legible(doc, Numeral(ValuesIn(doc)), Token(ValuesIn(doc)))
  {
    forall i | 0 <= i < |doc| ensures Readable(doc[i], Numeral(ValuesIn(doc)), Token(ValuesIn(doc))) {
      if doc[i].Series? {
        ValueIsIn(doc, i);
        ListedIsShown(doc[i].value, ValuesIn(doc));
      }
    }
  }
}
