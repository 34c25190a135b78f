/**
 * Exactly what the exposition parser accepts, and what it makes of it: a grammar for lines, with the
 * blanks, commas and escapes that no printer writes, and both directions between it and the parser.
 */
module ExpositionGrammar {
  import opened Seqs
  import opened Text
  import opened Exposition

  // ----- text in place --------------------------------------------------------------

  lemma SitsThere(s: string, i: nat, x: string)
    ensures At(s, i, x) <==> i + |x| <= |s| && forall k :: 0 <= k < |x| ==> s[i + k] == x[k]
  {
    AtSlice(s, i, x);
    if At(s, i, x) {
      forall k | 0 <= k < |x| ensures s[i + k] == x[k] {
        AtChar(s, i, x, k);
      }
    }
  }

  lemma InPlace(s: string, i: nat, x: string)
    requires i + |x| <= |s| && s[i..i + |x|] == x
    ensures At(s, i, x)
  {
    AtSlice(s, i, x);
  }

  /** Two parts of a text in place, one behind the other. */
  lemma Apart(s: string, i: nat, whole: string, a: string, b: string)
    requires whole == a + b
    ensures At(s, i, whole) <==> At(s, i, a) && At(s, i + |a|, b)
    ensures |whole| == |a| + |b|
  {
    AtParts(s, i, a, b);
  }

  lemma PartsOf(s: string, i: nat, whole: string, a: string, b: string) returns (next: nat)
    requires At(s, i, whole) && whole == a + b
    ensures next == i + |a| && At(s, i, a) && At(s, next, b) && next + |b| == i + |whole|
  {
    next := i + |a|;
    AtParts(s, i, a, b);
  }

  lemma InQuotes(body: string, q: nat, s: string)
    requires At(body, q, "\"" + (s + "\""))
    ensures At(body, q, "\"") && At(body, q + 1, s) && At(body, q + 1 + |s|, "\"")
  {
    AtParts(body, q, "\"", s + "\"");
    AtParts(body, q + 1, s, "\"");
  }

  // ----- quoted values --------------------------------------------------------------

  /** A character that stands for itself, or a backslash and the character behind it. */
  datatype Piece = Plain(c: char) | Escaped(c: char)

  predicate IsProper(p: Piece) {
    p.Plain? ==> p.c != '"' && p.c != '\\'
  }

  predicate AllProper(ps: seq<Piece>) {
    forall k :: 0 <= k < |ps| ==> IsProper(ps[k])
  }

  function WrittenPiece(p: Piece): string {
    if p.Plain? then [p.c] else ['\\', p.c]
  }

  /** Only newline, quote and backslash have escapes of their own; before any other character the backslash stays. */
  function MeantPiece(p: Piece): string {
    if p.Escaped? && p.c == 'n' then "\n"
    else if p.Escaped? && p.c !in {'"', '\\'} then ['\\', p.c]
    else [p.c]
  }

  function Written(ps: seq<Piece>): string {
    if ps == [] then "" else WrittenPiece(ps[0]) + Written(ps[1..])
  }

  function Meant(ps: seq<Piece>): string {
    if ps == [] then "" else MeantPiece(ps[0]) + Meant(ps[1..])
  }

  lemma Regroup(a: string, b: string, c: string)
    ensures a + (b + c) == (a + b) + c
  {}

  lemma PieceIsRead(body: string, i: nat, p: Piece, chars: string, lineno: nat)
    requires IsProper(p) && At(body, i, WrittenPiece(p))
    ensures QuotedFrom(body, i, chars, lineno) == QuotedFrom(body, i + |WrittenPiece(p)|, chars + MeantPiece(p), lineno)
  {
    AtChar(body, i, WrittenPiece(p), 0);
    if p.Escaped? {
      AtChar(body, i, WrittenPiece(p), 1);
    }
  }

  lemma {:induction false} PiecesAreRead(body: string, i: nat, ps: seq<Piece>, chars: string, lineno: nat)
    requires AllProper(ps) && At(body, i, Written(ps)) && At(body, i + |Written(ps)|, "\"")
    ensures var r := QuotedFrom(body, i, chars, lineno);
      r.Ok? && r.value.0 == chars + Meant(ps) && r.value.1 == i + |Written(ps)| + 1
    decreases |ps|
  {
    if ps == [] {
      AtChar(body, i, "\"", 0);
      assert chars + Meant(ps) == chars;
    } else {
      AtParts(body, i, WrittenPiece(ps[0]), Written(ps[1..]));
      PieceIsRead(body, i, ps[0], chars, lineno);
      PiecesAreRead(body, i + |WrittenPiece(ps[0])|, ps[1..], chars + MeantPiece(ps[0]), lineno);
      Regroup(chars, MeantPiece(ps[0]), Meant(ps[1..]));
    }
  }

  lemma OneMorePiece(body: string, i: nat, p: Piece, rest: seq<Piece>)
    requires IsProper(p) && AllProper(rest) && At(body, i, WrittenPiece(p)) && At(body, i + |WrittenPiece(p)|, Written(rest))
    ensures var ps := [p] + rest;
      && AllProper(ps) && At(body, i, Written(ps)) && |Written(ps)| == |WrittenPiece(p)| + |Written(rest)|
      && Meant(ps) == MeantPiece(p) + Meant(rest)
  {
    assert ([p] + rest)[1..] == rest;
    AtParts(body, i, WrittenPiece(p), Written(rest));
  }

  /** The piece at `i`, if no quote stands there. */
  lemma PieceAt(body: string, i: nat) returns (p: Piece)
    requires i < |body| && body[i] != '"' && (body[i] == '\\' ==> i + 1 < |body|)
    ensures IsProper(p) && At(body, i, WrittenPiece(p)) && |WrittenPiece(p)| > 0
  {
    p := if body[i] == '\\' then Escaped(body[i + 1]) else Plain(body[i]);
    SitsThere(body, i, WrittenPiece(p));
  }

  lemma {:induction false} ReadInPieces(body: string, i: nat, chars: string, lineno: nat) returns (ps: seq<Piece>)
    requires QuotedFrom(body, i, chars, lineno).Ok?
    ensures AllProper(ps) && At(body, i, Written(ps)) && At(body, i + |Written(ps)|, "\"")
    ensures var r := QuotedFrom(body, i, chars, lineno).value; r.0 == chars + Meant(ps) && r.1 == i + |Written(ps)| + 1
    decreases |body| - i
  {
    if body[i] == '"' {
      ps := [];
      SitsThere(body, i, "\"");
      assert chars + Meant(ps) == chars;
    } else {
      var p := PieceAt(body, i);
      PieceIsRead(body, i, p, chars, lineno);
      var rest := ReadInPieces(body, i + |WrittenPiece(p)|, chars + MeantPiece(p), lineno);
      ps := [p] + rest;
      OneMorePiece(body, i, p, rest);
      Regroup(chars, MeantPiece(p), Meant(rest));
    }
  }

  // ----- one label --------------------------------------------------------------------

  predicate IsGap(c: char) {
    c == ' ' || c == '\t'
  }

  predicate Gaps(s: string) {
    forall k :: 0 <= k < |s| ==> IsGap(s[k])
  }

  predicate Separators(s: string) {
    forall k :: 0 <= k < |s| ==> IsGap(s[k]) || s[k] == ','
  }

  /** `lead`, a key with blanks around its name, `=`, `gap` and a quoted value. */
  datatype Item = Item(lead: string, before: string, name: string, after: string, gap: string, value: seq<Piece>)

  function Padded(before: string, name: string, after: string): string {
    before + (name + after)
  }

  predicate IsName(before: string, name: string, after: string) {
    Spaces(before) && name != [] && Stripped(name) && Spaces(after)
  }

  function Key(item: Item): string {
    Padded(item.before, item.name, item.after)
  }

  function ValuePart(item: Item): string {
    "=" + (item.gap + ("\"" + (Written(item.value) + "\"")))
  }

  function WrittenItem(item: Item): string {
    item.lead + (Key(item) + ValuePart(item))
  }

  predicate ProperItem(item: Item) {
    && Separators(item.lead) && IsName(item.before, item.name, item.after) && Gaps(item.gap) && AllProper(item.value)
    && '=' !in Key(item) && !IsGap(Key(item)[0]) && Key(item)[0] != ','
  }

  lemma {:induction false} SkipIs(body: string, i: nat, n: nat, commas: bool)
    requires i <= n <= |body| && forall k :: i <= k < n ==> IsGap(body[k]) || (commas && body[k] == ',')
    requires n < |body| ==> !IsGap(body[n]) && !(commas && body[n] == ',')
    ensures SkipFrom(body, i, commas) == n
    decreases n - i
  {
    if i < n {
      SkipIs(body, i + 1, n, commas);
    }
  }

  lemma {:induction false} Skipped(body: string, i: nat, commas: bool)
    requires i <= |body|
    ensures var n := SkipFrom(body, i, commas);
      && (forall k :: i <= k < n ==> IsGap(body[k]) || (commas && body[k] == ','))
      && (n < |body| ==> !IsGap(body[n]) && !(commas && body[n] == ','))
    decreases |body| - i
  {
    if i < |body| && Skippable(body[i], commas) {
      Skipped(body, i + 1, commas);
    }
  }

  /** Where the parts of a label are. */
  lemma ItemParts(body: string, i: nat, item: Item) returns (j: nat, equals: nat)
    requires At(body, i, WrittenItem(item))
    ensures j == i + |item.lead| && equals == j + |Key(item)| && equals + |ValuePart(item)| == i + |WrittenItem(item)|
    ensures At(body, i, item.lead) && At(body, j, Key(item)) && At(body, equals, ValuePart(item))
  {
    j, equals := i + |item.lead|, i + |item.lead| + |Key(item)|;
    AtParts(body, i, item.lead, Key(item) + ValuePart(item));
    AtParts(body, j, Key(item), ValuePart(item));
  }

  lemma ValueParts(body: string, equals: nat, item: Item) returns (q: nat)
    requires At(body, equals, ValuePart(item))
    ensures q == equals + 1 + |item.gap| && q < |body| && q + |Written(item.value)| + 2 == equals + |ValuePart(item)|
    ensures body[equals] == '=' && At(body, equals + 1, item.gap) && body[q] == '"'
    ensures At(body, q + 1, Written(item.value)) && At(body, q + 1 + |Written(item.value)|, "\"")
  {
    var quoted := "\"" + (Written(item.value) + "\"");
    q := equals + 1 + |item.gap|;
    AtParts(body, equals, "=", item.gap + quoted);
    AtParts(body, equals + 1, item.gap, quoted);
    AtChar(body, equals, "=", 0);
    StringParts(body, q, item.value);
  }

  lemma StringParts(body: string, q: nat, ps: seq<Piece>)
    requires At(body, q, "\"" + (Written(ps) + "\""))
    ensures body[q] == '"' && At(body, q + 1, Written(ps)) && At(body, q + 1 + |Written(ps)|, "\"")
  {
    InQuotes(body, q, Written(ps));
    AtChar(body, q, "\"", 0);
  }

  lemma LeadSkipped(body: string, i: nat, item: Item)
    requires ProperItem(item) && At(body, i, item.lead) && At(body, i + |item.lead|, Key(item))
    ensures i + |item.lead| < |body| && SkipFrom(body, i, true) == i + |item.lead|
  {
    var j := i + |item.lead|;
    AtChar(body, j, Key(item), 0);
    forall k | i <= k < j ensures IsGap(body[k]) || body[k] == ',' {
      AtChar(body, i, item.lead, k - i);
    }
    SkipIs(body, i, j, true);
  }

  lemma KeyFound(body: string, j: nat, item: Item, equals: nat)
    requires ProperItem(item) && At(body, j, Key(item)) && equals == j + |Key(item)| < |body| && body[equals] == '='
    ensures var r := Find(body, '=', j); r.Some? && r.value == equals && Strip(body[j..equals]) == item.name
  {
    forall k | j <= k < equals ensures body[k] != '=' {
      AtChar(body, j, Key(item), k - j);
      assert Key(item)[k - j] in Key(item);
    }
    FindIs(body, '=', j, equals);
    StripPadded(item.before, item.name, item.after);
    AtSlice(body, j, Key(item));
  }

  lemma GapSkipped(body: string, i: nat, gap: string)
    requires Gaps(gap) && At(body, i, gap) && i + |gap| < |body| && body[i + |gap|] == '"'
    ensures SkipFrom(body, i, false) == i + |gap|
  {
    forall k | i <= k < i + |gap| ensures IsGap(body[k]) {
      AtChar(body, i, gap, k - i);
    }
    SkipIs(body, i, i + |gap|, false);
  }

  lemma LabelIs(body: string, j: nat, equals: nat, q: nat, name: string, value: string, next: nat, lineno: nat)
    requires j <= equals < q < |body| && Strip(body[j..equals]) == name && name != []
    requires var r := Find(body, '=', j); r.Some? && r.value == equals
    requires SkipFrom(body, equals + 1, false) == q && body[q] == '"'
    requires var r := QuotedFrom(body, q + 1, "", lineno); r.Ok? && r.value.0 == value && r.value.1 == next
    ensures var r := LabelAt(body, j, lineno); r.Ok? && r.value.0 == name && r.value.1 == value && r.value.2 == next
  {}

  lemma LeadIs(body: string, i: nat, item: Item) returns (j: nat)
    requires ProperItem(item) && At(body, i, WrittenItem(item))
    ensures j == i + |item.lead| < |body| && SkipFrom(body, i, true) == j
  {
    var equals;
    j, equals := ItemParts(body, i, item);
    LeadSkipped(body, i, item);
  }

  lemma KeyIs(body: string, i: nat, item: Item) returns (equals: nat)
    requires ProperItem(item) && At(body, i, WrittenItem(item))
    ensures var j := i + |item.lead|; j <= equals < |body| && equals == j + |Key(item)| && Strip(body[j..equals]) == item.name
    ensures var r := Find(body, '=', i + |item.lead|); r.Some? && r.value == equals
  {
    var j;
    j, equals := ItemParts(body, i, item);
    var q := ValueParts(body, equals, item);
    KeyFound(body, j, item, equals);
  }

  lemma QuotedIs(body: string, i: nat, ps: seq<Piece>, lineno: nat, next: nat)
    requires AllProper(ps) && At(body, i, Written(ps)) && At(body, i + |Written(ps)|, "\"") && next == i + |Written(ps)| + 1
    ensures var r := QuotedFrom(body, i, "", lineno); r.Ok? && r.value.0 == Meant(ps) && r.value.1 == next
  {
    PiecesAreRead(body, i, ps, "", lineno);
    assert "" + Meant(ps) == Meant(ps);
  }

  lemma ValueIs(body: string, i: nat, item: Item, lineno: nat, equals: nat, next: nat) returns (q: nat)
    requires ProperItem(item) && At(body, i, WrittenItem(item))
    requires equals == i + |item.lead| + |Key(item)| < |body| && next == i + |WrittenItem(item)|
    ensures equals < q < |body| && SkipFrom(body, equals + 1, false) == q && body[q] == '"'
    ensures var r := QuotedFrom(body, q + 1, "", lineno); r.Ok? && r.value.0 == Meant(item.value) && r.value.1 == next
  {
    var j, at := ItemParts(body, i, item);
    q := ValueParts(body, at, item);
    GapSkipped(body, at + 1, item.gap);
    QuotedIs(body, q + 1, item.value, lineno, next);
  }

  lemma ItemIsRead(body: string, i: nat, item: Item, lineno: nat, j: nat, next: nat)
    requires ProperItem(item) && At(body, i, WrittenItem(item)) && j == i + |item.lead| && next == i + |WrittenItem(item)|
    ensures j < next <= |body| && SkipFrom(body, i, true) == j
    ensures var r := LabelAt(body, j, lineno); r.Ok? && r.value.0 == item.name && r.value.1 == Meant(item.value) && r.value.2 == next
  {
    var at := LeadIs(body, i, item);
    var equals := KeyIs(body, i, item);
    var q := ValueIs(body, i, item, lineno, equals, next);
    LabelIs(body, j, equals, q, item.name, Meant(item.value), next, lineno);
  }

  lemma LabelPlaces(body: string, j: nat, lineno: nat) returns (equals: nat, q: nat)
    requires j <= |body| && LabelAt(body, j, lineno).Ok?
    ensures j < equals < q < |body| && body[equals] == '=' && body[q] == '"'
    ensures (forall k :: j <= k < equals ==> body[k] != '=') && Gaps(body[equals + 1..q]) && Strip(body[j..equals]) != []
    ensures var r, s := LabelAt(body, j, lineno).value, QuotedFrom(body, q + 1, "", lineno);
      s.Ok? && r.0 == Strip(body[j..equals]) && r.1 == s.value.0 && r.2 == s.value.1
  {
    equals := Find(body, '=', j).value;
    q := SkipFrom(body, equals + 1, false);
    Skipped(body, equals + 1, false);
  }

  lemma StringThere(body: string, q: nat, ps: seq<Piece>)
    requires q < |body| && body[q] == '"' && At(body, q + 1, Written(ps)) && At(body, q + 1 + |Written(ps)|, "\"")
    ensures At(body, q, "\"" + (Written(ps) + "\""))
  {
    AtParts(body, q + 1, Written(ps), "\"");
    SitsThere(body, q, "\"");
    AtParts(body, q, "\"", Written(ps) + "\"");
  }

  lemma ValueThere(body: string, equals: nat, q: nat, item: Item)
    requires equals < q < |body| && body[equals] == '=' && body[equals + 1..q] == item.gap
    requires At(body, q, "\"" + (Written(item.value) + "\""))
    ensures At(body, equals, ValuePart(item)) && |ValuePart(item)| == q - equals + |Written(item.value)| + 2
  {
    var quoted := "\"" + (Written(item.value) + "\"");
    SitsThere(body, equals + 1, item.gap);
    AtParts(body, equals + 1, item.gap, quoted);
    SitsThere(body, equals, "=");
    AtParts(body, equals, "=", item.gap + quoted);
  }

  lemma ItemThere(body: string, i: nat, item: Item, j: nat, equals: nat)
    requires i <= j <= equals < |body| && body[i..j] == item.lead && body[j..equals] == Key(item) && At(body, equals, ValuePart(item))
    ensures At(body, i, WrittenItem(item)) && |WrittenItem(item)| == equals - i + |ValuePart(item)|
  {
    SitsThere(body, j, Key(item));
    AtParts(body, j, Key(item), ValuePart(item));
    SitsThere(body, i, item.lead);
    AtParts(body, i, item.lead, Key(item) + ValuePart(item));
  }

  lemma NotWithin(s: string, i: nat, j: nat, c: char)
    requires i <= j <= |s| && forall k :: i <= k < j ==> s[k] != c
    ensures c !in s[i..j]
  {
    forall k | 0 <= k < j - i ensures s[i..j][k] != c {
      assert s[i..j][k] == s[i + k];
    }
  }

  lemma KeyIsProper(body: string, i: nat, j: nat, equals: nat)
    requires i <= |body| && SkipFrom(body, i, true) == j < equals < |body|
    requires forall k :: j <= k < equals ==> body[k] != '='
    ensures Separators(body[i..j]) && '=' !in body[j..equals] && !IsGap(body[j]) && body[j] != ','
  {
    Skipped(body, i, true);
    NotWithin(body, j, equals, '=');
  }

  lemma ItemOfParts(body: string, i: nat, j: nat, equals: nat, q: nat, ps: seq<Piece>) returns (item: Item)
    requires i <= j < equals < q < |body| && body[equals] == '=' && body[q] == '"' && Gaps(body[equals + 1..q])
    requires Separators(body[i..j]) && '=' !in body[j..equals] && !IsGap(body[j]) && body[j] != ',' && Strip(body[j..equals]) != []
    requires AllProper(ps) && At(body, q + 1, Written(ps)) && At(body, q + 1 + |Written(ps)|, "\"")
    ensures ProperItem(item) && At(body, i, WrittenItem(item))
    ensures item.name == Strip(body[j..equals]) && item.value == ps && i + |WrittenItem(item)| == q + 1 + |Written(ps)| + 1
  {
    var key := body[j..equals];
    var before, after := StripParts(key);
    item := Item(body[i..j], before, Strip(key), after, body[equals + 1..q], ps);
    assert Key(item) == key;
    StringThere(body, q, ps);
    ValueThere(body, equals, q, item);
    ItemThere(body, i, item, j, equals);
  }

  lemma ReadAsItem(body: string, i: nat, lineno: nat) returns (item: Item)
    requires i <= |body| && LabelAt(body, SkipFrom(body, i, true), lineno).Ok?
    ensures ProperItem(item) && At(body, i, WrittenItem(item))
    ensures var r := LabelAt(body, SkipFrom(body, i, true), lineno).value;
      r.0 == item.name && r.1 == Meant(item.value) && r.2 == i + |WrittenItem(item)|
  {
    var j := SkipFrom(body, i, true);
    var equals, q := LabelPlaces(body, j, lineno);
    var ps := ReadInPieces(body, q + 1, "", lineno);
    KeyIsProper(body, i, j, equals);
    item := ItemOfParts(body, i, j, equals, q, ps);
    assert "" + Meant(ps) == Meant(ps);
  }

  // ----- label sets -----------------------------------------------------------------------

  function WrittenItems(items: seq<Item>): string {
    if items == [] then "" else WrittenItem(items[0]) + WrittenItems(items[1..])
  }

  predicate ProperItems(items: seq<Item>) {
    items != [] ==> ProperItem(items[0]) && ProperItems(items[1..])
  }

  /** The dict that the labels build, a later one overwriting an earlier one of its name. */
  function Dict(items: seq<Item>, onto: map<string, string>): map<string, string> {
    if items == [] then onto else Dict(items[1..], onto[items[0].name := Meant(items[0].value)])
  }

  lemma LabelTaken(body: string, i: nat, j: nat, name: string, value: string, next: nat, labels: map<string, string>, lineno: nat)
    requires i <= |body| && SkipFrom(body, i, true) == j < |body|
    requires var r := LabelAt(body, j, lineno); r.Ok? && r.value.0 == name && r.value.1 == value && r.value.2 == next
    ensures next <= |body| && LabelsFrom(body, i, labels, lineno) == LabelsFrom(body, next, labels[name := value], lineno)
  {}

  lemma ItemTaken(body: string, i: nat, item: Item, labels: map<string, string>, lineno: nat, next: nat)
    requires ProperItem(item) && At(body, i, WrittenItem(item)) && next == i + |WrittenItem(item)|
    ensures i < next <= |body| && LabelsFrom(body, i, labels, lineno) == LabelsFrom(body, next, labels[item.name := Meant(item.value)], lineno)
  {
    ItemIsRead(body, i, item, lineno, i + |item.lead|, next);
    LabelTaken(body, i, i + |item.lead|, item.name, Meant(item.value), next, labels, lineno);
  }

  lemma ItemsCons(items: seq<Item>)
    requires items != []
    ensures WrittenItems(items) == WrittenItem(items[0]) + WrittenItems(items[1..])
  {}

  lemma ItemsApart(body: string, i: nat, items: seq<Item>) returns (next: nat)
    requires items != [] && At(body, i, WrittenItems(items))
    ensures At(body, i, WrittenItem(items[0])) && next == i + |WrittenItem(items[0])|
    ensures At(body, next, WrittenItems(items[1..])) && next + |WrittenItems(items[1..])| == i + |WrittenItems(items)|
  {
    ItemsCons(items);
    next := PartsOf(body, i, WrittenItems(items), WrittenItem(items[0]), WrittenItems(items[1..]));
  }

  lemma {:induction false} ItemsAreRead(body: string, i: nat, items: seq<Item>, labels: map<string, string>, lineno: nat, end: nat)
    requires ProperItems(items) && At(body, i, WrittenItems(items)) && end == i + |WrittenItems(items)| <= |body|
    ensures LabelsFrom(body, i, labels, lineno) == LabelsFrom(body, end, Dict(items, labels), lineno)
    decreases |items|
  {
    if items != [] {
      var next := ItemsApart(body, i, items);
      ItemTaken(body, i, items[0], labels, lineno, next);
      ItemsAreRead(body, next, items[1..], labels[items[0].name := Meant(items[0].value)], lineno, end);
    }
  }

  lemma TrailSkipped(body: string, i: nat, trail: string, labels: map<string, string>, lineno: nat)
    requires Separators(trail) && At(body, i, trail) && i + |trail| == |body|
    ensures LabelsFrom(body, i, labels, lineno) == Ok(labels)
  {
    forall k | i <= k < |body| ensures IsGap(body[k]) || body[k] == ',' {
      AtChar(body, i, trail, k - i);
    }
    SkipIs(body, i, |body|, true);
  }

  lemma SetIsRead(items: seq<Item>, trail: string, lineno: nat)
    requires ProperItems(items) && Separators(trail)
    ensures LabelsFrom(WrittenItems(items) + trail, 0, map[], lineno) == Ok(Dict(items, map[]))
  {
    var body, end := WrittenItems(items) + trail, |WrittenItems(items)|;
    InPlace(body, 0, body);
    AtParts(body, 0, WrittenItems(items), trail);
    ItemsAreRead(body, 0, items, map[], lineno, end);
    TrailSkipped(body, end, trail, Dict(items, map[]), lineno);
  }

  /** The next label, and what is read from behind it. */
  lemma OneLabel(body: string, i: nat, labels: map<string, string>, lineno: nat) returns (item: Item, next: nat, more: map<string, string>)
    requires i <= |body| && LabelAt(body, SkipFrom(body, i, true), lineno).Ok?
    ensures ProperItem(item) && At(body, i, WrittenItem(item)) && i < next == i + |WrittenItem(item)| <= |body|
    ensures more == labels[item.name := Meant(item.value)]
    ensures LabelsFrom(body, i, labels, lineno) == LabelsFrom(body, next, more, lineno)
  {
    item := ReadAsItem(body, i, lineno);
    next, more := i + |WrittenItem(item)|, labels[item.name := Meant(item.value)];
    ItemTaken(body, i, item, labels, lineno, next);
  }

  lemma OneMoreItem(body: string, i: nat, item: Item, rest: seq<Item>)
    requires ProperItem(item) && ProperItems(rest) && At(body, i, WrittenItem(item)) && At(body, i + |WrittenItem(item)|, WrittenItems(rest))
    ensures ProperItems([item] + rest) && At(body, i, WrittenItems([item] + rest))
    ensures |WrittenItems([item] + rest)| == |WrittenItem(item)| + |WrittenItems(rest)|
  {
    assert ([item] + rest)[1..] == rest;
    AtParts(body, i, WrittenItem(item), WrittenItems(rest));
  }

  /** The labels between `i` and `end`. */
  predicate ItemsTo(body: string, i: nat, labels: map<string, string>, items: seq<Item>, end: nat, read: map<string, string>) {
    && ProperItems(items) && At(body, i, WrittenItems(items)) && i <= end == i + |WrittenItems(items)| <= |body|
    && read == Dict(items, labels)
  }

  lemma OneMoreTo(body: string, i: nat, labels: map<string, string>, item: Item, next: nat, more: map<string, string>,
                  rest: seq<Item>, end: nat, read: map<string, string>)
    requires ProperItem(item) && At(body, i, WrittenItem(item)) && i < next == i + |WrittenItem(item)| <= |body|
    requires more == labels[item.name := Meant(item.value)] && ItemsTo(body, next, more, rest, end, read)
    ensures ItemsTo(body, i, labels, [item] + rest, end, read)
  {
    OneMoreItem(body, i, item, rest);
    DictStep(item, rest, labels, more);
  }

  /** Labels as far as they can be read: up to the end, or to one that cannot. */
  lemma {:induction false} ReadAsItems(body: string, i: nat, labels: map<string, string>, lineno: nat)
    returns (items: seq<Item>, end: nat, read: map<string, string>)
    requires i <= |body|
    ensures ItemsTo(body, i, labels, items, end, read)
    ensures LabelsFrom(body, i, labels, lineno) == LabelsFrom(body, end, read, lineno)
    ensures LabelAt(body, SkipFrom(body, end, true), lineno).Err?
    decreases |body| - i
  {
    if LabelAt(body, SkipFrom(body, i, true), lineno).Err? {
      items, end, read := [], i, labels;
      InPlace(body, i, "");
    } else {
      var item, next, more := OneLabel(body, i, labels, lineno);
      var rest;
      rest, end, read := ReadAsItems(body, next, more, lineno);
      items := [item] + rest;
      OneMoreTo(body, i, labels, item, next, more, rest, end, read);
    }
  }

  lemma DictStep(item: Item, rest: seq<Item>, labels: map<string, string>, more: map<string, string>)
    requires more == labels[item.name := Meant(item.value)]
    ensures Dict([item] + rest, labels) == Dict(rest, more)
  {
    assert ([item] + rest)[1..] == rest;
  }

  // ----- where a label set ends --------------------------------------------------------------

  /** Outside quotes anything but a quote or the brace itself, and strings with their escapes. */
  datatype Chunk = Outside(c: char) | Inside(ps: seq<Piece>)

  predicate ProperChunk(k: Chunk) {
    match k
    case Outside(c) => c != '"' && c != '}'
    case Inside(ps) => AllProper(ps)
  }

  function WrittenChunk(k: Chunk): string {
    match k
    case Outside(c) => [c]
    case Inside(ps) => "\"" + (Written(ps) + "\"")
  }

  function WrittenChunks(ks: seq<Chunk>): string {
    if ks == [] then "" else WrittenChunk(ks[0]) + WrittenChunks(ks[1..])
  }

  predicate ProperChunks(ks: seq<Chunk>) {
    ks != [] ==> ProperChunk(ks[0]) && ProperChunks(ks[1..])
  }

  ghost predicate Closed(body: string, ks: seq<Chunk>) {
    ProperChunks(ks) && body == WrittenChunks(ks)
  }

  /** No quote of `body` is left open, and every brace in it is between quotes. */
  ghost predicate Balanced(body: string) {
    exists ks :: Closed(body, ks)
  }

  lemma PieceIsPassed(line: string, i: nat, p: Piece)
    requires IsProper(p) && At(line, i, WrittenPiece(p))
    ensures CloseFrom(line, i, true) == CloseFrom(line, i + |WrittenPiece(p)|, true)
  {
    AtChar(line, i, WrittenPiece(p), 0);
  }

  lemma QuotePassed(line: string, i: nat, quoted: bool)
    requires At(line, i, "\"")
    ensures CloseFrom(line, i, quoted) == CloseFrom(line, i + 1, !quoted)
  {
    AtChar(line, i, "\"", 0);
  }

  lemma {:induction false} StringIsPassed(line: string, i: nat, ps: seq<Piece>, end: nat)
    requires AllProper(ps) && At(line, i, Written(ps)) && At(line, i + |Written(ps)|, "\"") && end == i + |Written(ps)| + 1
    ensures CloseFrom(line, i, true) == CloseFrom(line, end, false)
    decreases |ps|
  {
    if ps == [] {
      QuotePassed(line, i, true);
    } else {
      AtParts(line, i, WrittenPiece(ps[0]), Written(ps[1..]));
      PieceIsPassed(line, i, ps[0]);
      StringIsPassed(line, i + |WrittenPiece(ps[0])|, ps[1..], end);
    }
  }

  lemma ChunkIsPassed(line: string, i: nat, k: Chunk, next: nat)
    requires ProperChunk(k) && At(line, i, WrittenChunk(k)) && next == i + |WrittenChunk(k)|
    ensures CloseFrom(line, i, false) == CloseFrom(line, next, false)
  {
    match k
    case Outside(c) => AtChar(line, i, [c], 0);
    case Inside(ps) =>
      StringParts(line, i, ps);
      StringIsPassed(line, i + 1, ps, next);
  }

  lemma ChunksCons(ks: seq<Chunk>)
    requires ks != []
    ensures WrittenChunks(ks) == WrittenChunk(ks[0]) + WrittenChunks(ks[1..])
  {}

  lemma ChunksApart(line: string, i: nat, ks: seq<Chunk>) returns (next: nat)
    requires ks != [] && At(line, i, WrittenChunks(ks))
    ensures At(line, i, WrittenChunk(ks[0])) && next == i + |WrittenChunk(ks[0])|
    ensures At(line, next, WrittenChunks(ks[1..])) && next + |WrittenChunks(ks[1..])| == i + |WrittenChunks(ks)|
  {
    ChunksCons(ks);
    next := PartsOf(line, i, WrittenChunks(ks), WrittenChunk(ks[0]), WrittenChunks(ks[1..]));
  }

  lemma FirstIsPassed(line: string, i: nat, ks: seq<Chunk>) returns (next: nat)
    requires ks != [] && ProperChunks(ks) && At(line, i, WrittenChunks(ks))
    ensures CloseFrom(line, i, false) == CloseFrom(line, next, false)
    ensures At(line, next, WrittenChunks(ks[1..])) && next + |WrittenChunks(ks[1..])| == i + |WrittenChunks(ks)|
  {
    next := ChunksApart(line, i, ks);
    ChunkIsPassed(line, i, ks[0], next);
  }

  lemma {:induction false} ChunksArePassed(line: string, i: nat, ks: seq<Chunk>, end: nat)
    requires ProperChunks(ks) && At(line, i, WrittenChunks(ks)) && end == i + |WrittenChunks(ks)|
    ensures CloseFrom(line, i, false) == CloseFrom(line, end, false)
    decreases |ks|
  {
    if ks != [] {
      var next := FirstIsPassed(line, i, ks);
      ChunksArePassed(line, next, ks[1..], end);
    }
  }

  lemma EscapeIsWhole(line: string, i: nat)
    requires i < |line| && line[i] == '\\' && CloseFrom(line, i, true).Some?
    ensures i + 1 < |line|
  {}

  lemma PassOne(line: string, i: nat) returns (p: Piece, next: nat)
    requires CloseFrom(line, i, true).Some? && line[i] != '"'
    ensures IsProper(p) && At(line, i, WrittenPiece(p)) && i < next == i + |WrittenPiece(p)|
    ensures CloseFrom(line, i, true) == CloseFrom(line, next, true)
  {
    if line[i] == '\\' {
      EscapeIsWhole(line, i);
    }
    p := PieceAt(line, i);
    next := i + |WrittenPiece(p)|;
    PieceIsPassed(line, i, p);
  }

  lemma {:induction false} PassedAsString(line: string, i: nat) returns (ps: seq<Piece>, end: nat)
    requires CloseFrom(line, i, true).Some?
    ensures AllProper(ps) && At(line, i, Written(ps)) && At(line, i + |Written(ps)|, "\"") && end == i + |Written(ps)| + 1
    ensures CloseFrom(line, i, true) == CloseFrom(line, end, false)
    decreases |line| - i
  {
    if line[i] == '"' {
      ps, end := [], i + 1;
      SitsThere(line, i, "\"");
    } else {
      var p, next := PassOne(line, i);
      var rest;
      rest, end := PassedAsString(line, next);
      ps := [p] + rest;
      OneMorePiece(line, i, p, rest);
    }
  }

  lemma FirstChunk(line: string, i: nat) returns (k: Chunk, next: nat)
    requires CloseFrom(line, i, false).Some? && line[i] != '}'
    ensures ProperChunk(k) && At(line, i, WrittenChunk(k)) && i < next == i + |WrittenChunk(k)|
    ensures CloseFrom(line, i, false) == CloseFrom(line, next, false)
  {
    if line[i] == '"' {
      SitsThere(line, i, "\"");
      QuotePassed(line, i, false);
      var ps;
      ps, next := PassedAsString(line, i + 1);
      k := Inside(ps);
      StringThere(line, i, ps);
    } else {
      k, next := Outside(line[i]), i + 1;
      SitsThere(line, i, [line[i]]);
    }
  }

  lemma OneMoreChunk(line: string, i: nat, k: Chunk, next: nat, rest: seq<Chunk>, close: nat)
    requires ProperChunk(k) && At(line, i, WrittenChunk(k)) && next == i + |WrittenChunk(k)|
    requires ProperChunks(rest) && At(line, next, WrittenChunks(rest)) && next + |WrittenChunks(rest)| == close
    ensures ProperChunks([k] + rest) && At(line, i, WrittenChunks([k] + rest)) && i + |WrittenChunks([k] + rest)| == close
  {
    assert ([k] + rest)[1..] == rest;
    Apart(line, i, WrittenChunks([k] + rest), WrittenChunk(k), WrittenChunks(rest));
  }

  lemma {:induction false} PassedInChunks(line: string, i: nat, close: nat) returns (ks: seq<Chunk>)
    requires var r := CloseFrom(line, i, false); r.Some? && r.value == close
    ensures ProperChunks(ks) && At(line, i, WrittenChunks(ks)) && i + |WrittenChunks(ks)| == close
    decreases |line| - i
  {
    if line[i] == '}' {
      ks := [];
    } else {
      var k, next := FirstChunk(line, i);
      var rest := PassedInChunks(line, next, close);
      ks := [k] + rest;
      OneMoreChunk(line, i, k, next, rest, close);
    }
  }

  // ----- lines ----------------------------------------------------------------------------------

  predicate Follows(rest: string) {
    rest == [] || IsSpace(rest[0])
  }

  /** A sample line as it can be written, bare or with a label set; anything may follow the value behind a blank. */
  datatype Form =
    | Bare(before: string, name: string, gap: string, token: string, rest: string)
    | Labelled(before: string, name: string, after: string, items: seq<Item>, trail: string, gap: string, token: string, rest: string)

  function Value(form: Form): string {
    form.gap + (form.token + form.rest)
  }

  function WrittenForm(form: Form): string {
    match form
    case Bare(before, name, _, _, _) => before + (name + Value(form))
    case Labelled(before, name, after, items, trail, _, _, _) =>
      Padded(before, name, after) + ("{" + ((WrittenItems(items) + trail) + ("}" + Value(form))))
  }

  ghost predicate ProperForm(form: Form) {
    && Spaces(form.gap) && IsWord(form.token) && Follows(form.rest)
    && match form
       case Bare(before, name, gap, _, _) =>
         Spaces(before) && IsWord(name) && gap != [] && '{' !in WrittenForm(form)
       case Labelled(before, name, after, items, trail, _, _, _) =>
         && IsName(before, name, after) && '{' !in Padded(before, name, after)
         && ProperItems(items) && Separators(trail) && Balanced(WrittenItems(items) + trail)
  }

  /** What a line of this form says. */
  function Said(form: Form): map<string, string> {
    match form
    case Bare(_, _, _, _, _) => map[]
    case Labelled(_, _, _, items, _, _, _, _) => Dict(items, map[])
  }

  ghost predicate Says<V>(form: Form, line: string, sample: Sample<V>, num: string -> Option<V>) {
    && ProperForm(form) && line == WrittenForm(form)
    && sample.name == form.name && sample.labels == Said(form) && num(form.token) == Some(sample.value)
  }

  /** The line has a form, and its value is a number. */
  ghost predicate IsSample<V>(line: string, num: string -> Option<V>) {
    exists form :: ProperForm(form) && line == WrittenForm(form) && num(form.token).Some?
  }

  lemma {:induction false} FirstWordIs(gap: string, w: string, rest: string)
    requires Spaces(gap) && IsWord(w) && Follows(rest)
    ensures Words(gap + (w + rest)) == [w] + Words(rest)
  {
    if gap == [] {
      assert gap + (w + rest) == w + rest;
      WordFirst(w, rest);
    } else {
      var s := gap + (w + rest);
      assert s[1..] == gap[1..] + (w + rest);
      WordsSkipSpace(s);
      FirstWordIs(gap[1..], w, rest);
    }
  }

  lemma FirstWordOf(s: string) returns (gap: string, rest: string)
    requires Words(s) != []
    ensures s == gap + (Words(s)[0] + rest) && Spaces(gap) && IsWord(Words(s)[0]) && Follows(rest) && Words(rest) == Words(s)[1..]
  {
    var t := StripLeft(s);
    gap := StripLeftParts(s);
    rest := t[WordLength(t)..];
    assert t == t[..WordLength(t)] + rest;
  }

  lemma WordsApart(tail: string, gap: string, second: string, rest: string)
    requires Follows(tail) && IsWord(second) && tail == gap + (second + rest)
    ensures gap != []
  {
    assert |gap| < |tail| && tail[|gap|] == second[0];
  }

  lemma BareIsRead<V>(form: Form, lineno: nat, num: string -> Option<V>)
    requires form.Bare? && ProperForm(form)
    ensures SampleOf(WrittenForm(form), lineno, num) == Valued(form.name, map[], form.token, num, lineno)
  {
    var line := WrittenForm(form);
    FirstWordIs(form.before, form.name, Value(form));
    FirstWordIs(form.gap, form.token, form.rest);
    forall k | 0 <= k < |line| ensures line[k] != '{' {
      assert line[k] in line;
    }
    assert Find(line, '{', 0).None?;
  }

  lemma BraceCloses(line: string, i: nat)
    requires i < |line| && line[i] == '}'
    ensures var r := CloseFrom(line, i, false); r.Some? && r.value == i
  {}

  lemma ChunksClose(line: string, i: nat, ks: seq<Chunk>, end: nat)
    requires ProperChunks(ks) && At(line, i, WrittenChunks(ks)) && end == i + |WrittenChunks(ks)| < |line| && line[end] == '}'
    ensures var r := CloseFrom(line, i, false); r.Some? && r.value == end
  {
    ChunksArePassed(line, i, ks, end);
    BraceCloses(line, end);
  }

  lemma BalancedCloses(line: string, i: nat, body: string)
    requires Balanced(body) && i + |body| < |line| && line[i..i + |body|] == body && line[i + |body|] == '}'
    ensures var r := CloseFrom(line, i, false); r.Some? && r.value == i + |body|
  {
    var ks :| Closed(body, ks);
    InPlace(line, i, body);
    ClosedCloses(line, i, body, ks);
  }

  lemma ClosedCloses(line: string, i: nat, body: string, ks: seq<Chunk>)
    requires Closed(body, ks) && At(line, i, body) && i + |body| < |line| && line[i + |body|] == '}'
    ensures var r := CloseFrom(line, i, false); r.Some? && r.value == i + |body|
  {
    ChunksClose(line, i, ks, i + |body|);
  }

  lemma CutUnfolds(line: string, open: nat, close: nat)
    requires open < close < |line| && Strip(line[..open]) != []
    requires var r, s := Find(line, '{', 0), CloseFrom(line, open + 1, false); r.Some? && r.value == open && s.Some? && s.value == close
    ensures CutOf(line) == Cut.Labelled(Strip(line[..open]), line[open + 1..close], line[close + 1..])
  {}

  lemma CutIs(line: string, open: nat, close: nat, name: string, body: string, tail: string)
    requires open < close < |line| && line[open] == '{' && (forall k :: 0 <= k < open ==> line[k] != '{')
    requires var r := CloseFrom(line, open + 1, false); r.Some? && r.value == close
    requires Strip(line[..open]) == name != [] && line[open + 1..close] == body && line[close + 1..] == tail
    ensures CutOf(line) == Cut.Labelled(name, body, tail)
  {
    FindIs(line, '{', 0, open);
    CutUnfolds(line, open, close);
  }

  lemma LabelledCuts(form: Form)
    requires form.Labelled? && ProperForm(form)
    ensures CutOf(WrittenForm(form)) == Cut.Labelled(form.name, WrittenItems(form.items) + form.trail, Value(form))
  {
    var line, head, body := WrittenForm(form), Padded(form.before, form.name, form.after), WrittenItems(form.items) + form.trail;
    var close := |head| + 1 + |body|;
    LinePlaces(line, head, body, Value(form));
    StripPadded(form.before, form.name, form.after);
    BodyCloses(line, |head| + 1, close, body);
    CutIs(line, |head|, close, form.name, body, Value(form));
  }

  lemma BodyCloses(line: string, i: nat, close: nat, body: string)
    requires i <= close < |line| && line[i..close] == body && Balanced(body) && line[close] == '}'
    ensures var r := CloseFrom(line, i, false); r.Some? && r.value == close
  {
    BalancedCloses(line, i, body);
  }

  lemma LinePlaces(line: string, head: string, body: string, tail: string)
    requires line == head + ("{" + (body + ("}" + tail))) && '{' !in head
    ensures var open, close := |head|, |head| + 1 + |body|;
      && close < |line| && line[open] == '{' && line[close] == '}' && (forall k :: 0 <= k < open ==> line[k] != '{')
      && line[..open] == head && line[open + 1..close] == body && line[close + 1..] == tail
  {
    forall k | 0 <= k < |head| ensures line[k] != '{' {
      assert line[k] == head[k] && head[k] in head;
    }
  }

  lemma CutIsRead<V>(line: string, name: string, body: string, tail: string, labels: map<string, string>, token: string,
                     lineno: nat, num: string -> Option<V>)
    requires CutOf(line) == Cut.Labelled(name, body, tail)
    requires LabelsFrom(body, 0, map[], lineno) == Ok(labels) && Words(tail) != [] && Words(tail)[0] == token
    ensures SampleOf(line, lineno, num) == Valued(name, labels, token, num, lineno)
  {}

  lemma LabelledIsRead<V>(form: Form, lineno: nat, num: string -> Option<V>)
    requires form.Labelled? && ProperForm(form)
    ensures SampleOf(WrittenForm(form), lineno, num) == Valued(form.name, Said(form), form.token, num, lineno)
  {
    var body := WrittenItems(form.items) + form.trail;
    LabelledCuts(form);
    SetIsRead(form.items, form.trail, lineno);
    FirstWordIs(form.gap, form.token, form.rest);
    CutIsRead(WrittenForm(form), form.name, body, Value(form), Said(form), form.token, lineno, num);
  }

  lemma ReadAsBare<V>(line: string, lineno: nat, num: string -> Option<V>) returns (form: Form)
    requires Find(line, '{', 0).None? && SampleOf(line, lineno, num).Ok?
    ensures Says(form, line, SampleOf(line, lineno, num).value, num)
  {
    var before, tail := FirstWordOf(line);
    var gap, rest := FirstWordOf(tail);
    form := Form.Bare(before, Words(line)[0], gap, Words(line)[1], rest);
    WordsApart(tail, gap, Words(line)[1], rest);
    assert WrittenForm(form) == line;
  }

  lemma ReadAsLabelled<V>(line: string, lineno: nat, num: string -> Option<V>) returns (form: Form)
    requires Find(line, '{', 0).Some? && SampleOf(line, lineno, num).Ok?
    ensures Says(form, line, SampleOf(line, lineno, num).value, num)
  {
    var open, close := CutPlaces(line);
    var head, body, tail := line[..open], line[open + 1..close], line[close + 1..];
    LabelledParts(line, lineno, num, Strip(head), body, tail);
    LineOfParts(line, open, close);
    form := FormOfParts(line, head, body, tail, lineno);
  }

  lemma CutPlaces(line: string) returns (open: nat, close: nat)
    requires Find(line, '{', 0).Some? && !CutOf(line).Unreadable?
    ensures open < close < |line| && line[open] == '{' && line[close] == '}' && '{' !in line[..open] && Strip(line[..open]) != []
    ensures CutOf(line) == Cut.Labelled(Strip(line[..open]), line[open + 1..close], line[close + 1..])
    ensures Balanced(line[open + 1..close])
  {
    open := Find(line, '{', 0).value;
    ClosedIsBalanced(line, open + 1);
    close := CloseFrom(line, open + 1, false).value;
  }

  lemma FormOfParts(line: string, head: string, body: string, tail: string, lineno: nat) returns (form: Form)
    requires line == head + ("{" + (body + ("}" + tail))) && '{' !in head && Strip(head) != []
    requires Balanced(body) && LabelsFrom(body, 0, map[], lineno).Ok? && Words(tail) != []
    ensures ProperForm(form) && line == WrittenForm(form)
    ensures form.name == Strip(head) && Said(form) == LabelsFrom(body, 0, map[], lineno).value && form.token == Words(tail)[0]
  {
    var before, after := StripParts(head);
    var items, trail := BodyAsItems(body, lineno);
    var gap, rest := FirstWordOf(tail);
    form := Form.Labelled(before, Strip(head), after, items, trail, gap, Words(tail)[0], rest);
  }

  lemma LabelledParts<V>(line: string, lineno: nat, num: string -> Option<V>, name: string, body: string, tail: string)
    requires SampleOf(line, lineno, num).Ok? && CutOf(line) == Cut.Labelled(name, body, tail)
    ensures Words(tail) != [] && LabelsFrom(body, 0, map[], lineno).Ok? && num(Words(tail)[0]).Some?
    ensures SampleOf(line, lineno, num).value == Sample(name, LabelsFrom(body, 0, map[], lineno).value, num(Words(tail)[0]).value)
  {}

  lemma ClosedIsBalanced(line: string, i: nat)
    requires CloseFrom(line, i, false).Some?
    ensures Balanced(line[i..CloseFrom(line, i, false).value])
  {
    var ks := PassedInChunks(line, i, CloseFrom(line, i, false).value);
    SitsThere(line, i, WrittenChunks(ks));
    assert Closed(line[i..CloseFrom(line, i, false).value], ks);
  }

  lemma BodyAsItems(body: string, lineno: nat) returns (items: seq<Item>, trail: string)
    requires LabelsFrom(body, 0, map[], lineno).Ok?
    ensures ProperItems(items) && Separators(trail) && body == WrittenItems(items) + trail
    ensures LabelsFrom(body, 0, map[], lineno).value == Dict(items, map[])
  {
    var end, read;
    items, end, read := ReadAsItems(body, 0, map[], lineno);
    trail := NothingLeft(body, end, read, lineno);
    AtSlice(body, 0, WrittenItems(items));
    assert body == body[..end] + body[end..];
  }

  lemma NothingLeft(body: string, end: nat, labels: map<string, string>, lineno: nat) returns (trail: string)
    requires end <= |body| && LabelsFrom(body, end, labels, lineno).Ok? && LabelAt(body, SkipFrom(body, end, true), lineno).Err?
    ensures Separators(trail) && trail == body[end..] && LabelsFrom(body, end, labels, lineno) == Ok(labels)
  {
    Skipped(body, end, true);
    trail := body[end..];
  }

  lemma LineOfParts(line: string, open: nat, close: nat)
    requires open < close < |line| && line[open] == '{' && line[close] == '}'
    ensures line == line[..open] + ("{" + (line[open + 1..close] + ("}" + line[close + 1..])))
  {}

  /** A line is a sample if and only if it has one of the forms, its value being a number; and then it is the sample that the form says. */
  lemma AcceptedExactly<V>(line: string, lineno: nat, num: string -> Option<V>, sample: Sample<V>)
    ensures SampleOf(line, lineno, num) == Ok(sample) <==> exists form :: Says(form, line, sample, num)
  {
    if SampleOf(line, lineno, num) == Ok(sample) {
      if Find(line, '{', 0).None? {
        var form := ReadAsBare(line, lineno, num);
      } else {
        var form := ReadAsLabelled(line, lineno, num);
      }
    }
    if form :| Says(form, line, sample, num) {
      match form
      case Bare(_, _, _, _, _) => BareIsRead(form, lineno, num);
      case Labelled(_, _, _, _, _, _, _, _) => LabelledIsRead(form, lineno, num);
    }
  }

  // ----- why a line is refused -----------------------------------------------------------------

  /** The key that begins at `i` ends with the `=` at `equals`, and what follows the blanks behind it is at `q`. */
  predicate KeyThen(body: string, i: nat, equals: nat, q: nat) {
    && i <= equals < q <= |body| && body[equals] == '=' && '=' !in body[i..equals] && !Spaces(body[i..equals])
    && Gaps(body[equals + 1..q])
  }

  /** What keeps the label that begins at `i` from being read. */
  ghost predicate Stuck(body: string, i: nat, problem: Problem)
    requires i <= |body|
  {
    match problem
    case NoEquals => '=' !in body[i..]
    case EmptyLabelName => exists equals :: i <= equals < |body| && body[equals] == '=' && Spaces(body[i..equals])
    case ValueNotQuoted => exists equals: nat, q: nat :: KeyThen(body, i, equals, q) && (q == |body| || (body[q] != '"' && !IsGap(body[q])))
    case UnterminatedValue =>
      exists equals: nat, q: nat, ps :: KeyThen(body, i, equals, q) && AllProper(ps) && body[q..] == "\"" + Written(ps)
    case TrailingEscape =>
      exists equals: nat, q: nat, ps :: KeyThen(body, i, equals, q) && AllProper(ps) && body[q..] == "\"" + (Written(ps) + "\\")
    case _ => false
  }

  lemma {:induction false} StripIsEmpty(s: string)
    ensures Strip(s) == [] <==> Spaces(s)
  {
    var before, after := StripParts(s);
    if Spaces(s) {
      StripPadded(s, [], []);
      assert s + ([] + []) == s;
    }
  }

  lemma {:induction false} OpenEnded(body: string, i: nat, chars: string, lineno: nat) returns (ps: seq<Piece>)
    requires i <= |body| && QuotedFrom(body, i, chars, lineno).Err?
    ensures AllProper(ps) && QuotedFrom(body, i, chars, lineno).line == lineno
    ensures var problem := QuotedFrom(body, i, chars, lineno).problem;
      || (problem == UnterminatedValue && body[i..] == Written(ps))
      || (problem == TrailingEscape && body[i..] == Written(ps) + "\\")
    decreases |body| - i
  {
    if i == |body| {
      ps := [];
    } else if body[i] == '\\' && i + 1 == |body| {
      ps := [];
      assert body[i..] == [body[i]];
    } else {
      var p := if body[i] == '\\' then Escaped(body[i + 1]) else Plain(body[i]);
      var next := i + |WrittenPiece(p)|;
      assert body[i..next] == WrittenPiece(p);
      var rest := OpenEnded(body, next, chars + MeantPiece(p), lineno);
      ps := [p] + rest;
      assert ps[1..] == rest && body[i..] == body[i..next] + body[next..];
      Regroup(WrittenPiece(p), Written(rest), "\\");
    }
  }

  lemma GapsTo(body: string, i: nat, q: nat)
    requires i <= |body| && q == SkipFrom(body, i, false)
    ensures Gaps(body[i..q]) && (q < |body| ==> !IsGap(body[q]))
  {
    Skipped(body, i, false);
  }

  lemma KeyEnds(body: string, j: nat) returns (equals: nat, q: nat)
    requires j <= |body| && Find(body, '=', j).Some? && !Spaces(body[j..Find(body, '=', j).value])
    ensures equals == Find(body, '=', j).value && q == SkipFrom(body, equals + 1, false) && KeyThen(body, j, equals, q)
    ensures q < |body| ==> !IsGap(body[q])
  {
    equals := Find(body, '=', j).value;
    q := SkipFrom(body, equals + 1, false);
    NotWithin(body, j, equals, '=');
    GapsTo(body, equals + 1, q);
  }

  lemma QuoteStuck(body: string, j: nat, equals: nat, q: nat, lineno: nat)
    requires KeyThen(body, j, equals, q) && q < |body| && body[q] == '"' && QuotedFrom(body, q + 1, "", lineno).Err?
    ensures var r := QuotedFrom(body, q + 1, "", lineno); r.line == lineno && Stuck(body, j, r.problem)
  {
    var ps := OpenEnded(body, q + 1, "", lineno);
    assert body[q..] == "\"" + body[q + 1..];
  }

  lemma LabelStuck(body: string, j: nat, lineno: nat)
    requires j <= |body| && LabelAt(body, j, lineno).Err?
    ensures LabelAt(body, j, lineno).line == lineno && Stuck(body, j, LabelAt(body, j, lineno).problem)
  {
    if Find(body, '=', j).Some? {
      var at := Find(body, '=', j).value;
      StripIsEmpty(body[j..at]);
      if !Spaces(body[j..at]) {
        var equals, q := KeyEnds(body, j);
        if q < |body| && body[q] == '"' {
          QuoteStuck(body, j, equals, q, lineno);
        }
      }
    }
  }

  lemma FirstStuck(body: string, i: nat, labels: map<string, string>, lineno: nat) returns (lead: string, j: nat)
    requires i <= |body| && LabelsFrom(body, i, labels, lineno).Err? && LabelAt(body, SkipFrom(body, i, true), lineno).Err?
    ensures i <= j < |body| && lead == body[i..j] && Separators(lead) && !IsGap(body[j]) && body[j] != ','
    ensures var r := LabelsFrom(body, i, labels, lineno); r.line == lineno && Stuck(body, j, r.problem)
  {
    j := SkipFrom(body, i, true);
    Skipped(body, i, true);
    lead := body[i..j];
    LabelStuck(body, j, lineno);
  }

  /** The label set behind the first brace, with a name before it. */
  ghost predicate HasSet(line: string, open: nat, close: nat) {
    && open < close < |line| && line[open] == '{' && '{' !in line[..open] && !Spaces(line[..open])
    && line[close] == '}' && Balanced(line[open + 1..close])
  }

  /** There is nothing but blanks before the brace at `open`. */
  predicate NoName(line: string, open: nat) {
    open < |line| && line[open] == '{' && Spaces(line[..open])
  }

  ghost predicate NoSet(line: string) {
    '{' in line && forall open: nat, close: nat :: !HasSet(line, open, close)
  }

  ghost predicate NoValueBehind(line: string) {
    exists open: nat, close: nat :: HasSet(line, open, close) && Spaces(line[close + 1..])
  }

  /** The line has a form, but its value is no number. */
  ghost predicate NoNumber<V>(line: string, num: string -> Option<V>) {
    exists form :: ProperForm(form) && line == WrittenForm(form) && num(form.token).None?
  }

  /** Behind labels that can be read stands one that cannot. */
  ghost predicate StuckBehind(body: string, items: seq<Item>, lead: string, problem: Problem) {
    var before := WrittenItems(items) + lead;
    && ProperItems(items) && Separators(lead) && |before| < |body| && body[..|before|] == before
    && !IsGap(body[|before|]) && body[|before|] != ',' && Stuck(body, |before|, problem)
  }

  ghost predicate BadLabels(body: string, problem: Problem) {
    exists items, lead :: StuckBehind(body, items, lead, problem)
  }

  ghost predicate BadSet(line: string, problem: Problem) {
    exists open: nat, close: nat :: HasSet(line, open, close) && BadLabels(line[open + 1..close], problem)
  }

  /** Why a line is no sample. */
  ghost predicate Refused<V>(line: string, problem: Problem, num: string -> Option<V>) {
    match problem
    case ExpectedNameValue => '{' !in line && |Words(line)| < 2
    case NoMetricName => exists open: nat :: NoName(line, open)
    case UnterminatedLabelSet => NoSet(line)
    case NoValue => NoValueBehind(line)
    case NotANumber => NoNumber(line, num)
    case _ => BadSet(line, problem)
  }

  lemma WordsAreNotBlank(s: string)
    requires Words(s) != []
    ensures !Spaces(s)
  {
    var gap, rest := FirstWordOf(s);
    assert s[|gap|] == Words(s)[0][0];
  }

  lemma NoWords(s: string)
    ensures Words(s) == [] <==> Spaces(s)
  {
    var before := StripLeftParts(s);
    if Words(s) == [] {
      assert s == before + [];
    } else {
      WordsAreNotBlank(s);
    }
  }

  lemma BareRefused<V>(line: string, lineno: nat, num: string -> Option<V>)
    requires Find(line, '{', 0).None? && SampleOf(line, lineno, num).Err?
    ensures var r := SampleOf(line, lineno, num); r.line == lineno && Refused(line, r.problem, num)
  {
    if |Words(line)| >= 2 {
      var form := FormOfWords(line);
      assert num(form.token) == None;
    }
  }

  lemma FormOfWords(line: string) returns (form: Form)
    requires '{' !in line && |Words(line)| >= 2
    ensures form.Bare? && ProperForm(form) && line == WrittenForm(form) && form.name == Words(line)[0] && form.token == Words(line)[1]
  {
    var before, tail := FirstWordOf(line);
    var gap, rest := FirstWordOf(tail);
    WordsApart(tail, gap, Words(line)[1], rest);
    form := Form.Bare(before, Words(line)[0], gap, Words(line)[1], rest);
  }

  lemma SetAtFirst(line: string, open: nat, close: nat)
    requires HasSet(line, open, close)
    ensures var r, s := Find(line, '{', 0), CloseFrom(line, open + 1, false);
      r.Some? && r.value == open && s.Some? && Strip(line[..open]) != []
  {
    forall k | 0 <= k < open ensures line[k] != '{' {
      assert line[..open][k] == line[k];
    }
    FindIs(line, '{', 0, open);
    BodyCloses(line, open + 1, close, line[open + 1..close]);
    StripIsEmpty(line[..open]);
  }

  lemma HeadRefused(line: string, problem: Problem)
    requires CutOf(line) == Unreadable(problem)
    ensures problem == NoMetricName || problem == UnterminatedLabelSet
    ensures problem == NoMetricName ==> exists open: nat :: NoName(line, open)
    ensures problem == UnterminatedLabelSet ==> NoSet(line)
  {
    var open := Find(line, '{', 0).value;
    StripIsEmpty(line[..open]);
    if problem == NoMetricName {
      assert NoName(line, open);
    } else {
      forall o: nat, close: nat ensures !HasSet(line, o, close) {
        if HasSet(line, o, close) {
          SetAtFirst(line, o, close);
        }
      }
    }
  }

  lemma BodyStuck(body: string, lineno: nat)
    requires LabelsFrom(body, 0, map[], lineno).Err?
    ensures var r := LabelsFrom(body, 0, map[], lineno); r.line == lineno && BadLabels(body, r.problem)
  {
    var items, end, read := ReadAsItems(body, 0, map[], lineno);
    var lead, j := FirstStuck(body, end, read, lineno);
    AtSlice(body, 0, WrittenItems(items));
    assert body[..j] == WrittenItems(items) + lead;
    assert StuckBehind(body, items, lead, LabelsFrom(body, 0, map[], lineno).problem);
  }

  lemma LabelsRefused(line: string, open: nat, close: nat, lineno: nat)
    requires HasSet(line, open, close) && LabelsFrom(line[open + 1..close], 0, map[], lineno).Err?
    ensures var r := LabelsFrom(line[open + 1..close], 0, map[], lineno);
      r.line == lineno && BadSet(line, r.problem) && IsLabelProblem(r.problem)
  {
    BodyStuck(line[open + 1..close], lineno);
  }

  predicate IsLabelProblem(problem: Problem) {
    problem.NoEquals? || problem.EmptyLabelName? || problem.ValueNotQuoted? || problem.UnterminatedValue? || problem.TrailingEscape?
  }

  lemma ValueRefused<V>(line: string, open: nat, close: nat, lineno: nat, num: string -> Option<V>)
    requires HasSet(line, open, close) && LabelsFrom(line[open + 1..close], 0, map[], lineno).Ok?
    requires Words(line[close + 1..]) != [] && num(Words(line[close + 1..])[0]).None?
    ensures NoNumber(line, num)
  {
    StripIsEmpty(line[..open]);
    LineOfParts(line, open, close);
    var form := FormOfParts(line, line[..open], line[open + 1..close], line[close + 1..], lineno);
  }

  lemma ReadFails<V>(line: string, lineno: nat, num: string -> Option<V>, name: string, body: string, tail: string)
    requires CutOf(line) == Cut.Labelled(name, body, tail) && SampleOf(line, lineno, num).Err?
    ensures var labels, r := LabelsFrom(body, 0, map[], lineno), SampleOf(line, lineno, num);
      if labels.Err? then r.line == labels.line && r.problem == labels.problem
      else if Words(tail) == [] then r.line == lineno && r.problem == NoValue
      else num(Words(tail)[0]).None? && r.line == lineno && r.problem == NotANumber
  {}

  lemma SetPlaces(line: string) returns (open: nat, close: nat)
    requires CutOf(line).Labelled?
    ensures HasSet(line, open, close)
    ensures CutOf(line) == Cut.Labelled(Strip(line[..open]), line[open + 1..close], line[close + 1..])
  {
    open, close := CutPlaces(line);
    StripIsEmpty(line[..open]);
  }

  lemma BadSetIsRefused<V>(line: string, problem: Problem, num: string -> Option<V>)
    requires IsLabelProblem(problem) && BadSet(line, problem)
    ensures Refused(line, problem, num)
  {}

  lemma NoValueIsRefused(line: string, open: nat, close: nat)
    requires HasSet(line, open, close) && Words(line[close + 1..]) == []
    ensures NoValueBehind(line)
  {
    NoWords(line[close + 1..]);
  }

  lemma SetRefused<V>(line: string, lineno: nat, num: string -> Option<V>)
    requires CutOf(line).Labelled? && SampleOf(line, lineno, num).Err?
    ensures var r := SampleOf(line, lineno, num); r.line == lineno && Refused(line, r.problem, num)
  {
    var open, close := SetPlaces(line);
    var problem := SampleOf(line, lineno, num).problem;
    ReadFails(line, lineno, num, Strip(line[..open]), line[open + 1..close], line[close + 1..]);
    if LabelsFrom(line[open + 1..close], 0, map[], lineno).Err? {
      LabelsRefused(line, open, close, lineno);
      BadSetIsRefused(line, problem, num);
    } else if Words(line[close + 1..]) == [] {
      NoValueIsRefused(line, open, close);
    } else {
      ValueRefused(line, open, close, lineno, num);
    }
  }

  /** A line that is refused gives its own number and a reason that holds. */
  lemma RefusedBecause<V>(line: string, lineno: nat, num: string -> Option<V>)
    requires SampleOf(line, lineno, num).Err?
    ensures var r := SampleOf(line, lineno, num); r.line == lineno && Refused(line, r.problem, num)
  {
    match CutOf(line)
    case Unreadable(problem) => HeadRefused(line, problem);
    case Bare(_) => BareRefused(line, lineno, num);
    case Labelled(_, _, _) => SetRefused(line, lineno, num);
  }

  // ----- texts --------------------------------------------------------------------------------------

  /** Blank, or a comment behind blanks. */
  predicate IsRemark(raw: string) {
    exists k :: 0 <= k <= |raw| && Spaces(raw[..k]) && (k == |raw| || raw[k] == '#')
  }

  lemma BlanksBefore(s: string, k: nat)
    requires k <= |s| && Spaces(s[..k]) && (k < |s| ==> !IsSpace(s[k]))
    ensures StripLeft(s) == s[k..]
  {
    StripLeftPadded(s[..k], s[k..]);
    assert s == s[..k] + s[k..];
  }

  lemma RemarksAreIgnored(raw: string)
    ensures Ignored(Strip(raw)) <==> IsRemark(raw)
  {
    if Ignored(Strip(raw)) {
      var before, after := StripParts(raw);
      var k := if Strip(raw) == [] then |raw| else |before|;
      assert raw[..|before|] == before;
      assert Spaces(raw[..k]) && (k == |raw| || raw[k] == '#');
    }
    if k: nat :| k <= |raw| && Spaces(raw[..k]) && (k == |raw| || raw[k] == '#') {
      BlanksBefore(raw, k);
      var after := StripRightParts(raw[k..]);
    }
  }

  /** The line says this sample. */
  ghost predicate IsReading<V>(line: string, sample: Sample<V>, num: string -> Option<V>) {
    exists form :: Says(form, line, sample, num)
  }

  lemma SampleOrNot<V>(line: string, lineno: nat, num: string -> Option<V>)
    ensures var r := SampleOf(line, lineno, num);
      (r.Ok? <==> IsSample(line, num)) && (r.Ok? ==> IsReading(line, r.value, num))
  {
    var r := SampleOf(line, lineno, num);
    if r.Ok? {
      AcceptedExactly(line, lineno, num, r.value);
    }
    if form :| ProperForm(form) && line == WrittenForm(form) && num(form.token).Some? {
      var sample := Sample(form.name, Said(form), num(form.token).value);
      assert Says(form, line, sample, num);
      AcceptedExactly(line, lineno, num, sample);
    }
  }

  lemma LineIs<V>(raw: string, lineno: nat, num: string -> Option<V>)
    ensures var r, sample := LineOf(raw, lineno, num), SampleOf(Strip(raw), lineno, num);
      if Ignored(Strip(raw)) then r.Ok? && r.value == []
      else if sample.Ok? then r.Ok? && |r.value| == 1 && r.value[0] == sample.value
      else r.Err? && r.line == sample.line && r.problem == sample.problem
  {}

  /** What a line of a text gives: a remark nothing, another line its sample or its error. */
  lemma LineExactly<V>(raw: string, lineno: nat, num: string -> Option<V>)
    ensures var r := LineOf(raw, lineno, num);
      if IsRemark(raw) then r.Ok? && r.value == []
      else if IsSample(Strip(raw), num) then r.Ok? && |r.value| == 1 && IsReading(Strip(raw), r.value[0], num)
      else r.Err? && r.line == lineno && Refused(Strip(raw), r.problem, num)
  {
    RemarksAreIgnored(raw);
    LineIs(raw, lineno, num);
    SampleOrNot(Strip(raw), lineno, num);
    if SampleOf(Strip(raw), lineno, num).Err? {
      RefusedBecause(Strip(raw), lineno, num);
    }
  }

  function Joined<T>(parts: seq<seq<T>>): seq<T> {
    if parts == [] then [] else parts[0] + Joined(parts[1..])
  }

  /** Line `k` of the lines from number `lineno` on. */
  function NthLine<V>(lines: seq<string>, lineno: nat, k: nat, num: string -> Option<V>): Result<seq<Sample<V>>>
    requires k < |lines|
  {
    LineOf(lines[k], lineno + k, num)
  }

  predicate FineBefore<V>(lines: seq<string>, lineno: nat, k: nat, num: string -> Option<V>)
    requires k <= |lines|
  {
    forall j: nat :: j < k ==> NthLine(lines, lineno, j, num).Ok?
  }

  lemma Tail<V>(lines: seq<string>, lineno: nat, num: string -> Option<V>, k: nat)
    requires lines != [] && k < |lines[1..]|
    ensures NthLine(lines[1..], lineno + 1, k, num) == NthLine(lines, lineno, k + 1, num)
  {
    assert lines[1..][k] == lines[k + 1] && lineno + 1 + k == lineno + (k + 1);
  }

  lemma FineStep<V>(lines: seq<string>, lineno: nat, i: nat, num: string -> Option<V>)
    requires lines != [] && i <= |lines[1..]| && NthLine(lines, lineno, 0, num).Ok? && FineBefore(lines[1..], lineno + 1, i, num)
    ensures FineBefore(lines, lineno, i + 1, num)
  {
    forall j: nat | j < i + 1 ensures NthLine(lines, lineno, j, num).Ok? {
      if j > 0 {
        Tail(lines, lineno, num, j - 1);
      }
    }
  }

  lemma HeadLine<V>(lines: seq<string>, lineno: nat, num: string -> Option<V>)
    requires lines != []
    ensures NthLine(lines, lineno, 0, num) == LineOf(lines[0], lineno, num)
  {}

  lemma ErrorBehind<V>(lines: seq<string>, lineno: nat, num: string -> Option<V>)
    requires lines != [] && LineOf(lines[0], lineno, num).Ok? && SamplesOf(lines, lineno, num).Err?
    ensures SamplesOf(lines[1..], lineno + 1, num) == SamplesOf(lines, lineno, num)
  {}

  /** The error of a text is that of its first bad line. */
  lemma {:induction false} FirstError<V>(lines: seq<string>, lineno: nat, num: string -> Option<V>) returns (k: nat)
    requires SamplesOf(lines, lineno, num).Err?
    ensures k < |lines| && FineBefore(lines, lineno, k, num) && NthLine(lines, lineno, k, num) == SamplesOf(lines, lineno, num)
    decreases |lines|
  {
    HeadLine(lines, lineno, num);
    if LineOf(lines[0], lineno, num).Err? {
      k := 0;
    } else {
      ErrorBehind(lines, lineno, num);
      var i := FirstError(lines[1..], lineno + 1, num);
      k := i + 1;
      Tail(lines, lineno, num, i);
      FineStep(lines, lineno, i, num);
    }
  }

  /** Without a bad line a text gives what its lines give, in their order. */
  lemma {:induction false} AllLines<V>(lines: seq<string>, lineno: nat, num: string -> Option<V>) returns (parts: seq<seq<Sample<V>>>)
    requires SamplesOf(lines, lineno, num).Ok?
    ensures |parts| == |lines| && SamplesOf(lines, lineno, num).value == Joined(parts)
    ensures forall k: nat :: k < |lines| ==> NthLine(lines, lineno, k, num) == Ok(parts[k])
    decreases |lines|
  {
    if lines == [] {
      parts := [];
    } else {
      var rest := AllLines(lines[1..], lineno + 1, num);
      parts := [LineOf(lines[0], lineno, num).value] + rest;
      assert parts[1..] == rest;
      forall k: nat | k < |lines| ensures NthLine(lines, lineno, k, num) == Ok(parts[k]) {
        if k > 0 {
          Tail(lines, lineno, num, k - 1);
        } else {
          HeadLine(lines, lineno, num);
        }
      }
    }
  }
}
