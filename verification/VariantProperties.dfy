/** Accepted variant specs are unambiguous, their directories safe, and default names parse back. */
module VariantProperties {
  import opened Seqs
  import opened Text
  import opened Variants

  // ----- accepted specs ------------------------------------------------------------------

  /** No two share a directory, even where case does not count; so no two share a name. */
  ghost predicate Distinct(variants: seq<Variant>) {
    forall i, j :: 0 <= i < j < |variants| ==>
      variants[i].name != variants[j].name && SlugKey(variants[i]) != SlugKey(variants[j])
  }

  ghost predicate DistinctKeys(overrides: Overrides) {
    forall i, j :: 0 <= i < j < |overrides| ==> overrides[i].0 != overrides[j].0
  }

  /** Known fields, each overridden once. */
  ghost predicate Sensible(v: Variant, fields: set<string>) {
    (forall i :: 0 <= i < |v.overrides| ==> v.overrides[i].0 in fields) && DistinctKeys(v.overrides)
  }

  lemma ItemDistinct(part: string, overrides: Overrides, float: string -> Option<real>)
    requires DistinctKeys(overrides)
    ensures var r := ItemReader(float)(part, overrides); r.Ok? ==> DistinctKeys(r.value)
  {}

  lemma {:induction false} ItemsDistinct(parts: seq<string>, overrides: Overrides, float: string -> Option<real>)
    requires DistinctKeys(overrides)
    ensures var r := ReadAll(ItemReader(float), parts, overrides); r.Ok? ==> DistinctKeys(r.value)
    decreases |parts|
  {
    if parts != [] {
      ItemDistinct(parts[0], overrides, float);
      var next := ItemReader(float)(parts[0], overrides);
      if next.Ok? {
        ItemsDistinct(parts[1..], next.value, float);
      }
    }
  }

  lemma JoinedDistinct(variants: seq<Variant>, v: Variant)
    requires Distinct(variants)
    ensures Joined(variants, v).Ok? <==> Distinct(variants + [v])
    ensures Joined(variants, v).Ok? ==> Joined(variants, v).value == variants + [v]
  {
    var all := variants + [v];
    if Distinct(all) {
      forall i | 0 <= i < |variants| ensures variants[i].name != v.name && SlugKey(variants[i]) != SlugKey(v) {
        assert all[i] == variants[i] && all[|variants|] == v;
      }
    }
  }

  lemma SegmentSensible(segment: string, fields: set<string>, float: string -> Option<real>, show: real -> string)
    ensures var r := SegmentOf(segment, fields, float, show); r.Ok? ==> Sensible(r.value, fields)
  {
    ItemsDistinct(SplitOn(LabelOf(segment).1, ','), [], float);
  }

  ghost predicate Fine(variants: seq<Variant>, fields: set<string>) {
    Distinct(variants) && forall i :: 0 <= i < |variants| ==> Sensible(variants[i], fields)
  }

  /** What is accepted is fine, and there is one variant for each segment that is not blank. */
  lemma {:induction false} AcceptedAre(read: SegmentReader, segments: seq<string>, variants: seq<Variant>, fields: set<string>)
    requires Fine(variants, fields) && forall text :: read(text).Ok? ==> Sensible(read(text).value, fields)
    ensures var r := VariantsFrom(read, segments, variants);
      r.Ok? ==> Fine(r.value, fields) && |r.value| == |variants| + Count((s: string) => s != [], segments)
    decreases |segments|
  {
    if segments == [] {
    } else if segments[0] == [] {
      AcceptedAre(read, segments[1..], variants, fields);
    } else {
      var v := read(segments[0]);
      if v.Ok? {
        JoinedDistinct(variants, v.value);
        if Joined(variants, v.value).Ok? {
          AcceptedAre(read, segments[1..], variants + [v.value], fields);
        }
      }
    }
  }

  /**
   * Every accepted spec gives one variant for each segment that is not blank, with distinct names,
   * distinct directories, and known fields overridden once each.
   */
  lemma AcceptedSpecIsUnambiguous(spec: string, fields: set<string>, float: string -> Option<real>, show: real -> string)
    ensures var r := Parsed(spec, fields, float, show);
      r.Ok? ==>
        && |r.value| == Count((s: string) => s != [], Segments(spec)) && Distinct(r.value)
        && forall i :: 0 <= i < |r.value| ==> Sensible(r.value[i], fields)
  {
    var read := ReadSegment(fields, float, show);
    forall text ensures read(text).Ok? ==> Sensible(read(text).value, fields) {
      SegmentSensible(text, fields, float, show);
    }
    AcceptedAre(read, Segments(spec), [], fields);
  }

  // ----- directories --------------------------------------------------------------------------

  predicate AllSafe(s: string) {
    forall i :: 0 <= i < |s| ==> IsSafe(s[i])
  }

  lemma {:induction false} SanitisedIsSafe(s: string, inRun: bool)
    ensures AllSafe(Sanitised(s, inRun))
  {
    if s != [] {
      SanitisedIsSafe(s[1..], !IsSafe(s[0]));
    }
  }

  lemma {:induction false} TrimLeftKeeps(s: string)
    requires AllSafe(s)
    ensures AllSafe(TrimLeft(s)) && (TrimLeft(s) != [] ==> !IsTrim(TrimLeft(s)[0]))
  {
    if s != [] {
      TrimLeftKeeps(s[1..]);
    }
  }

  lemma {:induction false} TrimRightKeeps(s: string)
    requires AllSafe(s) && (s != [] ==> !IsTrim(s[0]))
    ensures AllSafe(TrimRight(s)) && (TrimRight(s) != [] ==> TrimRight(s)[0] == s[0] && !IsTrim(TrimRight(s)[|TrimRight(s)| - 1]))
    decreases |s|
  {
    if s != [] && IsTrim(s[|s| - 1]) {
      TrimRightKeeps(s[..|s| - 1]);
    }
  }

  lemma {:induction false} SplitFirst(s: string, sep: char)
    ensures s != [] && s[0] != sep ==> SplitOn(s, sep)[0] != [] && SplitOn(s, sep)[0][0] == s[0]
  {}

  /** No reserved device name starts with an underscore. */
  lemma UnderscoreIsFree(s: string)
    ensures !IsReserved("_" + s)
  {
    var t := "_" + s;
    SplitFirst(t, '.');
    var first := SplitOn(t, '.')[0];
    assert Lower(first)[0] == '_';
    forall w | w in RESERVED ensures w != [] && w[0] != '_' {}
  }

  lemma CleanedIsSafe(name: string)
    ensures var text := Cleaned(name);
      text != [] && AllSafe(text) && !IsTrim(text[0]) && !IsTrim(text[|text| - 1])
  {
    var text := Replaced(Replaced(Strip(name), '=', "-"), ',', "__");
    SanitisedIsSafe(text, false);
    TrimLeftKeeps(Sanitised(text, false));
    TrimRightKeeps(TrimLeft(Sanitised(text, false)));
  }

  /** Whatever the name, its directory is a plain file name: safe characters, no dot or blank end, no device. */
  lemma SlugIsSafe(name: string)
    ensures var slug := Slug(name);
      && slug != [] && AllSafe(slug) && slug[0] != '.' && !IsTrim(slug[|slug| - 1]) && !IsReserved(slug)
  {
    CleanedIsSafe(name);
    UnderscoreIsFree(Cleaned(name));
  }

  // ----- values read back -------------------------------------------------------------------------

  lemma {:induction false} NatReads(n: nat, rest: string, afterDigit: bool)
    ensures DigitsFrom(ShowNat(n) + rest, 0, afterDigit) == DigitsFrom(rest, n, true)
    decreases n
  {
    var last := ('0' as int + n % 10) as char;
    assert DigitOf(last) == n % 10;
    if n < 10 {
      assert ShowNat(n) + rest == [last] + rest;
      assert ([last] + rest)[1..] == rest;
    } else {
      assert ShowNat(n) + rest == ShowNat(n / 10) + ([last] + rest);
      NatReads(n / 10, [last] + rest, afterDigit);
      assert ([last] + rest)[1..] == rest;
    }
  }

  lemma {:induction false} NatDigits(n: nat)
    ensures ShowNat(n) != [] && forall i :: 0 <= i < |ShowNat(n)| ==> IsDigit(ShowNat(n)[i])
    decreases n
  {
    if n >= 10 {
      NatDigits(n / 10);
    }
  }

  lemma IntReads(n: int)
    ensures IntOf(ShowInt(n)) == Some(n)
  {
    var m: nat := if n < 0 then -n else n;
    NatReads(m, [], false);
    NatDigits(m);
    assert ShowNat(m) + [] == ShowNat(m);
    if n < 0 {
      assert ShowInt(n)[1..] == ShowNat(m);
    }
  }

  /** Written by its default rendering, the value is read back as it was. */
  ghost predicate Printable(v: Value, float: string -> Option<real>, show: real -> string) {
    var r := Render(v, show);
    ParseValue(r, float) == v && Stripped(r) && ',' !in r && ';' !in r
  }

  /** What `float` has to refuse for the words to be read as words. */
  ghost predicate RefusesWords(float: string -> Option<real>) {
    float("true").None? && float("false").None? && float("null").None?
  }

  /** Integers, booleans and null always are. */
  lemma PlainValuesPrintable(v: Value, float: string -> Option<real>, show: real -> string)
    requires RefusesWords(float) && (v.Int? || v.Bool? || v.Null?)
    ensures Printable(v, float, show)
  {
    match v
    case Int(n) => IntPrintable(n, float, show);
    case Bool(b) => WordReads(if b then "true" else "false", float);
    case Null => WordReads("null", float);
  }

  lemma IntPrintable(n: int, float: string -> Option<real>, show: real -> string)
    ensures Printable(Int(n), float, show)
  {
    var m: nat := if n < 0 then -n else n;
    IntReads(n);
    NatDigits(m);
    assert forall i :: 0 <= i < |ShowNat(m)| ==> !IsSpace(ShowNat(m)[i]);
  }

  lemma WordReads(w: string, float: string -> Option<real>)
    requires w == "true" || w == "false" || w == "null"
    ensures IntOf(w).None? && Lower(w) == w && Stripped(w) && ',' !in w && ';' !in w
  {}

  // ----- names read back ----------------------------------------------------------------------------

  predicate IsIdentifier(s: string) {
    s != [] && forall i :: 0 <= i < |s| ==> 'A' <= s[i] <= 'Z' || 'a' <= s[i] <= 'z' || s[i] == '_' || IsDigit(s[i])
  }

  lemma ItemStripped(key: string, r: string)
    requires IsIdentifier(key) && Stripped(r)
    ensures var item := key + "=" + r;
      && item != [] && Stripped(item) && |item| == |key| + 1 + |r| && item[|key|] == '='
      && item[..|key|] == key && item[|key| + 1..] == r
      && forall k :: 0 <= k < |key| ==> item[k] == key[k]
  {}

  lemma ItemReads(o: (string, Value), overrides: Overrides, float: string -> Option<real>, show: real -> string)
    requires IsIdentifier(o.0) && Printable(o.1, float, show) && !HasKey(overrides, o.0)
    ensures var item := RenderOverride(o, show); ItemOf(item, overrides, float) == Ok(overrides + [o])
  {
    var key, r := o.0, Render(o.1, show);
    var item := RenderOverride(o, show);
    ItemStripped(key, r);
    StripWhole(item);
    FindIs(item, '=', 0, |key|);
    StripWhole(key);
    StripWhole(r);
  }

  /** A name that can stand before a colon. */
  predicate IsLabel(name: string) {
    name != [] && Stripped(name) && ':' !in name && '=' !in name && ';' !in name
  }

  /** Known fields under plain keys, each overridden once, with values that are read back as they are. */
  ghost predicate Plain(v: Variant, fields: set<string>, float: string -> Option<real>, show: real -> string) {
    && Sensible(v, fields)
    && forall i :: 0 <= i < |v.overrides| ==> IsIdentifier(v.overrides[i].0) && Printable(v.overrides[i].1, float, show)
  }

  predicate SelfNamed(v: Variant, show: real -> string) {
    v.overrides != [] && v.name == DefaultName(v.overrides, show)
  }

  /** A plain variant under its default name or under a label, overriding something or nothing. */
  ghost predicate Spellable(v: Variant, fields: set<string>, float: string -> Option<real>, show: real -> string) {
    Plain(v, fields, float, show) && (SelfNamed(v, show) || IsLabel(v.name))
  }

  /** How it is written in a spec. */
  function Spelled(v: Variant, show: real -> string): string {
    if SelfNamed(v, show) then v.name else v.name + (":" + DefaultName(v.overrides, show))
  }

  function Items(overrides: Overrides, show: real -> string): seq<string> {
    Map((o: (string, Value)) => RenderOverride(o, show), overrides)
  }

  /** Reading the i-th part adds the i-th override, wherever its key is not taken. */
  ghost predicate Reads(read: Reader, parts: seq<string>, rest: Overrides) {
    && |parts| == |rest|
    && forall i: nat, before: Overrides :: i < |parts| && !HasKey(before, rest[i].0) ==> read(parts[i], before) == Ok(before + [rest[i]])
  }

  lemma {:induction false} ReadInTurn(read: Reader, parts: seq<string>, rest: Overrides, done: Overrides, all: Overrides)
    requires Reads(read, parts, rest) && all == done + rest && DistinctKeys(all)
    ensures var r := ReadAll(read, parts, done); r.Ok? && r.value == all
    decreases |rest|
  {
    if rest == [] {
      assert done + rest == done;
    } else {
      FreshKey(done, rest);
      var next := done + [rest[0]];
      assert next + rest[1..] == all;
      assert Reads(read, parts[1..], rest[1..]);
      ReadInTurn(read, parts[1..], rest[1..], next, all);
    }
  }

  lemma ItemsRead(all: Overrides, float: string -> Option<real>, show: real -> string)
    requires DistinctKeys(all) && forall i :: 0 <= i < |all| ==> IsIdentifier(all[i].0) && Printable(all[i].1, float, show)
    ensures var r := ItemsFrom(Items(all, show), [], float); r.Ok? && r.value == all
  {
    var parts, read := Items(all, show), ItemReader(float);
    forall i: nat, before: Overrides | i < |parts| && !HasKey(before, all[i].0) ensures read(parts[i], before) == Ok(before + [all[i]]) {
      ItemReads(all[i], before, float, show);
    }
    assert [] + all == all;
    ReadInTurn(read, parts, all, [], all);
  }

  lemma FreshKey(done: Overrides, rest: Overrides)
    requires rest != [] && DistinctKeys(done + rest)
    ensures !HasKey(done, rest[0].0)
  {
    forall i | 0 <= i < |done| ensures done[i].0 != rest[0].0 {
      assert (done + rest)[i].0 != (done + rest)[|done|].0;
    }
  }

  lemma {:induction false} JoinEnds(parts: seq<string>, sep: char, c: char)
    requires parts != [] && c != sep && forall i :: 0 <= i < |parts| ==> parts[i] != [] && Stripped(parts[i]) && c !in parts[i]
    ensures var s := Join(parts, sep);
      && s != [] && Stripped(s) && c !in s
      && |parts[0]| <= |s| && forall k :: 0 <= k < |parts[0]| ==> s[k] == parts[0][k]
  {
    if |parts| > 1 {
      JoinEnds(parts[1..], sep, c);
    }
  }

  lemma ItemsPlain(overrides: Overrides, float: string -> Option<real>, show: real -> string)
    requires forall i :: 0 <= i < |overrides| ==> IsIdentifier(overrides[i].0) && Printable(overrides[i].1, float, show)
    ensures forall i :: 0 <= i < |overrides| ==>
      Items(overrides, show)[i] != [] && Stripped(Items(overrides, show)[i]) && ',' !in Items(overrides, show)[i] && ';' !in Items(overrides, show)[i]
  {
    forall i | 0 <= i < |overrides|
      ensures var item := Items(overrides, show)[i]; item != [] && Stripped(item) && ',' !in item && ';' !in item
    {
      ItemStripped(overrides[i].0, Render(overrides[i].1, show));
    }
  }

  /** The first `=` comes before any colon, so the name is not taken for a label. */
  lemma NameIsNoLabel(name: string, key: string)
    requires IsIdentifier(key) && |key| < |name| && name[|key|] == '=' && forall k :: 0 <= k < |key| ==> name[k] == key[k]
    ensures LabelOf(name) == (None, name)
  {
    var colon := Find(name, ':', 0);
    if colon.Some? {
      assert name[..colon.value][|key|] == '=';
    }
  }

  lemma NoItems(float: string -> Option<real>)
    ensures ItemsFrom(SplitOn([], ','), [], float) == Ok([])
  {
    var read := ItemReader(float);
    assert read([], []) == Ok([]);
    assert ReadAll(read, [[]], []) == ReadAll(read, [[]][1..], []);
  }

  /** The text of the overrides, read back. */
  lemma BodyReads(v: Variant, fields: set<string>, float: string -> Option<real>, show: real -> string) returns (body: string)
    requires Plain(v, fields, float, show)
    ensures body == DefaultName(v.overrides, show) && Stripped(body) && ';' !in body && (v.overrides != [] <==> body != [])
    ensures var r := ItemsFrom(SplitOn(body, ','), [], float); r.Ok? && r.value == v.overrides
  {
    var items := Items(v.overrides, show);
    body := DefaultName(v.overrides, show);
    assert body == Join(items, ',');
    if v.overrides != [] {
      ItemsPlain(v.overrides, float, show);
      JoinEnds(items, ',', ';');
      SplitJoin(items, ',');
      ItemsRead(v.overrides, float, show);
    } else {
      NoItems(float);
    }
  }

  /** A default name is one whole segment, and reads back as its variant. */
  lemma DefaultNameReads(v: Variant, fields: set<string>, float: string -> Option<real>, show: real -> string)
    requires Plain(v, fields, float, show) && SelfNamed(v, show)
    ensures v.name != [] && Stripped(v.name) && ';' !in v.name
    ensures SegmentOf(v.name, fields, float, show) == Ok(v)
  {
    var body := BodyReads(v, fields, float, show);
    ItemsPlain(v.overrides, float, show);
    JoinEnds(Items(v.overrides, show), ',', ';');
    ItemStripped(v.overrides[0].0, Render(v.overrides[0].1, show));
    NameIsNoLabel(v.name, v.overrides[0].0);
    SegmentIs(v.name, None, v.name, v.overrides, fields, float, show);
  }

  /** So does a label, a colon and the overrides. */
  lemma LabelReads(v: Variant, fields: set<string>, float: string -> Option<real>, show: real -> string)
    requires Plain(v, fields, float, show) && IsLabel(v.name)
    ensures var text := v.name + (":" + DefaultName(v.overrides, show));
      text != [] && Stripped(text) && ';' !in text && SegmentOf(text, fields, float, show) == Ok(v)
  {
    var body := BodyReads(v, fields, float, show);
    var text := v.name + (":" + body);
    assert forall k :: 0 <= k < |v.name| ==> text[k] == v.name[k];
    FindIs(text, ':', 0, |v.name|);
    assert text[..|v.name|] == v.name && text[|v.name| + 1..] == body;
    StripWhole(v.name);
    StripWhole(body);
    SegmentIs(text, Some(v.name), body, v.overrides, fields, float, show);
  }

  lemma SegmentIs(text: string, name: Option<string>, body: string, overrides: Overrides, fields: set<string>,
                  float: string -> Option<real>, show: real -> string)
    requires LabelOf(text) == (name, body) && name != Some([])
    requires var r := ItemsFrom(SplitOn(body, ','), [], float); r.Ok? && r.value == overrides
    requires (name.Some? || overrides != []) && forall i :: 0 <= i < |overrides| ==> overrides[i].0 in fields
    ensures SegmentOf(text, fields, float, show) == Ok(Variant(if name.Some? then name.value else DefaultName(overrides, show), overrides))
  {}

  lemma SegmentReads(v: Variant, fields: set<string>, float: string -> Option<real>, show: real -> string)
    requires Spellable(v, fields, float, show)
    ensures var text := Spelled(v, show);
      text != [] && Stripped(text) && ';' !in text && SegmentOf(text, fields, float, show) == Ok(v)
  {
    if SelfNamed(v, show) {
      DefaultNameReads(v, fields, float, show);
    } else {
      LabelReads(v, fields, float, show);
    }
  }

  function Spellings(variants: seq<Variant>, show: real -> string): seq<string> {
    Map((v: Variant) => Spelled(v, show), variants)
  }

  /** Reading the i-th text gives the i-th variant. */
  ghost predicate Tells(read: SegmentReader, texts: seq<string>, variants: seq<Variant>) {
    |texts| == |variants| && forall i :: 0 <= i < |texts| ==> texts[i] != [] && read(texts[i]) == Ok(variants[i])
  }

  lemma NextSegment(read: SegmentReader, texts: seq<string>, rest: seq<Variant>, done: seq<Variant>, next: seq<Variant>)
    requires Tells(read, texts, rest) && rest != [] && next == done + [rest[0]] && Distinct(done)
    ensures !Distinct(next) ==> VariantsFrom(read, texts, done).Err?
    ensures Distinct(next) ==> VariantsFrom(read, texts, done) == VariantsFrom(read, texts[1..], next)
  {
    JoinedDistinct(done, rest[0]);
  }

  lemma {:induction false} AllRead(read: SegmentReader, texts: seq<string>, rest: seq<Variant>, done: seq<Variant>, all: seq<Variant>)
    requires Tells(read, texts, rest) && Distinct(done) && all == done + rest
    ensures var r := VariantsFrom(read, texts, done);
      (r.Ok? <==> Distinct(all)) && (r.Ok? ==> r.value == all)
    decreases |rest|
  {
    if rest == [] {
      assert done + rest == done;
    } else {
      var next := done + [rest[0]];
      NextSegment(read, texts, rest, done, next);
      assert next + rest[1..] == all;
      if Distinct(next) {
        AllRead(read, texts[1..], rest[1..], next, all);
      } else {
        PrefixDistinct(all, next);
      }
    }
  }

  lemma PrefixDistinct(variants: seq<Variant>, front: seq<Variant>)
    requires front <= variants
    ensures Distinct(variants) ==> Distinct(front)
  {}

  /**
   * Variants under default names or labels, written out and joined with ";", parse back to the same
   * variants, in order, exactly when no two of them would share a directory; otherwise the spec is
   * refused.
   */
  lemma SpecsReadBack(variants: seq<Variant>, fields: set<string>, float: string -> Option<real>, show: real -> string)
    requires variants != [] && forall i :: 0 <= i < |variants| ==> Spellable(variants[i], fields, float, show)
    ensures var spec := Join(Spellings(variants, show), ';');
      && (Parsed(spec, fields, float, show) == Ok(variants) <==> Distinct(variants))
      && (!Distinct(variants) ==> Parsed(spec, fields, float, show).Err?)
  {
    SpellingsAreSegments(variants, fields, float, show);
    assert [] + variants == variants;
    AllRead(ReadSegment(fields, float, show), Spellings(variants, show), variants, [], variants);
  }

  lemma SpellingsAreSegments(variants: seq<Variant>, fields: set<string>, float: string -> Option<real>, show: real -> string)
    requires variants != [] && forall i :: 0 <= i < |variants| ==> Spellable(variants[i], fields, float, show)
    ensures var texts := Spellings(variants, show);
      Segments(Join(texts, ';')) == texts && Tells(ReadSegment(fields, float, show), texts, variants)
  {
    var texts := Spellings(variants, show);
    forall i | 0 <= i < |texts|
      ensures texts[i] != [] && Strip(texts[i]) == texts[i] && ';' !in texts[i] && ReadSegment(fields, float, show)(texts[i]) == Ok(variants[i])
    {
      SegmentReads(variants[i], fields, float, show);
      StripWhole(texts[i]);
    }
    SplitJoin(texts, ';');
  }
}
