/**
 * Variant specs (bench/tuning.py): `"label:key=value,key=value;key=value"` to variants and back.
 * Parsing a float is a parameter (`None` where it raises or is not finite), and so is the set of
 * configuration fields.
 */
module Variants {
  import opened Seqs
  import opened Text

  datatype Value = Null | Bool(b: bool) | Int(n: int) | Num(x: real) | Str(s: string)

  /** A dict in insertion order. */
  type Overrides = seq<(string, Value)>

  datatype Variant = Variant(name: string, overrides: Overrides)

  datatype SpecError =
    | EmptySpec | EmptyLabel | ExpectedKeyValue | GivenTwice | ChangesNothing | UnknownField | DuplicateName | SharedDirectory

  datatype Result<+T> = Ok(value: T) | Err(error: SpecError)

  // ----- values ------------------------------------------------------------------------

  predicate IsDigit(c: char) {
    '0' <= c <= '9'
  }

  function DigitOf(c: char): (d: nat)
    requires IsDigit(c)
    ensures d < 10
  {
    c as int - '0' as int
  }

  /** Digits with single underscores between them. */
  function DigitsFrom(s: string, total: nat, afterDigit: bool): Option<nat> {
    if s == [] then if afterDigit then Some(total) else None
    else if s[0] == '_' then if afterDigit then DigitsFrom(s[1..], total, false) else None
    else if IsDigit(s[0]) then DigitsFrom(s[1..], total * 10 + DigitOf(s[0]), true)
    else None
  }

  function Negated(n: Option<nat>): Option<int> {
    if n.None? then None
    else
      var m: int := n.value;
      Some(-m)
  }

  /** `int(text)`, `None` where it raises. */
  function IntOf(text: string): Option<int> {
    if text != [] && text[0] == '-' then Negated(DigitsFrom(text[1..], 0, false))
    else if text != [] && text[0] == '+' then DigitsFrom(text[1..], 0, false)
    else DigitsFrom(text, 0, false)
  }

  function ParseValue(text: string, float: string -> Option<real>): Value {
    var whole, number, lowered := IntOf(text), float(text), Lower(text);
    if whole.Some? then Int(whole.value)
    else if number.Some? then Num(number.value)
    else if lowered == "true" || lowered == "false" then Bool(lowered == "true")
    else if lowered == "null" || lowered == "none" then Null
    else Str(text)
  }

  function ShowNat(n: nat): string {
    (if n < 10 then [] else ShowNat(n / 10)) + [('0' as int + n % 10) as char]
  }

  function ShowInt(n: int): string {
    if n < 0 then "-" + ShowNat(-n) else ShowNat(n)
  }

  /** `_render`; `show` is `str` of a float. */
  function Render(v: Value, show: real -> string): string {
    match v
    case Null => "null"
    case Bool(b) => if b then "true" else "false"
    case Int(n) => ShowInt(n)
    case Num(x) => show(x)
    case Str(s) => s
  }

  function RenderOverride(o: (string, Value), show: real -> string): string {
    o.0 + "=" + Render(o.1, show)
  }

  function DefaultName(overrides: Overrides, show: real -> string): string {
    Join(Map((o: (string, Value)) => RenderOverride(o, show), overrides), ',')
  }

  // ----- the directory name --------------------------------------------------------------

  predicate IsSafe(c: char) {
    || 'A' <= c <= 'Z' || 'a' <= c <= 'z' || '0' <= c <= '9'
    || c == '.' || c == '_' || c == '-'
  }

  function Replaced(s: string, c: char, w: string): string {
    if s == [] then [] else (if s[0] == c then w else [s[0]]) + Replaced(s[1..], c, w)
  }

  /** Every run of other characters becomes one underscore. */
  function Sanitised(s: string, inRun: bool): string {
    if s == [] then []
    else if IsSafe(s[0]) then [s[0]] + Sanitised(s[1..], false)
    else (if inRun then [] else "_") + Sanitised(s[1..], true)
  }

  predicate IsTrim(c: char) {
    c == '.' || c == '_'
  }

  function TrimLeft(s: string): string {
    if s != [] && IsTrim(s[0]) then TrimLeft(s[1..]) else s
  }

  function TrimRight(s: string): string {
    if s != [] && IsTrim(s[|s| - 1]) then TrimRight(s[..|s| - 1]) else s
  }

  const RESERVED: set<string> := {
    "con", "prn", "aux", "nul",
    "com1", "com2", "com3", "com4", "com5", "com6", "com7", "com8", "com9",
    "lpt1", "lpt2", "lpt3", "lpt4", "lpt5", "lpt6", "lpt7", "lpt8", "lpt9"
  }

  /** A device name on Windows, whatever its extension. */
  predicate IsReserved(text: string) {
    Lower(SplitOn(text, '.')[0]) in RESERVED
  }

  /** The name in safe characters, before reserved names are looked at. */
  function Cleaned(name: string): string {
    var text := Replaced(Replaced(Strip(name), '=', "-"), ',', "__");
    var trimmed := TrimRight(TrimLeft(Sanitised(text, false)));
    if trimmed == [] then "variant" else trimmed
  }

  function Slug(name: string): string {
    var text := Cleaned(name);
    if IsReserved(text) then "_" + text else text
  }

  function SlugKey(v: Variant): string {
    Lower(Slug(v.name))
  }

  // ----- one segment -----------------------------------------------------------------------

  predicate HasKey(overrides: Overrides, key: string) {
    exists i :: 0 <= i < |overrides| && overrides[i].0 == key
  }

  /** One `key=value`, added to the overrides before it; blank items are passed over. */
  function ItemOf(part: string, overrides: Overrides, float: string -> Option<real>): Result<Overrides> {
    var item := Strip(part);
    if item == [] then Ok(overrides)
    else
      var equals := Find(item, '=', 0);
      if equals.None? then Err(ExpectedKeyValue)
      else
        var key := Strip(item[..equals.value]);
        if key == [] then Err(ExpectedKeyValue)
        else if HasKey(overrides, key) then Err(GivenTwice)
        else Ok(overrides + [(key, ParseValue(Strip(item[equals.value + 1..]), float))])
  }

  type Reader = (string, Overrides) -> Result<Overrides>

  /** One part after another, up to the first that fails. */
  function ReadAll(read: Reader, parts: seq<string>, overrides: Overrides): Result<Overrides>
    decreases |parts|
  {
    if parts == [] then Ok(overrides)
    else
      var next := read(parts[0], overrides);
      if next.Err? then next else ReadAll(read, parts[1..], next.value)
  }

  function ItemReader(float: string -> Option<real>): Reader {
    (part: string, overrides: Overrides) => ItemOf(part, overrides, float)
  }

  function ItemsFrom(parts: seq<string>, overrides: Overrides, float: string -> Option<real>): Result<Overrides> {
    ReadAll(ItemReader(float), parts, overrides)
  }

  /** The label, if there is one, and the overrides' text: a colon before any `=` ends a label. */
  function LabelOf(segment: string): (Option<string>, string) {
    var colon := Find(segment, ':', 0);
    if colon.Some? && '=' !in segment[..colon.value]
    then (Some(Strip(segment[..colon.value])), Strip(segment[colon.value + 1..]))
    else (None, segment)
  }

  function SegmentOf(segment: string, fields: set<string>, float: string -> Option<real>, show: real -> string): Result<Variant> {
    var parts := LabelOf(segment);
    if parts.0 == Some([]) then Err(EmptyLabel)
    else
      var overrides := ItemsFrom(SplitOn(parts.1, ','), [], float);
      if overrides.Err? then Err(overrides.error)
      else if overrides.value == [] && parts.0.None? then Err(ChangesNothing)
      else if exists i :: 0 <= i < |overrides.value| && overrides.value[i].0 !in fields then Err(UnknownField)
      else
        var name := if parts.0.Some? then parts.0.value else DefaultName(overrides.value, show);
        Ok(Variant(name, overrides.value))
  }

  // ----- the whole spec ------------------------------------------------------------------------

  predicate NameTaken(variants: seq<Variant>, name: string) {
    exists i :: 0 <= i < |variants| && variants[i].name == name
  }

  predicate SlugTaken(variants: seq<Variant>, key: string) {
    exists i :: 0 <= i < |variants| && SlugKey(variants[i]) == key
  }

  function Joined(variants: seq<Variant>, v: Variant): Result<seq<Variant>> {
    if NameTaken(variants, v.name) then Err(DuplicateName)
    else if SlugTaken(variants, SlugKey(v)) then Err(SharedDirectory)
    else Ok(variants + [v])
  }

  type SegmentReader = string -> Result<Variant>

  function ReadSegment(fields: set<string>, float: string -> Option<real>, show: real -> string): SegmentReader {
    (segment: string) => SegmentOf(segment, fields, float, show)
  }

  function VariantsFrom(read: SegmentReader, segments: seq<string>, variants: seq<Variant>): Result<seq<Variant>>
    decreases |segments|
  {
    if segments == [] then Ok(variants)
    else if segments[0] == [] then VariantsFrom(read, segments[1..], variants)
    else
      var v := read(segments[0]);
      if v.Err? then Err(v.error)
      else
        var next := Joined(variants, v.value);
        if next.Err? then next else VariantsFrom(read, segments[1..], next.value)
  }

  function Segments(spec: string): seq<string> {
    Map(Strip, SplitOn(spec, ';'))
  }

  function Parsed(spec: string, fields: set<string>, float: string -> Option<real>, show: real -> string): Result<seq<Variant>> {
    var segments := Segments(spec);
    if forall i :: 0 <= i < |segments| ==> segments[i] == [] then Err(EmptySpec)
    else VariantsFrom(ReadSegment(fields, float, show), segments, [])
  }

  method ParseItems(body: string, float: string -> Option<real>) returns (r: Result<Overrides>)
    ensures r == ItemsFrom(SplitOn(body, ','), [], float)
  {
    var parts := SplitOn(body, ',');
    var overrides: Overrides := [];
    for i := 0 to |parts|
      invariant ItemsFrom(parts, [], float) == ItemsFrom(parts[i..], overrides, float)
    {
      assert parts[i..][1..] == parts[i + 1..];
      var item := Strip(parts[i]);
      if item == [] {
        continue;
      }
      var equals := Find(item, '=', 0);
      if equals.None? || Strip(item[..equals.value]) == [] {
        return Err(ExpectedKeyValue);
      }
      var key := Strip(item[..equals.value]);
      if HasKey(overrides, key) {
        return Err(GivenTwice);
      }
      overrides := overrides + [(key, ParseValue(Strip(item[equals.value + 1..]), float))];
    }
    return Ok(overrides);
  }

  method ParseSegment(segment: string, fields: set<string>, float: string -> Option<real>, show: real -> string)
    returns (r: Result<Variant>)
    ensures r == SegmentOf(segment, fields, float, show)
  {
    var parts := LabelOf(segment);
    if parts.0 == Some([]) {
      return Err(EmptyLabel);
    }
    var overrides := ParseItems(parts.1, float);
    if overrides.Err? {
      return Err(overrides.error);
    }
    if overrides.value == [] && parts.0.None? {
      return Err(ChangesNothing);
    }
    if exists i :: 0 <= i < |overrides.value| && overrides.value[i].0 !in fields {
      return Err(UnknownField);
    }
    var name := if parts.0.Some? then parts.0.value else DefaultName(overrides.value, show);
    return Ok(Variant(name, overrides.value));
  }

  method ParseVariants(spec: string, fields: set<string>, float: string -> Option<real>, show: real -> string)
    returns (r: Result<seq<Variant>>)
    ensures r == Parsed(spec, fields, float, show)
  {
    var segments := Segments(spec);
    if forall i :: 0 <= i < |segments| ==> segments[i] == [] {
      return Err(EmptySpec);
    }
    ghost var read := ReadSegment(fields, float, show);
    var variants: seq<Variant> := [];
    var seenNames: set<string>, seenSlugs: map<string, string> := {}, map[];
    for i := 0 to |segments|
      invariant VariantsFrom(read, segments, []) == VariantsFrom(read, segments[i..], variants)
      invariant forall name :: name in seenNames <==> NameTaken(variants, name)
      invariant forall key :: key in seenSlugs <==> SlugTaken(variants, key)
    {
      assert segments[i..][1..] == segments[i + 1..];
      if segments[i] == [] {
        continue;
      }
      var parsed := ParseSegment(segments[i], fields, float, show);
      if parsed.Err? {
        return Err(parsed.error);
      }
      var variant := parsed.value;
      if variant.name in seenNames {
        return Err(DuplicateName);
      }
      var key := Lower(Slug(variant.name));
      if key in seenSlugs {
        return Err(SharedDirectory);
      }
      TakenOneMore(variants, variant);
      seenNames := seenNames + {variant.name};
      seenSlugs := seenSlugs[key := variant.name];
      variants := variants + [variant];
    }
    return Ok(variants);
  }

  lemma TakenOneMore(variants: seq<Variant>, v: Variant)
    ensures forall name :: NameTaken(variants + [v], name) <==> NameTaken(variants, name) || name == v.name
    ensures forall key :: SlugTaken(variants + [v], key) <==> SlugTaken(variants, key) || key == SlugKey(v)
  {
    var all := variants + [v];
    forall name ensures NameTaken(all, name) <==> NameTaken(variants, name) || name == v.name {
      if i :| 0 <= i < |variants| && variants[i].name == name {
        assert all[i].name == name;
      }
      assert all[|variants|] == v;
    }
    forall key ensures SlugTaken(all, key) <==> SlugTaken(variants, key) || key == SlugKey(v) {
      if i :| 0 <= i < |variants| && SlugKey(variants[i]) == key {
        assert SlugKey(all[i]) == key;
      }
      assert SlugKey(all[|variants|]) == SlugKey(v);
    }
  }
}
