/** The directory of a variant, in terms of its name, and which specs are accepted for it. */
module VariantDirectories {
  import opened Seqs
  import opened Text
  import opened Variants
  import opened VariantProperties

  // ----- what a directory name is ----------------------------------------------------------

  predicate IsLetter(c: char) {
    'A' <= c <= 'Z' || 'a' <= c <= 'z'
  }

  /** A letter, a digit, a dot, a dash or an underscore. */
  predicate IsPlain(c: char) {
    IsLetter(c) || '0' <= c <= '9' || c == '.' || c == '-' || c == '_'
  }

  /** A name as default names and labels are: plain but for "=" and ",", with neither a dot nor an underscore at an end. */
  predicate IsTame(name: string) {
    && name != [] && (forall i :: 0 <= i < |name| ==> IsPlain(name[i]) || name[i] == '=' || name[i] == ',')
    && !Frays(name[0]) && !Frays(name[|name| - 1])
  }

  predicate Frays(c: char) {
    c == '.' || c == '_' || c == ','
  }

  /** A dash for each "=" and two underscores for each ",". */
  function Dashed(name: string): string {
    if name == [] then []
    else (if name[0] == '=' then "-" else if name[0] == ',' then "__" else [name[0]]) + Dashed(name[1..])
  }

  /** The device names of Windows, lower case. */
  predicate IsDevice(s: string) {
    || s == "con" || s == "prn" || s == "aux" || s == "nul"
    || (|s| == 4 && (s[..3] == "com" || s[..3] == "lpt") && '1' <= s[3] <= '9')
  }

  /** Up to its first dot it is a device. */
  predicate OpensDevice(text: string) {
    IsDevice(Lower(Stem(text)))
  }

  function Stem(text: string): string {
    if text == [] || text[0] == '.' then [] else [text[0]] + Stem(text[1..])
  }

  lemma {:induction false} StemIsFirst(text: string)
    ensures SplitOn(text, '.')[0] == Stem(text)
  {
    if text != [] && text[0] != '.' {
      StemIsFirst(text[1..]);
    }
  }

  lemma DevicesAreReserved(s: string)
    ensures IsDevice(s) <==> s in RESERVED
  {
    if |s| == 4 && (s[..3] == "com" || s[..3] == "lpt") && '1' <= s[3] <= '9' {
      assert s == s[..3] + [s[3]];
      Numbered(s[..3], s[3]);
    }
    forall w | w in RESERVED ensures IsDevice(w) {
      if |w| == 4 {
        assert w[..3] == [w[0], w[1], w[2]];
      }
    }
  }

  lemma Numbered(stem: string, c: char)
    requires (stem == "com" || stem == "lpt") && '1' <= c <= '9'
    ensures stem + [c] in RESERVED
  {
    var s := stem + [c];
    assert [c] == "1" || [c] == "2" || [c] == "3" || [c] == "4" || [c] == "5" || [c] == "6" || [c] == "7" || [c] == "8" || [c] == "9";
    assert stem == "com" ==> s == "com1" || s == "com2" || s == "com3" || s == "com4" || s == "com5" || s == "com6" || s == "com7" || s == "com8" || s == "com9";
    assert stem == "lpt" ==> s == "lpt1" || s == "lpt2" || s == "lpt3" || s == "lpt4" || s == "lpt5" || s == "lpt6" || s == "lpt7" || s == "lpt8" || s == "lpt9";
  }

  lemma ReservedExactly(text: string)
    ensures IsReserved(text) <==> OpensDevice(text)
  {
    StemIsFirst(text);
    DevicesAreReserved(Lower(Stem(text)));
  }

  // ----- the steps leave tame names alone -----------------------------------------------------

  lemma {:induction false} ReplacedConcat(a: string, b: string, c: char, w: string)
    ensures Replaced(a + b, c, w) == Replaced(a, c, w) + Replaced(b, c, w)
  {
    if a == [] {
      assert a + b == b;
    } else {
      assert (a + b)[1..] == a[1..] + b;
      ReplacedConcat(a[1..], b, c, w);
    }
  }

  lemma ReplacedOne(x: char, c: char, w: string)
    ensures Replaced([x], c, w) == if x == c then w else [x]
  {
    assert [x][1..] == [];
    assert Replaced([x], c, w) == (if x == c then w else [x]) + Replaced([x][1..], c, w);
  }

  lemma {:induction false} ReplacedIsDashed(s: string)
    ensures Replaced(Replaced(s, '=', "-"), ',', "__") == Dashed(s)
  {
    if s != [] {
      var first := if s[0] == '=' then "-" else [s[0]];
      ReplacedConcat(first, Replaced(s[1..], '=', "-"), ',', "__");
      ReplacedOne(first[0], ',', "__");
      ReplacedIsDashed(s[1..]);
    }
  }

  lemma {:induction false} DashedIsSafe(s: string)
    requires forall i :: 0 <= i < |s| ==> IsPlain(s[i]) || s[i] == '=' || s[i] == ','
    ensures AllSafe(Dashed(s))
  {
    if s != [] {
      DashedIsSafe(s[1..]);
    }
  }

  lemma {:induction false} DashedEnds(s: string)
    requires s != []
    ensures Dashed(s) != []
    ensures s[0] != '=' && s[0] != ',' ==> Dashed(s)[0] == s[0]
    ensures s[0] == '=' ==> Dashed(s)[0] == '-'
    ensures s[|s| - 1] != '=' && s[|s| - 1] != ',' ==> Dashed(s)[|Dashed(s)| - 1] == s[|s| - 1]
    ensures s[|s| - 1] == '=' ==> Dashed(s)[|Dashed(s)| - 1] == '-'
  {
    if |s| > 1 {
      DashedEnds(s[1..]);
    } else {
      assert s[1..] == [];
    }
  }

  lemma {:induction false} SafeUnchanged(s: string, inRun: bool)
    requires AllSafe(s)
    ensures Sanitised(s, inRun) == s
  {
    if s != [] {
      SafeUnchanged(s[1..], false);
      assert s == [s[0]] + s[1..];
    }
  }

  lemma TrimUnchanged(s: string)
    requires s != [] && !IsTrim(s[0]) && !IsTrim(s[|s| - 1])
    ensures TrimRight(TrimLeft(s)) == s
  {}

  lemma CleanedIs(name: string, text: string)
    requires Strip(name) == name && Sanitised(Dashed(name), false) == text
    requires text != [] && !IsTrim(text[0]) && !IsTrim(text[|text| - 1])
    ensures Cleaned(name) == text
  {
    ReplacedIsDashed(name);
    TrimUnchanged(text);
  }

  lemma TameCleans(name: string)
    requires IsTame(name)
    ensures Cleaned(name) == Dashed(name)
  {
    StripWhole(name);
    DashedIsSafe(name);
    SafeUnchanged(Dashed(name), false);
    DashedEnds(name);
    CleanedIs(name, Dashed(name));
  }

  /**
   * The directory of a tame name is the name, dashed: `max_num_seqs=64,max_num_batched_tokens=4096` goes
   * to `max_num_seqs-64__max_num_batched_tokens-4096`, and what would open a device gets an underscore.
   */
  lemma TameDirectory(name: string)
    requires IsTame(name)
    ensures Slug(name) == (if OpensDevice(Dashed(name)) then "_" else "") + Dashed(name)
  {
    TameCleans(name);
    ReservedExactly(Dashed(name));
    assert "" + Dashed(name) == Dashed(name);
  }

  lemma {:induction false} PlainIsItself(name: string)
    requires forall i :: 0 <= i < |name| ==> IsPlain(name[i])
    ensures Dashed(name) == name
  {
    if name != [] {
      PlainIsItself(name[1..]);
      assert name == [name[0]] + name[1..];
    }
  }

  /** So a plain name is its own directory. */
  lemma PlainDirectory(name: string)
    requires IsTame(name) && !OpensDevice(name) && forall i :: 0 <= i < |name| ==> IsPlain(name[i])
    ensures Slug(name) == name
  {
    PlainIsItself(name);
    TameDirectory(name);
  }

  // ----- other characters ----------------------------------------------------------------------

  /** Not plain, and with no replacement of its own. */
  predicate IsOdd(c: char) {
    !IsPlain(c) && c != '=' && c != ','
  }

  lemma {:induction false} DashedConcat(a: string, b: string)
    ensures Dashed(a + b) == Dashed(a) + Dashed(b)
  {
    if a == [] {
      assert a + b == b;
    } else {
      assert (a + b)[1..] == a[1..] + b;
      DashedConcat(a[1..], b);
    }
  }

  lemma {:induction false} OddIsItself(run: string)
    requires forall i :: 0 <= i < |run| ==> IsOdd(run[i])
    ensures Dashed(run) == run
  {
    if run != [] {
      OddIsItself(run[1..]);
      assert run == [run[0]] + run[1..];
    }
  }

  lemma {:induction false} SanitisedRun(run: string, rest: string)
    requires (forall i :: 0 <= i < |run| ==> IsOdd(run[i])) && AllSafe(rest)
    ensures Sanitised(run + rest, true) == rest
    ensures run != [] ==> Sanitised(run + rest, false) == "_" + rest
  {
    if run == [] {
      assert run + rest == rest;
      SafeUnchanged(rest, true);
    } else {
      assert (run + rest)[1..] == run[1..] + rest;
      SanitisedRun(run[1..], rest);
      assert [] + rest == rest;
    }
  }

  lemma {:induction false} SanitisedFront(a: string, rest: string)
    requires AllSafe(a) && a != []
    ensures Sanitised(a + rest, false) == a + Sanitised(rest, false)
  {
    assert (a + rest)[1..] == a[1..] + rest;
    if |a| > 1 {
      SanitisedFront(a[1..], rest);
      assert a == [a[0]] + a[1..];
    } else {
      assert a[1..] + rest == rest;
    }
  }

  lemma TameEnds(a: string)
    requires IsTame(a)
    ensures a != [] && !IsSpace(a[0]) && !IsSpace(a[|a| - 1])
    ensures var d := Dashed(a); d != [] && !IsTrim(d[0]) && !IsTrim(d[|d| - 1])
  {
    DashedEnds(a);
  }

  lemma EndsOfThree(a: string, middle: string, b: string)
    requires a != [] && b != []
    ensures var s := a + (middle + b); s != [] && s[0] == a[0] && s[|s| - 1] == b[|b| - 1]
  {}

  lemma OddRunCleans(a: string, run: string, b: string)
    requires IsTame(a) && IsTame(b) && run != [] && forall i :: 0 <= i < |run| ==> IsOdd(run[i])
    ensures Cleaned(a + (run + b)) == Dashed(a) + ("_" + Dashed(b))
  {
    TameEnds(a);
    TameEnds(b);
    EndsOfThree(a, run, b);
    EndsOfThree(Dashed(a), "_", Dashed(b));
    StripWhole(a + (run + b));
    DashedAround(a, run, b);
    RunSanitised(a, run, b);
    CleanedIs(a + (run + b), Dashed(a) + ("_" + Dashed(b)));
  }

  lemma DashedAround(a: string, run: string, b: string)
    requires forall i :: 0 <= i < |run| ==> IsOdd(run[i])
    ensures Dashed(a + (run + b)) == Dashed(a) + (run + Dashed(b))
  {
    DashedConcat(a, run + b);
    DashedConcat(run, b);
    OddIsItself(run);
  }

  lemma RunSanitised(a: string, run: string, b: string)
    requires IsTame(a) && IsTame(b) && run != [] && forall i :: 0 <= i < |run| ==> IsOdd(run[i])
    ensures Sanitised(Dashed(a) + (run + Dashed(b)), false) == Dashed(a) + ("_" + Dashed(b))
  {
    DashedIsSafe(a);
    DashedIsSafe(b);
    DashedEnds(a);
    SanitisedFront(Dashed(a), run + Dashed(b));
    SanitisedRun(run, Dashed(b));
  }

  /** A run of characters that no directory may hold becomes one underscore. */
  lemma OddRunDirectory(a: string, run: string, b: string)
    requires IsTame(a) && IsTame(b) && run != [] && forall i :: 0 <= i < |run| ==> IsOdd(run[i])
    ensures var text := Dashed(a) + ("_" + Dashed(b)); Slug(a + (run + b)) == (if OpensDevice(text) then "_" else "") + text
  {
    var text := Dashed(a) + ("_" + Dashed(b));
    OddRunCleans(a, run, b);
    ReservedExactly(text);
    assert "" + text == text;
  }

  // ----- which specs are accepted --------------------------------------------------------------

  /** Equal but for the case of letters. */
  predicate SameLetters(a: string, b: string) {
    |a| == |b| && forall i :: 0 <= i < |a| ==> SameLetter(a[i], b[i])
  }

  predicate SameLetter(a: char, b: char) {
    || a == b
    || ('A' <= a <= 'Z' && b as int == a as int + 32)
    || ('A' <= b <= 'Z' && a as int == b as int + 32)
  }

  lemma LowerSame(a: string, b: string)
    ensures Lower(a) == Lower(b) <==> SameLetters(a, b)
  {
    assert |Lower(a)| == |a| && |Lower(b)| == |b|;
    if Lower(a) == Lower(b) {
      forall i | 0 <= i < |a| ensures SameLetter(a[i], b[i]) {
        assert LowerChar(a[i]) == Lower(a)[i] == Lower(b)[i] == LowerChar(b[i]);
      }
    }
    if SameLetters(a, b) {
      forall i | 0 <= i < |a| ensures Lower(a)[i] == Lower(b)[i] {
        assert SameLetter(a[i], b[i]);
      }
    }
  }

  /** No two dashed names are equal apart from case. */
  ghost predicate Apart(variants: seq<Variant>) {
    forall i, j :: 0 <= i < j < |variants| ==> !SameLetters(Dashed(variants[i].name), Dashed(variants[j].name))
  }

  ghost predicate Tame(variants: seq<Variant>) {
    forall i :: 0 <= i < |variants| ==> IsTame(variants[i].name) && !OpensDevice(Dashed(variants[i].name))
  }

  lemma ApartIsDistinct(variants: seq<Variant>)
    requires Tame(variants)
    ensures Apart(variants) <==> Distinct(variants)
  {
    forall i, j | 0 <= i < j < |variants|
      ensures SlugKey(variants[i]) == SlugKey(variants[j]) <==> SameLetters(Dashed(variants[i].name), Dashed(variants[j].name))
    {
      DirectoryKey(variants[i]);
      DirectoryKey(variants[j]);
      LowerSame(Dashed(variants[i].name), Dashed(variants[j].name));
    }
    if Apart(variants) {
      forall i, j | 0 <= i < j < |variants| ensures variants[i].name != variants[j].name {
        assert !SameLetters(Dashed(variants[i].name), Dashed(variants[j].name));
      }
    }
  }

  lemma DirectoryKey(v: Variant)
    requires IsTame(v.name) && !OpensDevice(Dashed(v.name))
    ensures SlugKey(v) == Lower(Dashed(v.name))
  {
    TameDirectory(v.name);
    assert "" + Dashed(v.name) == Dashed(v.name);
  }

  /**
   * Variants under tame names, written out and joined with ";", are accepted, and are the same variants in
   * order, exactly when no two of their names are equal apart from case once dashed.
   */
  lemma TameSpecsExactly(variants: seq<Variant>, fields: set<string>, float: string -> Option<real>, show: real -> string)
    requires variants != [] && forall i :: 0 <= i < |variants| ==> Spellable(variants[i], fields, float, show)
    requires Tame(variants)
    ensures var r := Parsed(Join(Spellings(variants, show), ';'), fields, float, show);
      && (r == Ok(variants) <==> Apart(variants)) && (r.Ok? <==> Apart(variants))
  {
    ApartIsDistinct(variants);
    SpecsReadBack(variants, fields, float, show);
  }

  // ----- one field, many values ------------------------------------------------------------------

  /** The field set to `n`, under the default name of that. */
  function OneField(key: string, show: real -> string): int -> Variant {
    (n: int) => Variant(DefaultName([(key, Int(n))], show), [(key, Int(n))])
  }

  lemma OneFieldName(key: string, n: int, show: real -> string)
    ensures OneField(key, show)(n).name == key + "=" + ShowInt(n)
  {
    var items := Map((o: (string, Value)) => RenderOverride(o, show), [(key, Int(n))]);
    assert items == [key + "=" + ShowInt(n)];
  }

  lemma {:induction false} DashedIdentifier(key: string)
    requires forall i :: 0 <= i < |key| ==> key[i] != '=' && key[i] != ','
    ensures Dashed(key) == key
  {
    if key != [] {
      DashedIdentifier(key[1..]);
      assert key == [key[0]] + key[1..];
    }
  }

  lemma IntDigits(n: int)
    ensures ShowInt(n) != [] && IsDigit(ShowInt(n)[|ShowInt(n)| - 1])
    ensures forall i :: 0 <= i < |ShowInt(n)| ==> IsDigit(ShowInt(n)[i]) || ShowInt(n)[i] == '-'
  {
    var m: nat := if n < 0 then -n else n;
    NatDigits(m);
  }

  /** A field whose name starts like a word. */
  predicate IsField(key: string) {
    IsIdentifier(key) && key[0] != '_'
  }

  lemma OneFieldDashed(key: string, n: int, show: real -> string)
    requires IsField(key)
    ensures var name := OneField(key, show)(n).name; IsTame(name) && Dashed(name) == key + ("-" + ShowInt(n))
  {
    OneFieldName(key, n, show);
    IntDigits(n);
    PairDashed(key, ShowInt(n));
    PairTame(key, ShowInt(n));
  }

  lemma DashedEquals(value: string)
    ensures Dashed("=" + value) == "-" + Dashed(value)
  {
    assert ("=" + value)[1..] == value;
  }

  lemma PairDashed(key: string, value: string)
    requires forall i :: 0 <= i < |key| ==> key[i] != '=' && key[i] != ','
    requires forall i :: 0 <= i < |value| ==> value[i] != '=' && value[i] != ','
    ensures Dashed(key + "=" + value) == key + ("-" + value)
  {
    assert key + "=" + value == key + ("=" + value);
    DashedConcat(key, "=" + value);
    DashedEquals(value);
    DashedIdentifier(key);
    DashedIdentifier(value);
  }

  lemma PairTame(key: string, value: string)
    requires key != [] && value != [] && !Frays(key[0]) && !Frays(value[|value| - 1])
    requires (forall i :: 0 <= i < |key| ==> IsPlain(key[i])) && forall i :: 0 <= i < |value| ==> IsPlain(value[i])
    ensures IsTame(key + "=" + value)
  {
    var name := key + "=" + value;
    forall i | 0 <= i < |name| ensures IsPlain(name[i]) || name[i] == '=' {
      assert i < |key| ==> name[i] == key[i];
      assert i > |key| ==> name[i] == value[i - |key| - 1];
    }
  }

  lemma IntsApart(key: string, m: int, n: int)
    requires SameLetters(key + ("-" + ShowInt(m)), key + ("-" + ShowInt(n)))
    ensures m == n
  {
    var a, b := key + ("-" + ShowInt(m)), key + ("-" + ShowInt(n));
    IntDigits(m);
    IntDigits(n);
    assert |ShowInt(m)| == |ShowInt(n)|;
    forall i | 0 <= i < |ShowInt(m)| ensures ShowInt(m)[i] == ShowInt(n)[i] {
      assert a[|key| + 1 + i] == ShowInt(m)[i] && b[|key| + 1 + i] == ShowInt(n)[i];
      assert SameLetter(a[|key| + 1 + i], b[|key| + 1 + i]);
    }
    assert ShowInt(m) == ShowInt(n);
    IntReads(m);
    IntReads(n);
  }

  lemma {:induction false} StemWhole(text: string)
    requires '.' !in text
    ensures Stem(text) == text
  {
    if text != [] {
      assert text == [text[0]] + text[1..] && text[0] in text;
      StemWhole(text[1..]);
    }
  }

  /** No device has a dash in its name. */
  lemma DashOpensNothing(text: string, i: nat)
    requires '.' !in text && i < |text| && text[i] == '-'
    ensures !OpensDevice(text)
  {
    StemWhole(text);
    DeviceHasNoDash(Lower(text));
    assert Lower(text)[i] == '-';
  }

  lemma DeviceHasNoDash(s: string)
    ensures IsDevice(s) ==> forall i :: 0 <= i < |s| ==> s[i] != '-'
  {
    if |s| == 4 {
      assert s[..3][0] == s[0] && s[..3][1] == s[1] && s[..3][2] == s[2];
    }
  }

  lemma OneFieldTame(key: string, n: int, show: real -> string)
    requires IsField(key)
    ensures var name := OneField(key, show)(n).name; IsTame(name) && !OpensDevice(Dashed(name))
  {
    OneFieldDashed(key, n, show);
    IntDigits(n);
    DashOpensNothing(key + ("-" + ShowInt(n)), |key|);
  }

  lemma OneFieldSpellable(key: string, n: int, fields: set<string>, float: string -> Option<real>, show: real -> string)
    requires IsField(key) && key in fields
    ensures var v := OneField(key, show)(n);
      Spellable(v, fields, float, show) && Spelled(v, show) == key + "=" + ShowInt(n)
  {
    OneFieldName(key, n, show);
    IntPrintable(n, float, show);
  }

  /** A spec of one field under distinct integers is accepted, and gives a variant for each. */
  lemma OneFieldAccepted(key: string, values: seq<int>, fields: set<string>, float: string -> Option<real>, show: real -> string)
    requires IsField(key) && key in fields && values != [] && NoDuplicates(values)
    ensures Parsed(Join(Map((n: int) => key + "=" + ShowInt(n), values), ';'), fields, float, show) == Ok(Map(OneField(key, show), values))
  {
    var variants, texts := Map(OneField(key, show), values), Map((n: int) => key + "=" + ShowInt(n), values);
    forall i | 0 <= i < |values|
      ensures Spellable(variants[i], fields, float, show) && Spelled(variants[i], show) == texts[i]
      ensures IsTame(variants[i].name) && !OpensDevice(Dashed(variants[i].name))
      ensures Dashed(variants[i].name) == key + ("-" + ShowInt(values[i]))
    {
      OneFieldSpellable(key, values[i], fields, float, show);
      OneFieldTame(key, values[i], show);
      OneFieldDashed(key, values[i], show);
    }
    forall i, j | 0 <= i < j < |values| ensures !SameLetters(Dashed(variants[i].name), Dashed(variants[j].name)) {
      if SameLetters(Dashed(variants[i].name), Dashed(variants[j].name)) {
        IntsApart(key, values[i], values[j]);
      }
    }
    assert Spellings(variants, show) == texts;
    TameSpecsExactly(variants, fields, float, show);
  }

  // ----- sessions with a baseline first and last ------------------------------------------------------

  /** A word or several with dashes between them, too long for a device. */
  predicate IsWords(name: string) {
    && |name| > 4 && (forall i :: 0 <= i < |name| ==> IsLetter(name[i]) || name[i] == '-')
    && IsLetter(name[0]) && IsLetter(name[|name| - 1])
  }

  lemma WordsDirectory(name: string)
    requires IsWords(name)
    ensures IsLabel(name) && IsTame(name) && Dashed(name) == name && !OpensDevice(name)
  {
    WordsArePlain(name);
    PlainIsItself(name);
    LongIsNoDevice(name);
  }

  lemma WordsArePlain(name: string)
    requires IsWords(name)
    ensures (forall i :: 0 <= i < |name| ==> IsPlain(name[i])) && IsLabel(name) && IsTame(name) && '.' !in name
  {}

  lemma LongIsNoDevice(name: string)
    requires |name| > 4 && '.' !in name
    ensures !OpensDevice(name)
  {
    StemWhole(name);
    assert |Lower(name)| == |name|;
  }

  /** A label over one field. */
  function Labelled(name: string, key: string, n: int): Variant {
    Variant(name, [(key, Int(n))])
  }

  lemma LabelledSpellable(name: string, key: string, n: int, fields: set<string>, float: string -> Option<real>, show: real -> string)
    requires IsWords(name) && IsField(key) && key in fields
    ensures Spellable(Labelled(name, key, n), fields, float, show)
    ensures Spelled(Labelled(name, key, n), show) == name + (":" + (key + "=" + ShowInt(n)))
  {
    WordsDirectory(name);
    IntPrintable(n, float, show);
    OneFieldName(key, n, show);
    var text := key + "=" + ShowInt(n);
    assert DefaultName(Labelled(name, key, n).overrides, show) == text;
    assert text[|key|] == '=' && text[|key|] in text;
  }

  /** The baseline at `n`, the field at each of the values, and the baseline again. */
  function Session(first: string, last: string, key: string, n: int, values: seq<int>, show: real -> string): seq<Variant> {
    [Labelled(first, key, n)] + Map(OneField(key, show), values) + [Labelled(last, key, n)]
  }

  /** The directories of a session. */
  function SessionNames(first: string, last: string, key: string, values: seq<int>): seq<string> {
    [first] + Map((m: int) => key + ("-" + ShowInt(m)), values) + [last]
  }

  ghost predicate AllApart(names: seq<string>) {
    forall i, j :: 0 <= i < j < |names| ==> !SameLetters(names[i], names[j])
  }

  lemma BetweenEnds<A>(first: A, middle: seq<A>, last: A, i: nat)
    requires i < |middle| + 2
    ensures ([first] + middle + [last])[i] == if i == 0 then first else if i == |middle| + 1 then last else middle[i - 1]
  {}

  lemma SessionPlaces(first: string, last: string, key: string, n: int, values: seq<int>, show: real -> string, i: nat)
    requires i < |values| + 2
    ensures var variants, names := Session(first, last, key, n, values, show), SessionNames(first, last, key, values);
      && |variants| == |names| == |values| + 2
      && (i == 0 ==> variants[i] == Labelled(first, key, n) && names[i] == first)
      && (i == |values| + 1 ==> variants[i] == Labelled(last, key, n) && names[i] == last)
      && (1 <= i <= |values| ==> variants[i] == OneField(key, show)(values[i - 1]) && names[i] == key + ("-" + ShowInt(values[i - 1])))
  {
    BetweenEnds(Labelled(first, key, n), Map(OneField(key, show), values), Labelled(last, key, n), i);
    BetweenEnds(first, Map((m: int) => key + ("-" + ShowInt(m)), values), last, i);
  }

  lemma OneFieldFacts(key: string, n: int, fields: set<string>, float: string -> Option<real>, show: real -> string)
    requires IsField(key) && key in fields
    ensures var v := OneField(key, show)(n);
      Spellable(v, fields, float, show) && IsTame(v.name) && !OpensDevice(Dashed(v.name)) && Dashed(v.name) == key + ("-" + ShowInt(n))
  {
    OneFieldSpellable(key, n, fields, float, show);
    OneFieldTame(key, n, show);
    OneFieldDashed(key, n, show);
  }

  lemma LabelledFacts(name: string, key: string, n: int, fields: set<string>, float: string -> Option<real>, show: real -> string)
    requires IsWords(name) && IsField(key) && key in fields
    ensures var v := Labelled(name, key, n);
      Spellable(v, fields, float, show) && IsTame(v.name) && !OpensDevice(Dashed(v.name)) && Dashed(v.name) == name
  {
    WordsDirectory(name);
    LabelledSpellable(name, key, n, fields, float, show);
  }

  lemma MemberReads(first: string, last: string, key: string, n: int, values: seq<int>, fields: set<string>,
                    float: string -> Option<real>, show: real -> string, i: nat)
    requires IsWords(first) && IsWords(last) && IsField(key) && key in fields && i < |values| + 2
    ensures var v, name := Session(first, last, key, n, values, show)[i], SessionNames(first, last, key, values)[i];
      Spellable(v, fields, float, show) && IsTame(v.name) && !OpensDevice(Dashed(v.name)) && Dashed(v.name) == name
  {
    SessionPlaces(first, last, key, n, values, show, i);
    if i == 0 {
      LabelledFacts(first, key, n, fields, float, show);
    } else if i == |values| + 1 {
      LabelledFacts(last, key, n, fields, float, show);
    } else {
      OneFieldFacts(key, values[i - 1], fields, float, show);
    }
  }

  lemma SessionReads(first: string, last: string, key: string, n: int, values: seq<int>, fields: set<string>,
                     float: string -> Option<real>, show: real -> string)
    requires IsWords(first) && IsWords(last) && IsField(key) && key in fields
    ensures var variants, names := Session(first, last, key, n, values, show), SessionNames(first, last, key, values);
      && |variants| == |names| && Tame(variants)
      && forall i :: 0 <= i < |variants| ==> Spellable(variants[i], fields, float, show) && Dashed(variants[i].name) == names[i]
  {
    forall i: nat | i < |values| + 2
      ensures var v, name := Session(first, last, key, n, values, show)[i], SessionNames(first, last, key, values)[i];
        Spellable(v, fields, float, show) && IsTame(v.name) && !OpensDevice(Dashed(v.name)) && Dashed(v.name) == name
    {
      MemberReads(first, last, key, n, values, fields, float, show, i);
    }
  }

  lemma SessionApart(first: string, last: string, key: string, values: seq<int>)
    requires NoDuplicates(values) && first != [] && last != [] && key != [] && !SameLetters(first, last)
    requires !SameLetter(first[0], key[0]) && !SameLetter(key[0], last[0])
    ensures AllApart(SessionNames(first, last, key, values))
  {
    var middle := Map((m: int) => key + ("-" + ShowInt(m)), values);
    forall i, j | 0 <= i < j < |middle| ensures !SameLetters(middle[i], middle[j]) {
      ValuesApart(key, values, i, j);
    }
    MiddleApart(first, middle, last, key[0]);
  }

  lemma MiddleApart(first: string, middle: seq<string>, last: string, c: char)
    requires first != [] && last != [] && !SameLetters(first, last) && AllApart(middle)
    requires forall i :: 0 <= i < |middle| ==> middle[i] != [] && middle[i][0] == c
    requires !SameLetter(first[0], c) && !SameLetter(c, last[0])
    ensures AllApart([first] + middle + [last])
  {
    forall i | 0 <= i < |middle| ensures !SameLetters(first, middle[i]) && !SameLetters(middle[i], last) {
      OtherFirstLetter(first, middle[i]);
      OtherFirstLetter(middle[i], last);
    }
  }

  lemma OtherFirstLetter(a: string, b: string)
    requires a != [] && b != [] && !SameLetter(a[0], b[0])
    ensures !SameLetters(a, b)
  {}

  lemma ValuesApart(key: string, values: seq<int>, i: nat, j: nat)
    requires NoDuplicates(values) && i < j < |values|
    ensures !SameLetters(key + ("-" + ShowInt(values[i])), key + ("-" + ShowInt(values[j])))
  {
    if SameLetters(key + ("-" + ShowInt(values[i])), key + ("-" + ShowInt(values[j]))) {
      IntsApart(key, values[i], values[j]);
    }
  }

  /** A session of two baselines around one field under distinct integers is accepted, each variant in a directory of its own. */
  lemma SessionAccepted(first: string, last: string, key: string, n: int, values: seq<int>, fields: set<string>,
                        float: string -> Option<real>, show: real -> string)
    requires IsWords(first) && IsWords(last) && IsField(key) && key in fields && NoDuplicates(values)
    requires !SameLetters(first, last) && !SameLetter(first[0], key[0]) && !SameLetter(key[0], last[0])
    ensures var variants := Session(first, last, key, n, values, show);
      Parsed(Join(Spellings(variants, show), ';'), fields, float, show) == Ok(variants)
  {
    var variants := Session(first, last, key, n, values, show);
    SessionReads(first, last, key, n, values, fields, float, show);
    SessionApart(first, last, key, values);
    assert Apart(variants);
    TameSpecsExactly(variants, fields, float, show);
  }

  lemma DefaultWords(first: string, last: string, key: string)
    requires first == "baseline" && last == "baseline-repeat" && key == "max_num_seqs"
    ensures IsWords(first) && IsWords(last) && IsField(key) && first[0] == last[0] == 'b' && key[0] == 'm' && |first| != |last|
  {}

  /** The session that is run by default is one. */
  lemma DefaultSessionAccepted(first: string, last: string, key: string, fields: set<string>, float: string -> Option<real>, show: real -> string)
    requires first == "baseline" && last == "baseline-repeat" && key == "max_num_seqs" && key in fields
    ensures var variants := Session(first, last, key, 256, [32, 64, 96, 128], show);
      Parsed(Join(Spellings(variants, show), ';'), fields, float, show) == Ok(variants)
  {
    DefaultWords(first, last, key);
    SessionAccepted(first, last, key, 256, [32, 64, 96, 128], fields, float, show);
  }
}
