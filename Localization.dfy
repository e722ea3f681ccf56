/**
 * Locale names and translation choice (pyanaconda/localization.py): the short
 * form of a babel locale and the equality built on it, the "language search
 * path" of a locale name, the order-preserving partition used to put preferred
 * locales first, the choice of a preferred locale for a translation, and the
 * parsing of a language code into its parts.  The babel locale database and
 * the gettext message catalogues are parameters: lists of LocaleInfo values.
 */
module Localization {
  import opened Wrappers
  import opened Strings

  /** The fields of a babel Locale that the installer reads. */
  datatype LocaleInfo = LocaleInfo(language: string, territory: Option<string>,
                                   script: Option<string>, variant: Option<string>)

  function OptPart(sep: char, o: Option<string>): string {
    if o.Some? then [sep] + o.value else ""
  }

  /** language[_territory][@script][#variant], before any encoding suffix. */
  function LocaleCode(l: LocaleInfo): string {
    AppendParts(l.language, [('_', l.territory), ('@', l.script), ('#', l.variant)])
  }

  /** Appends each present part after its separator, in order. */
  function AppendParts(acc: string, parts: seq<(char, Option<string>)>): string
    decreases |parts|
  {
    if parts == [] then acc else AppendParts(acc + OptPart(parts[0].0, parts[0].1), parts[1..])
  }

  /** The code spelled out: the language, then each present part after its separator. */
  lemma LocaleCodeParts(l: LocaleInfo)
    ensures LocaleCode(l) == l.language + OptPart('_', l.territory) + OptPart('@', l.script) + OptPart('#', l.variant)
  {
    var parts := [('_', l.territory), ('@', l.script), ('#', l.variant)];
    var a1 := l.language + OptPart('_', l.territory);
    var a2 := a1 + OptPart('@', l.script);
    assert parts[1..] == [('@', l.script), ('#', l.variant)];
    assert parts[1..][1..] == [('#', l.variant)];
    assert parts[1..][1..][1..] == [];
    assert AppendParts(l.language, parts) == AppendParts(a1, parts[1..]);
    assert AppendParts(a1, parts[1..]) == AppendParts(a2, parts[1..][1..]);
    assert AppendParts(a2, parts[1..][1..]) == AppendParts(a2 + OptPart('#', l.variant), []);
  }

  /** LocaleInfo.__repr__ (also short_name): the code, with ".UTF-8" added when it has no '.'. */
  function ShortName(l: LocaleInfo): string {
    WithEncoding(LocaleCode(l))
  }

  /** The code up to and including its first '.', and the rest; ".UTF-8" ends a code that has none. */
  function WithEncoding(code: string): string
    decreases |code|
  {
    if code == [] then ".UTF-8"
    else if code[0] == '.' then code
    else [code[0]] + WithEncoding(code[1..])
  }

  /** A code that already names an encoding is kept; any other gets ".UTF-8" appended. */
  lemma {:induction false} WithEncodingAppends(code: string)
    ensures WithEncoding(code) == if '.' in code then code else code + ".UTF-8"
    decreases |code|
  {
    if code != [] && code[0] != '.' {
      WithEncodingAppends(code[1..]);
      assert code == [code[0]] + code[1..];
      assert '.' in code <==> '.' in code[1..];
    }
  }

  /** The short form begins with the language, always names an encoding, and names UTF-8 unless the fields already name one. */
  lemma ShortNameForm(l: LocaleInfo)
    ensures StartsWith(ShortName(l), l.language)
    ensures '.' in ShortName(l)
    ensures '.' !in LocaleCode(l) ==> EndsWith(ShortName(l), ".UTF-8")
  {
    var code := LocaleCode(l);
    LocaleCodeParts(l);
    WithEncodingAppends(code);
    assert code[..|l.language|] == l.language;
    if '.' !in code {
      var r := code + ".UTF-8";
      assert r[..|code|] == code && r[|code|] == '.';
      assert r[|r| - 6..] == ".UTF-8";
    }
  }

  /** LocaleInfo.__eq__: two locales are equal when their short forms are. */
  predicate SameLocale(a: LocaleInfo, b: LocaleInfo) {
    ShortName(a) == ShortName(b)
  }

  /** Equality ignores how a locale is split into fields: a language that already names an encoding compares equal to the bare language. */
  lemma EqualityIgnoresFields()
    ensures var bare := LocaleInfo("en", None, None, None);
            var encoded := LocaleInfo("en.UTF-8", None, None, None);
            bare != encoded && SameLocale(bare, encoded) && ShortName(bare) == "en.UTF-8"
  {
    var bare := LocaleInfo("en", None, None, None);
    var encoded := LocaleInfo("en.UTF-8", None, None, None);
    LocaleCodeParts(bare);
    LocaleCodeParts(encoded);
    assert LocaleCode(bare) == "en" && LocaleCode(encoded) == "en.UTF-8";
    WithEncodingAppends("en");
    WithEncodingAppends("en.UTF-8");
    assert '.' !in "en";
    assert '.' in "en.UTF-8" by { assert "en.UTF-8"[2] == '.'; }
    assert ShortName(bare) == "en.UTF-8";
    assert ShortName(encoded) == "en.UTF-8";
  }

  // ---------------------------------------------------------------------
  // Splitting a string once at a character (str.split(c, 1))

  /** The text before the first `c`, or all of `s` when there is none. */
  function Before(s: string, c: char): (r: string)
    ensures c !in r && |r| <= |s|
  {
    match FindChar(s, c)
    case None => s
    case Some(i) => s[..i]
  }

  /** The text after the first `c`, when there is one. */
  function After(s: string, c: char): (r: Option<string>)
    ensures r.None? <==> c !in s
    ensures r.Some? ==> s == Before(s, c) + [c] + r.value
  {
    match FindChar(s, c)
    case None => None
    case Some(i) => assert s == s[..i] + [c] + s[i + 1..]; Some(s[i + 1..])
  }

  lemma CutAt(a: string, c: char, b: string)
    requires c !in a
    ensures Before(a + [c] + b, c) == a && After(a + [c] + b, c) == Some(b)
  {
    var s := a + [c] + b;
    assert s[..|a|] == a && s[|a|] == c;
    FindCharAt(s, c, |a|);
    assert s[|a| + 1..] == b;
  }

  /** A character missing from a string is missing from both halves of a cut. */
  lemma CutKeeps(s: string, c: char, x: char)
    requires x !in s
    ensures x !in Before(s, c) && (After(s, c).Some? ==> x !in After(s, c).value)
  {
    if After(s, c).Some? {
      var b := Before(s, c);
      var a := After(s, c).value;
      assert forall i :: 0 <= i < |b| ==> b[i] == s[i];
      assert forall i :: 0 <= i < |a| ==> a[i] == s[|b| + 1 + i];
    } else {
      FindCharNone(s, c);
    }
  }

  lemma CutNone(a: string, c: char)
    requires c !in a
    ensures Before(a, c) == a && After(a, c) == None
  {
    FindCharNone(a, c);
  }

  // ---------------------------------------------------------------------
  // expand_langs

  /** The text left after removing the script ("@...") and the encoding ("...."). */
  function LangPart(s: string): string { Before(Before(s, '@'), '.') }

  /** The pieces expand_langs splits its argument into; absent pieces are "". */
  function ScriptOf(s: string): string { After(s, '@').GetOr("") }
  function EncodingOf(s: string): string { After(Before(s, '@'), '.').GetOr("") }
  function BaseOf(s: string): string { Before(LangPart(s), '_') }
  function TerritoryOf(s: string): string { After(LangPart(s), '_').GetOr("") }

  /** The encoding used in the expansion: the given one, or UTF-8 when none (or an empty one) is given. */
  function EncodingOrDefault(s: string): (e: string)
    ensures EncodingOf(s) != "" ==> e == EncodingOf(s)
    ensures EncodingOf(s) == "" ==> e == "UTF-8"
  {
    if EncodingOf(s) == "" then "UTF-8" else EncodingOf(s)
  }

  lemma PiecesCharacters(s: string)
    ensures '@' !in BaseOf(s) && '.' !in BaseOf(s) && '_' !in BaseOf(s)
    ensures '@' !in TerritoryOf(s) && '.' !in TerritoryOf(s)
    ensures '@' !in EncodingOf(s)
  {
    var a := Before(s, '@');
    CutKeeps(a, '.', '@');
    var l := LangPart(s);
    CutKeeps(l, '_', '@');
    CutKeeps(l, '_', '.');
  }

  /** The forms expand_langs adds after the base language. */
  datatype Piece = Bare | Enc | Loc | LocEnc | Script | EncScript | LocScript

  /** Whether expand_langs adds the form: territory forms need a territory, script forms a script. */
  predicate Present(k: Piece, loc: string, script: string) {
    match k
    case Bare => true
    case Enc => true
    case Loc => loc != ""
    case LocEnc => loc != ""
    case Script => script != ""
    case EncScript => script != ""
    case LocScript => loc != "" && script != ""
  }

  /** The name the form adds, written as the source's format strings write it. */
  function Spell(k: Piece, base: string, loc: string, enc: string, script: string): string {
    match k
    case Bare => base
    case Enc => base + "." + enc
    case Loc => base + "_" + loc
    case LocEnc => base + "_" + loc + "." + enc
    case Script => base + "@" + script
    case EncScript => base + "." + enc + "@" + script
    case LocScript => base + "_" + loc + "@" + script
  }

  /** The names expand_langs adds for a non-empty base, in the order it adds them. */
  function SearchForms(base: string, loc: string, enc: string, script: string): set<string> {
    {Spell(Bare, base, loc, enc, script), Spell(Enc, base, loc, enc, script)}
    + (if loc != "" then {Spell(Loc, base, loc, enc, script), Spell(LocEnc, base, loc, enc, script)} else {})
    + (if script != "" then {Spell(Script, base, loc, enc, script), Spell(EncScript, base, loc, enc, script)} else {})
    + (if loc != "" && script != "" then {Spell(LocScript, base, loc, enc, script)} else {})
  }

  /** Every added name is the spelling of a form whose parts are present. */
  lemma SearchFormsSpelled(base: string, loc: string, enc: string, script: string, y: string)
    requires y in SearchForms(base, loc, enc, script)
    ensures exists k :: Present(k, loc, script) && y == Spell(k, base, loc, enc, script)
  {
    if y == Spell(Bare, base, loc, enc, script) {
      assert Present(Bare, loc, script);
    } else if y == Spell(Enc, base, loc, enc, script) {
      assert Present(Enc, loc, script);
    } else if loc != "" && y == Spell(Loc, base, loc, enc, script) {
      assert Present(Loc, loc, script);
    } else if loc != "" && y == Spell(LocEnc, base, loc, enc, script) {
      assert Present(LocEnc, loc, script);
    } else if script != "" && y == Spell(Script, base, loc, enc, script) {
      assert Present(Script, loc, script);
    } else if script != "" && y == Spell(EncScript, base, loc, enc, script) {
      assert Present(EncScript, loc, script);
    } else {
      assert Present(LocScript, loc, script);
    }
  }

  /**
   * expand_langs(astring): the set of names under which translations for
   * `s` may be found (the source returns it as a list in set order).
   */
  function ExpandLangs(s: string): (r: set<string>)
    ensures s in r
    ensures BaseOf(s) == "" ==> r == {s}
    ensures BaseOf(s) != "" ==> BaseOf(s) in r && BaseOf(s) + "." + EncodingOrDefault(s) in r
    ensures BaseOf(s) != "" && TerritoryOf(s) != "" ==> BaseOf(s) + "_" + TerritoryOf(s) in r
    ensures BaseOf(s) != "" && ScriptOf(s) != "" ==> BaseOf(s) + "@" + ScriptOf(s) in r
  {
    var base := BaseOf(s);
    var loc := TerritoryOf(s);
    var enc := EncodingOrDefault(s);
    var script := ScriptOf(s);
    if base == "" then {s}
    else
      assert Spell(Bare, base, loc, enc, script) == base;
      assert Spell(Enc, base, loc, enc, script) == base + "." + enc;
      {s} + SearchForms(base, loc, enc, script)
  }

  /** Every form begins with the base, followed by a separator unless it is the bare base. */
  lemma SpellForm(k: Piece, base: string, loc: string, enc: string, script: string)
    ensures StartsWith(Spell(k, base, loc, enc, script), base)
    ensures k != Bare ==> |Spell(k, base, loc, enc, script)| > |base|
    ensures k == Enc || k == EncScript ==> Spell(k, base, loc, enc, script)[|base|] == '.'
    ensures k == Script ==> Spell(k, base, loc, enc, script)[|base|] == '@'
    ensures k == Bare ==> Spell(k, base, loc, enc, script) == base
  {
    var y := Spell(k, base, loc, enc, script);
    match k
    case Bare =>
    case Enc => assert y[..|base|] == base;
    case Loc => assert y[..|base|] == base;
    case LocEnc => assert y[..|base|] == base;
    case Script => assert y[..|base|] == base;
    case EncScript => assert y[..|base|] == base;
    case LocScript => assert y[..|base|] == base;
  }

  /** Every name in the expansion other than the argument itself begins with the base language. */
  lemma ExpandLangsStartWithBase(s: string, y: string)
    requires y in ExpandLangs(s) && y != s
    ensures StartsWith(y, BaseOf(s))
  {
    SearchFormsSpelled(BaseOf(s), TerritoryOf(s), EncodingOrDefault(s), ScriptOf(s), y);
    var k :| y == Spell(k, BaseOf(s), TerritoryOf(s), EncodingOrDefault(s), ScriptOf(s));
    SpellForm(k, BaseOf(s), TerritoryOf(s), EncodingOrDefault(s), ScriptOf(s));
  }

  /** A form added without a territory has no '_' after the base; one added without a script has no '@'. */
  lemma SpellPresent(k: Piece, base: string, loc: string, enc: string, script: string)
    requires Present(k, loc, script)
    requires '@' !in base && '@' !in loc && '@' !in enc
    ensures loc == "" ==> !StartsWith(Spell(k, base, loc, enc, script), base + "_")
    ensures script == "" ==> '@' !in Spell(k, base, loc, enc, script)
  {
    var y := Spell(k, base, loc, enc, script);
    SpellForm(k, base, loc, enc, script);
    assert StartsWith(y, base + "_") ==> y[|base|] == '_';
    if script == "" {
      assert '@' !in "." + enc && '@' !in "_" + loc;
      assert '@' !in "_" + loc + "." + enc;
    }
  }

  /** Without a territory no expanded name (other than the argument) carries one; without a script none carries '@'. */
  lemma ExpandLangsOnlyPresentParts(s: string, y: string)
    requires y in ExpandLangs(s) && y != s
    ensures TerritoryOf(s) == "" ==> !StartsWith(y, BaseOf(s) + "_")
    ensures ScriptOf(s) == "" ==> '@' !in y
  {
    var base := BaseOf(s);
    var loc := TerritoryOf(s);
    var enc := EncodingOrDefault(s);
    var script := ScriptOf(s);
    SearchFormsSpelled(base, loc, enc, script, y);
    var k :| Present(k, loc, script) && y == Spell(k, base, loc, enc, script);
    PiecesCharacters(s);
    assert '@' !in enc by {
      assert '@' !in "UTF-8";
    }
    SpellPresent(k, base, loc, enc, script);
  }

  /** How expand_langs splits a name with every part present. */
  lemma FullParts(b: string, l: string, e: string, sc: string)
    requires '@' !in b + l + e && '.' !in b + l && '_' !in b
    ensures var s := b + "_" + l + "." + e + "@" + sc;
            BaseOf(s) == b && TerritoryOf(s) == l && ScriptOf(s) == sc && EncodingOf(s) == e
  {
    var s := b + "_" + l + "." + e + "@" + sc;
    var a := b + "_" + l + "." + e;
    assert '@' !in a by { assert forall x :: x in a ==> x in b + l + e || x == '_' || x == '.'; }
    assert s == a + ['@'] + sc;
    CutAt(a, '@', sc);
    var lp := b + "_" + l;
    assert '.' !in lp by { assert forall x :: x in lp ==> x in b + l || x == '_'; }
    assert a == lp + ['.'] + e;
    CutAt(lp, '.', e);
    assert lp == b + ['_'] + l;
    CutAt(b, '_', l);
  }

  /**
   * The shape of the source's documented example ("fr_FR.UTF-8@euro"): a
   * name with every part present expands to eight names, itself included.
   */
  lemma ExpandLangsFull(b: string, l: string, e: string, sc: string)
    requires b != "" && l != "" && e != "" && sc != ""
    requires '@' !in b + l + e && '.' !in b + l && '_' !in b
    ensures ExpandLangs(b + "_" + l + "." + e + "@" + sc) ==
      {b + "_" + l + "." + e + "@" + sc, b, b + "." + e, b + "_" + l, b + "_" + l + "." + e,
       b + "@" + sc, b + "." + e + "@" + sc, b + "_" + l + "@" + sc}
  {
    var s := b + "_" + l + "." + e + "@" + sc;
    FullParts(b, l, e, sc);
    assert EncodingOrDefault(s) == e;
    assert ExpandLangs(s) == {s} + SearchForms(b, l, e, sc);
    SearchFormsFull(b, l, e, sc);
  }

  /** With a territory and a script, all seven forms are added. */
  lemma SearchFormsFull(b: string, l: string, e: string, sc: string)
    requires l != "" && sc != ""
    ensures SearchForms(b, l, e, sc) ==
      {b, b + "." + e, b + "_" + l, b + "_" + l + "." + e,
       b + "@" + sc, b + "." + e + "@" + sc, b + "_" + l + "@" + sc}
  {
  }

  /** A name without any separator expands to itself and its UTF-8 form only. */
  lemma ExpandLangsPlain(s: string)
    requires s != "" && '@' !in s && '.' !in s && '_' !in s
    ensures ExpandLangs(s) == {s, s + "." + "UTF-8"}
  {
    CutNone(s, '@');
    CutNone(s, '.');
    CutNone(s, '_');
    assert SearchForms(s, "", "UTF-8", "") == {s, s + "." + "UTF-8"};
  }

  // ---------------------------------------------------------------------
  // partition

  /** `a` is `s` with some elements deleted, in the same order. */
  predicate IsSubsequence<T(==)>(a: seq<T>, s: seq<T>)
    decreases |s|
  {
    a == [] || (s != [] && ((a[0] == s[0] && IsSubsequence(a[1..], s[1..])) || IsSubsequence(a, s[1..])))
  }

  /**
   * partition(seq, func): the items for which `func` holds and those for
   * which it does not, each in the original order.  Its one caller,
   * get_all_locales, passes the keys of a locale dictionary and a test of
   * membership in the preferences; every key is the short name of its
   * locale, so here the locales themselves are split by whether their short
   * name is preferred.  The source yields both parts lazily; these are the
   * lists the two generators produce when run to the end.
   */
  function Partition(ls: seq<LocaleInfo>, preferences: seq<string>): (seq<LocaleInfo>, seq<LocaleInfo>)
  {
    if ls == [] then ([], [])
    else
      var rest := Partition(ls[1..], preferences);
      if ShortName(ls[0]) in preferences then ([ls[0]] + rest.0, rest.1) else (rest.0, [ls[0]] + rest.1)
  }

  /** The two parts together hold the items of the input, with their multiplicities. */
  lemma {:induction false} PartitionKeeps(ls: seq<LocaleInfo>, preferences: seq<string>)
    ensures var r := Partition(ls, preferences);
            multiset(r.0) + multiset(r.1) == multiset(ls)
    decreases |ls|
  {
    if ls != [] {
      var rest := Partition(ls[1..], preferences);
      PartitionKeeps(ls[1..], preferences);
      assert ls == [ls[0]] + ls[1..];
      assert multiset(ls) == multiset{ls[0]} + multiset(ls[1..]);
      if ShortName(ls[0]) in preferences {
        assert multiset([ls[0]] + rest.0) == multiset{ls[0]} + multiset(rest.0);
      } else {
        assert multiset([ls[0]] + rest.1) == multiset{ls[0]} + multiset(rest.1);
      }
    }
  }

  /** The first part holds only items the test accepts, the second only items it rejects. */
  lemma {:induction false} PartitionSides(ls: seq<LocaleInfo>, preferences: seq<string>)
    ensures forall i :: 0 <= i < |Partition(ls, preferences).0| ==> ShortName(Partition(ls, preferences).0[i]) in preferences
    ensures forall i :: 0 <= i < |Partition(ls, preferences).1| ==> ShortName(Partition(ls, preferences).1[i]) !in preferences
    decreases |ls|
  {
    if ls != [] {
      var rest := Partition(ls[1..], preferences);
      PartitionSides(ls[1..], preferences);
      if ShortName(ls[0]) in preferences {
        var a := [ls[0]] + rest.0;
        assert Partition(ls, preferences) == (a, rest.1);
        forall i | 0 <= i < |a| ensures ShortName(a[i]) in preferences {
          if i > 0 {
            assert a[i] == rest.0[i - 1];
          }
        }
      } else {
        var b := [ls[0]] + rest.1;
        assert Partition(ls, preferences) == (rest.0, b);
        forall i | 0 <= i < |b| ensures ShortName(b[i]) !in preferences {
          if i > 0 {
            assert b[i] == rest.1[i - 1];
          }
        }
      }
    }
  }

  /** Each part keeps the order the items had in the input. */
  lemma {:induction false} PartitionOrder(ls: seq<LocaleInfo>, preferences: seq<string>)
    ensures var r := Partition(ls, preferences);
            IsSubsequence(r.0, ls) && IsSubsequence(r.1, ls)
    decreases |ls|
  {
    if ls != [] {
      var rest := Partition(ls[1..], preferences);
      PartitionOrder(ls[1..], preferences);
      if ShortName(ls[0]) in preferences {
        assert ([ls[0]] + rest.0)[1..] == rest.0;
      } else {
        assert ([ls[0]] + rest.1)[1..] == rest.1;
      }
    }
  }

  // ---------------------------------------------------------------------
  // PreferredLocale

  /** No two locales of the list are equal: the list has the shape of a dictionary keyed by short name. */
  predicate DistinctLocales(s: seq<LocaleInfo>) {
    forall i, j :: 0 <= i < j < |s| ==> !SameLocale(s[i], s[j])
  }

  /**
   * A PreferredLocale: its dictionary from short name to locale, held as the
   * locales in the dictionary's iteration order (the keys are their short
   * names).
   */
  datatype PreferredLocale = PreferredLocale(locales: seq<LocaleInfo>)

  /** The two selections PreferredLocale makes from the known locales. */
  datatype Criterion = ByLanguage(language: string) | ByTerritory(territory: Option<string>)

  predicate Matches(l: LocaleInfo, c: Criterion) {
    match c
    case ByLanguage(language) => ShortName(l) == language || l.language == language
    case ByTerritory(territory) => l.territory == territory
  }

  /** The locales meeting the criterion, in their original order. */
  function Filter(ls: seq<LocaleInfo>, c: Criterion): (r: seq<LocaleInfo>)
    ensures forall x :: x in r <==> x in ls && Matches(x, c)
    ensures |r| <= |ls|
  {
    if ls == [] then []
    else
      assert ls == [ls[0]] + ls[1..];
      var rest := Filter(ls[1..], c);
      if Matches(ls[0], c) then [ls[0]] + rest else rest
  }

  /** Filtering keeps distinct locales distinct: a selection is again a dictionary keyed by short name. */
  lemma {:induction false} FilterDistinct(ls: seq<LocaleInfo>, c: Criterion)
    requires DistinctLocales(ls)
    ensures DistinctLocales(Filter(ls, c))
    decreases |ls|
  {
    if ls != [] {
      var tail := ls[1..];
      assert DistinctLocales(tail) by {
        forall i, j | 0 <= i < j < |tail| ensures !SameLocale(tail[i], tail[j]) {
          assert tail[i] == ls[i + 1] && tail[j] == ls[j + 1];
        }
      }
      var rest := Filter(tail, c);
      FilterDistinct(tail, c);
      if Matches(ls[0], c) {
        var r := [ls[0]] + rest;
        forall i, j | 0 <= i < j < |r| ensures !SameLocale(r[i], r[j]) {
          assert r[j] == rest[j - 1];
          if i == 0 {
            assert rest[j - 1] in tail;
            var k :| 0 <= k < |tail| && tail[k] == rest[j - 1];
            assert ls[k + 1] == r[j];
          } else {
            assert r[i] == rest[i - 1];
          }
        }
      }
    }
  }

  /**
   * PreferredLocale.from_language: the known locales filed under `language`,
   * which are those whose short name or whose language it is.
   */
  function FromLanguage(all: seq<LocaleInfo>, language: string): (p: PreferredLocale)
    ensures forall l :: l in p.locales <==> l in all && (ShortName(l) == language || l.language == language)
  {
    PreferredLocale(Filter(all, ByLanguage(language)))
  }

  /** PreferredLocale.from_territory: the known locales of a territory (None files the locales without one). */
  function FromTerritory(all: seq<LocaleInfo>, territory: Option<string>): (p: PreferredLocale)
    ensures forall l :: l in p.locales <==> l in all && l.territory == territory
  {
    PreferredLocale(Filter(all, ByTerritory(territory)))
  }

  /**
   * get_all_locales(preferences): the locales of the dictionary, those whose
   * name is among the preferences first, each group in dictionary order.
   * The source first drops the preferences that are not keys of the
   * dictionary; that cannot change whether a key is among them.
   */
  function GetAllLocales(p: PreferredLocale, preferences: seq<string>): seq<LocaleInfo>
  {
    var parts := Partition(p.locales, preferences);
    parts.0 + parts.1
  }

  /** No locale whose short name is outside the preferences comes before one inside them. */
  predicate PreferredFirst(r: seq<LocaleInfo>, preferences: seq<string>) {
    forall i, j :: 0 <= i < j < |r| && ShortName(r[j]) in preferences ==> ShortName(r[i]) in preferences
  }

  /**
   * get_all_locales returns a permutation of the dictionary's locales in
   * which no locale outside the preferences comes before one inside them.
   */
  lemma AllLocalesOrder(p: PreferredLocale, preferences: seq<string>)
    ensures multiset(GetAllLocales(p, preferences)) == multiset(p.locales)
    ensures PreferredFirst(GetAllLocales(p, preferences), preferences)
  {
    var parts := Partition(p.locales, preferences);
    PartitionKeeps(p.locales, preferences);
    PartitionSides(p.locales, preferences);
    var r := parts.0 + parts.1;
    assert forall m :: |parts.0| <= m < |r| ==> r[m] == parts.1[m - |parts.0|] && ShortName(r[m]) !in preferences;
    assert forall m :: 0 <= m < |parts.0| ==> r[m] == parts.0[m] && ShortName(r[m]) in preferences;
  }

  /** get_preferred_locale(preferences): the first of get_all_locales, or None when there is none. */
  function GetPreferredLocale(p: PreferredLocale, preferences: seq<string>): (r: Option<LocaleInfo>)
    ensures r.None? <==> p.locales == []
    ensures r.Some? ==> r.value in p.locales
    ensures r.Some? && (exists l :: l in p.locales && ShortName(l) in preferences) ==> ShortName(r.value) in preferences
  {
    var all := GetAllLocales(p, preferences);
    AllLocalesOrder(p, preferences);
    PreferredComesFirst(p, preferences);
    assert |all| == |p.locales| by { assert |multiset(all)| == |multiset(p.locales)|; }
    if all == [] then None
    else
      assert all[0] in multiset(all);
      Some(all[0])
  }

  lemma PreferredComesFirst(p: PreferredLocale, preferences: seq<string>)
    ensures (exists l :: l in p.locales && ShortName(l) in preferences) ==>
              GetAllLocales(p, preferences) != [] && ShortName(GetAllLocales(p, preferences)[0]) in preferences
  {
    if exists l :: l in p.locales && ShortName(l) in preferences {
      var all := GetAllLocales(p, preferences);
      AllLocalesOrder(p, preferences);
      var l :| l in p.locales && ShortName(l) in preferences;
      assert l in multiset(all);
      var j :| 0 <= j < |all| && all[j] == l;
      if j > 0 {
        assert ShortName(all[j]) in preferences;
      }
    }
  }

  // ---------------------------------------------------------------------
  // parse_langcode

  /** The groups of the pattern language(_territory)?(.codeset)?(@modifier)? */
  datatype LangParts = LangParts(language: string, territory: Option<string>,
                                 codeset: Option<string>, modifier: Option<string>)

  datatype CharClass = Letters | WordChars

  /** [A-Za-z] and [-\w] (ASCII word characters and '-'). */
  predicate InClass(c: char, k: CharClass) {
    match k
    case Letters => IsAlpha(c)
    case WordChars => IsAlnum(c) || c == '_' || c == '-'
  }

  predicate AllIn(s: string, k: CharClass) {
    forall i :: 0 <= i < |s| ==> InClass(s[i], k)
  }

  /** The length of the longest prefix of `s` made of characters of the class (a greedy `+` or `*`). */
  function Run(s: string, k: CharClass): (n: nat)
    ensures n <= |s| && AllIn(s[..n], k)
    ensures n < |s| ==> !InClass(s[n], k)
  {
    if s == [] || !InClass(s[0], k) then 0
    else
      var n := 1 + Run(s[1..], k);
      assert s[..n] == [s[0]] + s[1..][..n - 1];
      n
  }

  lemma {:induction false} RunOf(a: string, b: string, k: CharClass)
    requires AllIn(a, k) && (b == [] || !InClass(b[0], k))
    ensures Run(a + b, k) == |a|
    decreases |a|
  {
    if a != [] {
      assert (a + b)[1..] == a[1..] + b;
      RunOf(a[1..], b, k);
    } else {
      assert a + b == b;
    }
  }

  /** An optional group: a separator followed by at least one character of the class. */
  function Group(s: string, sep: char, k: CharClass): (r: (Option<string>, string))
    ensures r.0.Some? ==> |r.0.value| > 0 && AllIn(r.0.value, k) && s == [sep] + r.0.value + r.1
    ensures r.0.None? ==> r.1 == s
  {
    if s != [] && s[0] == sep && Run(s[1..], k) > 0 then
      var n := Run(s[1..], k);
      assert s == [sep] + s[1..][..n] + s[1..][n..];
      (Some(s[1..][..n]), s[1..][n..])
    else (None, s)
  }

  /**
   * Language.parse_langcode: match the pattern at the start of the code.  A
   * code that does not begin with a letter does not match, and the source
   * then fails calling groupdict() on None; that is the None result here.
   */
  /** groupdict() called on the None of a failed match. */
  datatype ParseFailure = AttributeError

  function ParseLangcode(s: string): (r: Option<LangParts>)
    ensures r.None? <==> (s == [] || !IsAlpha(s[0]))
    ensures r.Some? ==> WellFormed(r.value)
  {
    var n := Run(s, Letters);
    if n == 0 then None
    else
      var t := Group(s[n..], '_', Letters);
      var c := Group(t.1, '.', WordChars);
      var m := Group(c.1, '@', WordChars);
      Some(LangParts(s[..n], t.0, c.0, m.0))
  }

  /** What parse_langcode matched is a prefix of the code: the groups spell the start of it. */
  lemma ParsePrefix(s: string)
    requires ParseLangcode(s).Some?
    ensures StartsWith(s, FormatLangcode(ParseLangcode(s).value))
  {
    var n := Run(s, Letters);
    assert s == s[..n] + s[n..];
    var t := Group(s[n..], '_', Letters);
    GroupSplit(s[n..], '_', Letters);
    var c := Group(t.1, '.', WordChars);
    GroupSplit(t.1, '.', WordChars);
    var m := Group(c.1, '@', WordChars);
    GroupSplit(c.1, '@', WordChars);
    var p := LangParts(s[..n], t.0, c.0, m.0);
    var L, T, C, M := s[..n], OptPart('_', t.0), OptPart('.', c.0), OptPart('@', m.0);
    calc {
      s;
      L + (T + t.1);
      L + (T + (C + c.1));
      L + (T + (C + (M + m.1)));
      { Regroup(L, T, C, M, m.1); }
      L + T + C + M + m.1;
      FormatLangcode(p) + m.1;
    }
    PrefixStartsWith(FormatLangcode(p), m.1);
  }

  lemma Regroup(a: string, b: string, c: string, d: string, e: string)
    ensures a + (b + (c + (d + e))) == a + b + c + d + e
  {
    assert c + (d + e) == c + d + e;
    assert b + (c + d + e) == b + c + d + e;
  }

  /** A group splits its input into the separator and group (when it matched) and the rest. */
  lemma GroupSplit(s: string, sep: char, k: CharClass)
    ensures s == OptPart(sep, Group(s, sep, k).0) + Group(s, sep, k).1
  {
    var g := Group(s, sep, k);
    if g.0.None? {
      assert OptPart(sep, g.0) + g.1 == g.1;
    }
  }

  /** The code a set of groups spells. */
  function FormatLangcode(p: LangParts): string {
    p.language + OptPart('_', p.territory) + OptPart('.', p.codeset) + OptPart('@', p.modifier)
  }

  /** Groups a match can produce: a non-empty language of letters and non-empty groups of their classes. */
  predicate WellFormed(p: LangParts) {
    |p.language| > 0 && AllIn(p.language, Letters)
    && (p.territory.Some? ==> |p.territory.value| > 0 && AllIn(p.territory.value, Letters))
    && (p.codeset.Some? ==> |p.codeset.value| > 0 && AllIn(p.codeset.value, WordChars))
    && (p.modifier.Some? ==> |p.modifier.value| > 0 && AllIn(p.modifier.value, WordChars))
  }

  lemma GroupOf(sep: char, o: Option<string>, rest: string, k: CharClass)
    requires o.Some? ==> |o.value| > 0 && AllIn(o.value, k)
    requires rest == [] || (!InClass(rest[0], k) && rest[0] != sep)
    ensures Group(OptPart(sep, o) + rest, sep, k) == (o, rest)
  {
    if o.Some? {
      var s := OptPart(sep, o) + rest;
      assert s[1..] == o.value + rest;
      RunOf(o.value, rest, k);
      assert s[1..][..|o.value|] == o.value;
      assert s[1..][|o.value|..] == rest;
    } else {
      assert OptPart(sep, o) + rest == rest;
    }
  }

  /** The match of a run of letters followed by text whose groups are known. */
  lemma ParseOf(lang: string, t: string, c: string, m: string, p: LangParts)
    requires |lang| > 0 && AllIn(lang, Letters) && (t == [] || !InClass(t[0], Letters))
    requires p.language == lang
    requires Group(t, '_', Letters) == (p.territory, c)
    requires Group(c, '.', WordChars) == (p.codeset, m)
    requires Group(m, '@', WordChars).0 == p.modifier
    ensures ParseLangcode(lang + t) == Some(p)
  {
    var s := lang + t;
    RunOf(lang, t, Letters);
    assert s[..|lang|] == lang && s[|lang|..] == t;
  }

  /** Parsing the code spelled by well-formed groups gives the same groups back. */
  lemma {:induction false} ParseFormat(p: LangParts)
    requires WellFormed(p)
    ensures ParseLangcode(FormatLangcode(p)) == Some(p)
  {
    var m := OptPart('@', p.modifier);
    var c := OptPart('.', p.codeset) + m;
    var t := OptPart('_', p.territory) + c;
    assert Group(m, '@', WordChars) == (p.modifier, []) by {
      GroupOf('@', p.modifier, [], WordChars);
      assert m + [] == m;
    }
    GroupOf('.', p.codeset, m, WordChars);
    GroupOf('_', p.territory, c, Letters);
    ParseOf(p.language, t, c, m, p);
    FormatNests(p);
  }

  /** The code of the groups, associated to the right as parsing consumes it. */
  lemma FormatNests(p: LangParts)
    ensures FormatLangcode(p) == p.language + (OptPart('_', p.territory) + (OptPart('.', p.codeset) + OptPart('@', p.modifier)))
  {
  }

  // ---------------------------------------------------------------------
  // Language (localization.py)

  /** The exceptions select_translation raises. */
  datatype LanguageError = KeyError | IndexError

  /**
   * The translation and locale preferences of the installer.  The babel locale
   * list and the available translations are given to the constructor.
   */
  class Language {
    var translations: map<string, LocaleInfo>
    var allLocales: seq<LocaleInfo>
    var preferredTranslation: LocaleInfo
    var preferredLocales: seq<LocaleInfo>
    var preferredLocale: LocaleInfo
    var allPreferences: map<string, seq<string>>
    var preferences: seq<string>
    var territory: Option<string>
    var installLang: string
    var systemLang: string

    /** The territory's locales in preference order (_get_preferred_translation_and_locales). */
    function TerritoryLocales(): seq<LocaleInfo>
      reads this`allLocales, this`territory, this`preferences
    {
      GetAllLocales(FromTerritory(allLocales, territory), preferences)
    }

    /** The locales filed under a translation's short name, in preference order (select_translation). */
    function LanguageLocales(t: LocaleInfo): seq<LocaleInfo>
      reads this`allLocales, this`preferences
    {
      GetAllLocales(FromLanguage(allLocales, ShortName(t)), preferences)
    }

    /** all_preferences.get(language, []). */
    function PreferencesOf(language: string): seq<string>
      reads this`allPreferences
    {
      if language in allPreferences then allPreferences[language] else []
    }

    /**
     * Language(preferences, territory): start from en.UTF-8 and, when a
     * territory is given (and is not empty), prefer its locales and their
     * translation.  The translation and locale dictionaries must hold
     * en.UTF-8 (the source raises KeyError otherwise).
     */
    constructor (available: map<string, LocaleInfo>, locales: seq<LocaleInfo>,
                 prefs: map<string, seq<string>>, terr: Option<string>)
      requires "en.UTF-8" in available && "en.UTF-8" in ByName(locales)
      ensures translations == available && allLocales == locales
      ensures allPreferences == prefs && territory == terr
      ensures preferences == (if terr.Some? && terr.value in prefs then prefs[terr.value] else [])
      ensures preferredLocale == ByName(locales)["en.UTF-8"]
      ensures installLang == "" && systemLang == ""
      ensures terr.None? || terr.value == "" ==>
                preferredTranslation == available["en.UTF-8"] && preferredLocales == [preferredLocale]
      ensures terr.Some? && terr.value != "" ==>
                preferredLocales == TerritoryLocales()
                && preferredTranslation == TranslationFor(preferredLocales, available, available["en.UTF-8"])
    {
      translations := available;
      allLocales := locales;
      var byName := ByName(locales);
      var en := byName["en.UTF-8"];
      preferredLocale := en;
      allPreferences := prefs;
      var preferred := if terr.Some? && terr.value in prefs then prefs[terr.value] else [];
      preferences := preferred;
      territory := terr;
      installLang := "";
      systemLang := "";
      // with a territory, what PreferTerritory computes from these fields
      if terr.Some? && terr.value != "" {
        var all := GetAllLocales(FromTerritory(locales, terr), preferred);
        var t := FindTranslation(all, available, available["en.UTF-8"]);
        preferredTranslation := t;
        preferredLocales := all;
      } else {
        preferredTranslation := available["en.UTF-8"];
        preferredLocales := [en];
      }
    }

    /**
     * _get_preferred_translation_and_locales: the territory's locales become
     * the preferred ones; the translation is that of the first such locale
     * whose short name has one, or else of the first whose language has one.
     */
    method PreferTerritory()
      modifies this`preferredTranslation, this`preferredLocales
      ensures preferredLocales == TerritoryLocales()
      ensures preferredTranslation == TranslationFor(preferredLocales, translations, old(preferredTranslation))
    {
      var all := TerritoryLocales();
      preferredTranslation := FindTranslation(all, translations, preferredTranslation);
      preferredLocales := all;
    }

    /**
     * select_translation(translation): add the translation's language
     * preferences and prefer its locales.  The first of them that is already
     * a preferred locale becomes the preferred locale; failing that, the
     * first of them; failing that, the first preferred locale.  The
     * preferred locale is then moved (not copied) to the front of the
     * preferred locales, and it supplies the territory when none is set.
     * Err is the KeyError of an unknown translation, or the IndexError of
     * having no locale at all (raised after the preferences were extended).
     */
    method SelectTranslation(translation: string) returns (r: Result<(), LanguageError>)
      modifies this`preferences, this`preferredLocale, this`preferredLocales, this`territory
      ensures r == Err(KeyError) <==> translation !in translations
      ensures translation !in translations ==> preferences == old(preferences)
      ensures translation in translations ==>
                preferences == old(preferences) + PreferencesOf(translations[translation].language)
      ensures r == Err(IndexError) <==>
                translation in translations && LanguageLocales(translations[translation]) == [] && old(preferredLocales) == []
      ensures r.Err? ==> unchanged(this`preferredLocale, this`preferredLocales, this`territory)
      ensures r.Ok? ==>
                ChooseLocale(LanguageLocales(translations[translation]), old(preferredLocales)) == Some(preferredLocale)
                && preferredLocales == MoveToFront(old(preferredLocales), preferredLocale)
                && territory == (if old(territory).Some? && old(territory).value != "" then old(territory)
                                 else preferredLocale.territory)
    {
      if translation !in translations {
        return Err(KeyError);
      }
      var t := translations[translation];
      preferences := preferences + PreferencesOf(t.language);
      var picked := SelectLocale(LanguageLocales(t), preferredLocales, territory);
      if picked.None? {
        return Err(IndexError);
      }
      preferredLocale, preferredLocales, territory := picked.value.0, picked.value.1, picked.value.2;
      r := Ok(());
    }

    /** set_install_lang: records the code (the environment and C library locale are not modelled). */
    method SetInstallLang(langcode: string)
      modifies this`installLang
      ensures installLang == langcode
    {
      installLang := langcode;
    }

    /** set_system_lang. */
    method SetSystemLang(langcode: string)
      modifies this`systemLang
      ensures systemLang == langcode
    {
      systemLang := langcode;
    }

    /**
     * install_lang_as_dict as written: the property's body has no return
     * statement, so it yields None (Ok(None) here) once the parse is done;
     * a code the pattern does not match still raises AttributeError there.
     */
    function InstallLangAsDictAsWritten(): (r: Result<Option<LangParts>, ParseFailure>)
      reads this
      ensures r.Err? <==> ParseLangcode(installLang).None?
      ensures r.Ok? ==> r.value.None?
    {
      if ParseLangcode(installLang).None? then Err(AttributeError) else Ok(None)
    }

    /** install_lang_as_dict as intended: the groups of the install language (None for parse_langcode's AttributeError). */
    function InstallLangAsDict(): (r: Option<LangParts>)
      reads this
      ensures r.Some? ==> WellFormed(r.value)
      ensures r.None? <==> installLang == [] || !IsAlpha(installLang[0])
    {
      ParseLangcode(installLang)
    }

    /** system_lang_as_dict as written: no return statement, so None after a parse that matched; AttributeError when it did not. */
    function SystemLangAsDictAsWritten(): (r: Result<Option<LangParts>, ParseFailure>)
      reads this
      ensures r.Err? <==> ParseLangcode(systemLang).None?
      ensures r.Ok? ==> r.value.None?
    {
      if ParseLangcode(systemLang).None? then Err(AttributeError) else Ok(None)
    }

    /** system_lang_as_dict as intended (None for parse_langcode's AttributeError). */
    function SystemLangAsDict(): (r: Option<LangParts>)
      reads this
      ensures r.Some? ==> WellFormed(r.value)
      ensures r.None? <==> systemLang == [] || !IsAlpha(systemLang[0])
    {
      ParseLangcode(systemLang)
    }
  }

  /** For a parsable install language, the property as written loses the groups the intended one returns. */
  lemma InstallLangAsDictLosesGroups(l: Language)
    requires l.installLang == "en_US.UTF-8"
    ensures l.InstallLangAsDictAsWritten() == Ok(None)
    ensures l.InstallLangAsDict() == Some(LangParts("en", Some("US"), Some("UTF-8"), None))
  {
    var p := LangParts("en", Some("US"), Some("UTF-8"), None);
    assert AllIn("en", Letters) && AllIn("US", Letters);
    assert AllIn("UTF-8", WordChars);
    assert FormatLangcode(p) == "en_US.UTF-8";
    ParseFormat(p);
  }

  /** {repr(locale): locale for locale in ls}: later locales replace earlier ones of the same name. */
  function ByName(ls: seq<LocaleInfo>): (m: map<string, LocaleInfo>)
    ensures forall k :: k in m ==> ShortName(m[k]) == k && m[k] in ls
    ensures forall l :: l in ls ==> ShortName(l) in m
  {
    if ls == [] then map[]
    else
      var last := ls[|ls| - 1];
      var m := ByName(ls[..|ls| - 1]);
      assert ls == ls[..|ls| - 1] + [last];
      m[ShortName(last) := last]
  }

  /** The index of the first locale whose language has a translation. */
  function FirstByLanguage(all: seq<LocaleInfo>, translations: map<string, LocaleInfo>): (r: Option<nat>)
    ensures r.Some? ==> r.value < |all| && all[r.value].language in translations
                        && forall j :: 0 <= j < r.value ==> all[j].language !in translations
    ensures r.None? ==> forall j :: 0 <= j < |all| ==> all[j].language !in translations
  {
    if all == [] then None
    else if all[0].language in translations then Some(0)
    else match FirstByLanguage(all[1..], translations)
      case None => None
      case Some(i) => Some(i + 1)
  }

  /** The index of the first locale whose short name has a translation. */
  function FirstByName(all: seq<LocaleInfo>, translations: map<string, LocaleInfo>): (r: Option<nat>)
    ensures r.Some? ==> r.value < |all| && ShortName(all[r.value]) in translations
                        && forall j :: 0 <= j < r.value ==> ShortName(all[j]) !in translations
    ensures r.None? ==> forall j :: 0 <= j < |all| ==> ShortName(all[j]) !in translations
  {
    if all == [] then None
    else if ShortName(all[0]) in translations then Some(0)
    else match FirstByName(all[1..], translations)
      case None => None
      case Some(i) => Some(i + 1)
  }

  /** The translation a territory's locales select: by short name first, then by language, else the current one. */
  function TranslationFor(all: seq<LocaleInfo>, translations: map<string, LocaleInfo>, current: LocaleInfo): LocaleInfo {
    match FirstByName(all, translations)
    case Some(i) => translations[ShortName(all[i])]
    case None =>
      match FirstByLanguage(all, translations)
      case Some(i) => translations[all[i].language]
      case None => current
  }

  /**
   * The two passes of _get_preferred_translation_and_locales: the first
   * locale whose language has a translation, then (overriding it) the first
   * whose short name has one.
   */
  method FindTranslation(all: seq<LocaleInfo>, translations: map<string, LocaleInfo>, current: LocaleInfo)
    returns (t: LocaleInfo)
    ensures t == TranslationFor(all, translations, current)
  {
    t := current;
    var i := 0;
    while i < |all|
      invariant 0 <= i <= |all|
      invariant forall j :: 0 <= j < i ==> all[j].language !in translations
    {
      if all[i].language in translations {
        t := translations[all[i].language];
        assert FirstByLanguage(all, translations) == Some(i);
        break;
      }
      i := i + 1;
    }
    var afterLanguage := t;
    i := 0;
    while i < |all|
      invariant 0 <= i <= |all|
      invariant t == afterLanguage
      invariant forall j :: 0 <= j < i ==> ShortName(all[j]) !in translations
    {
      if ShortName(all[i]) in translations {
        t := translations[ShortName(all[i])];
        assert FirstByName(all, translations) == Some(i);
        break;
      }
      i := i + 1;
    }
  }

  /** `x in s` under LocaleInfo's equality (the same short name). */
  predicate HasLocale(s: seq<LocaleInfo>, x: LocaleInfo) {
    exists i :: 0 <= i < |s| && SameLocale(s[i], x)
  }

  /** The index of the first locale of `all` that is in `preferred`. */
  function FirstPreferred(all: seq<LocaleInfo>, preferred: seq<LocaleInfo>): (r: Option<nat>)
    ensures r.Some? ==> r.value < |all| && HasLocale(preferred, all[r.value])
                        && forall j :: 0 <= j < r.value ==> !HasLocale(preferred, all[j])
    ensures r.None? ==> forall j :: 0 <= j < |all| ==> !HasLocale(preferred, all[j])
  {
    if all == [] then None
    else if HasLocale(preferred, all[0]) then Some(0)
    else match FirstPreferred(all[1..], preferred)
      case None => None
      case Some(i) => Some(i + 1)
  }

  /**
   * The locale select_translation settles on: the first of `all` already
   * preferred, else the first of `all`, else the first preferred one; None
   * when both lists are empty.
   */
  function ChooseLocale(all: seq<LocaleInfo>, preferred: seq<LocaleInfo>): (r: Option<LocaleInfo>)
    ensures r.None? <==> all == [] && preferred == []
    ensures (exists j :: 0 <= j < |all| && HasLocale(preferred, all[j])) ==>
              r.Some? && r.value in all && HasLocale(preferred, r.value)
    ensures all != [] ==> r.Some? && r.value in all
    ensures all == [] && preferred != [] ==> r == Some(preferred[0])
  {
    match FirstPreferred(all, preferred)
    case Some(i) => Some(all[i])
    case None =>
      if all != [] then Some(all[0])
      else if preferred != [] then Some(preferred[0])
      else None
  }

  /** The loop of select_translation and its fallbacks, computing ChooseLocale. */
  /**
   * The locale select_translation prefers among `all`, the preferred locales
   * with it moved to the front, and the territory afterwards; None for the
   * IndexError of having no locale at all.
   */
  method SelectLocale(all: seq<LocaleInfo>, preferred: seq<LocaleInfo>, territory: Option<string>)
    returns (r: Option<(LocaleInfo, seq<LocaleInfo>, Option<string>)>)
    ensures r.None? <==> all == [] && preferred == []
    ensures r.Some? ==>
              ChooseLocale(all, preferred) == Some(r.value.0)
              && r.value.1 == MoveToFront(preferred, r.value.0)
              && r.value.2 == (if territory.Some? && territory.value != "" then territory else r.value.0.territory)
  {
    var choice := PickLocale(all, preferred);
    if choice.None? {
      return None;
    }
    var chosen := choice.value;
    var newTerritory := if territory.None? || territory.value == "" then chosen.territory else territory;
    r := Some((chosen, MoveToFront(preferred, chosen), newTerritory));
  }

  method PickLocale(all: seq<LocaleInfo>, preferred: seq<LocaleInfo>) returns (r: Option<LocaleInfo>)
    ensures r == ChooseLocale(all, preferred)
  {
    var i := 0;
    while i < |all|
      invariant 0 <= i <= |all|
      invariant forall j :: 0 <= j < i ==> !HasLocale(preferred, all[j])
    {
      if HasLocale(preferred, all[i]) {
        assert FirstPreferred(all, preferred) == Some(i);
        return Some(all[i]);
      }
      i := i + 1;
    }
    if all != [] {
      r := Some(all[0]);
    } else if preferred != [] {
      r := Some(preferred[0]);
    } else {
      r := None;
    }
  }

  /** The index of the first locale equal to `x`. */
  function FirstMatch(s: seq<LocaleInfo>, x: LocaleInfo): (r: Option<nat>)
    ensures r.Some? ==> r.value < |s| && SameLocale(s[r.value], x)
                        && forall j :: 0 <= j < r.value ==> !SameLocale(s[j], x)
    ensures r.None? ==> forall j :: 0 <= j < |s| ==> !SameLocale(s[j], x)
  {
    if s == [] then None
    else if SameLocale(s[0], x) then Some(0)
    else match FirstMatch(s[1..], x)
      case None => None
      case Some(i) => Some(i + 1)
  }

  /** list.remove(x) when x is in the list: drop the first element equal to `x`. */
  function RemoveFirst(s: seq<LocaleInfo>, x: LocaleInfo): seq<LocaleInfo> {
    match FirstMatch(s, x)
    case None => s
    case Some(i) => s[..i] + s[i + 1..]
  }

  /** Remove the locale if it is present, then insert it at position 0. */
  function MoveToFront(s: seq<LocaleInfo>, x: LocaleInfo): seq<LocaleInfo> {
    [x] + RemoveFirst(s, x)
  }

  /**
   * Moving a locale to the front puts it first; when it was present the
   * list keeps its length and the old entry is replaced (moved, not
   * copied), otherwise it is prepended.
   */
  lemma MoveToFrontMoves(s: seq<LocaleInfo>, x: LocaleInfo)
    ensures MoveToFront(s, x)[0] == x
    ensures FirstMatch(s, x).None? ==> MoveToFront(s, x) == [x] + s
    ensures FirstMatch(s, x).Some? ==>
              |MoveToFront(s, x)| == |s|
              && multiset(MoveToFront(s, x)) == multiset(s) - multiset{s[FirstMatch(s, x).value]} + multiset{x}
  {
    if FirstMatch(s, x).Some? {
      var i := FirstMatch(s, x).value;
      assert s == s[..i] + [s[i]] + s[i + 1..];
    }
  }

  /** Moving a locale to the front never creates a duplicate. */
  lemma MoveToFrontDistinct(s: seq<LocaleInfo>, x: LocaleInfo)
    requires DistinctLocales(s)
    ensures DistinctLocales(MoveToFront(s, x))
  {
    match FirstMatch(s, x)
    case None => PrependDistinct(s, x);
    case Some(k) =>
      var rest := s[..k] + s[k + 1..];
      DropDistinct(s, k);
      forall j | 0 <= j < |rest| ensures !SameLocale(rest[j], x) {
        if j < k {
          assert rest[j] == s[j];
        } else {
          assert rest[j] == s[j + 1] && !SameLocale(s[k], s[j + 1]);
        }
      }
      PrependDistinct(rest, x);
  }

  /** Dropping one entry from a list without duplicates keeps it without duplicates. */
  lemma DropDistinct(s: seq<LocaleInfo>, k: nat)
    requires DistinctLocales(s) && k < |s|
    ensures DistinctLocales(s[..k] + s[k + 1..])
  {
    var rest := s[..k] + s[k + 1..];
    forall i, j | 0 <= i < j < |rest| ensures !SameLocale(rest[i], rest[j]) {
      var si := if i < k then i else i + 1;
      var sj := if j < k then j else j + 1;
      assert rest[i] == s[si] && rest[j] == s[sj] && si < sj;
    }
  }

  /** Putting a locale equal to none of a list without duplicates before it keeps it without duplicates. */
  lemma PrependDistinct(s: seq<LocaleInfo>, x: LocaleInfo)
    requires DistinctLocales(s)
    requires forall j :: 0 <= j < |s| ==> !SameLocale(s[j], x)
    ensures DistinctLocales([x] + s)
  {
    var r := [x] + s;
    forall i, j | 0 <= i < j < |r| ensures !SameLocale(r[i], r[j]) {
      assert r[j] == s[j - 1];
      if i > 0 {
        assert r[i] == s[i - 1];
      }
    }
  }
}
