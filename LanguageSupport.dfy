/**
 * The install-data component for the language (pyanaconda/language.py):
 * the language the installer runs in and the one the installed system
 * gets, both canonicalised against the lang-table, and the settings
 * written to /etc/sysconfig/i18n.
 */
module LanguageSupport {
  import opened Wrappers
  import opened Strings
  import opened LocaleTable
  import Localization

  const SysFont: string := "latarcyrheb-sun16"
  const Gb18030: string := "zh_CN.GB18030"
  const Gb18030Chain: string := "zh_CN.GB18030:zh_CN.GB2312:zh_CN"

  /** The source as written, or with the defect this model found fixed. */
  datatype Variant = AsWritten | Corrected

  /** A value of a lang-table entry as Python compares it. */
  datatype PyValue = PyBool(b: bool) | PyStr(s: string)

  /**
   * The test `info[2] == "False"`: the table holds the text-mode flag as a
   * bool, and a bool never equals a string, so as written the test never
   * holds; the intended test is that the flag is false.
   */
  predicate TextUnsupported(e: LangEntry, variant: Variant) {
    if variant == AsWritten then PyBool(e.textSupported) == PyStr("False") else !e.textSupported
  }

  /** As written the text-mode test never holds. */
  lemma TextTestNeverHoldsAsWritten(e: LangEntry)
    ensures !TextUnsupported(e, AsWritten)
  {
  }

  /* ---------------------------------------------------------------- */
  /* Canonical names                                                   */

  /** Whether `lang` is one of the names expand_langs(key) lists. */
  predicate Expands(key: string, lang: string) {
    lang in Localization.ExpandLangs(key)
  }

  /** _canonLang: the first key, in the table's order, whose expand_langs holds `lang`; None for ValueError. */
  function CanonLang(keys: seq<string>, lang: string): (r: Option<string>)
    ensures r.Some? ==> r.value in keys
    decreases |keys|
  {
    if keys == [] then None
    else if Expands(keys[0], lang) then Some(keys[0])
    else CanonLang(keys[1..], lang)
  }

  /** The key found expands to the argument and no earlier key does; ValueError only when no key does. */
  lemma CanonLangMeaning(keys: seq<string>, lang: string)
    ensures var r := CanonLang(keys, lang);
            && (r.Some? ==> exists k :: 0 <= k < |keys| && keys[k] == r.value && Expands(keys[k], lang)
                                        && forall j :: 0 <= j < k ==> !Expands(keys[j], lang))
            && (r.None? <==> forall k :: 0 <= k < |keys| ==> !Expands(keys[k], lang))
  {
    var k := CanonLangFirst(keys, lang);
    CanonLangNone(keys, lang);
  }

  /** The index of the key found, when one is: it expands to the argument and no earlier key does. */
  lemma {:induction false} CanonLangFirst(keys: seq<string>, lang: string) returns (k: nat)
    ensures var r := CanonLang(keys, lang);
            r.Some? ==> k < |keys| && keys[k] == r.value && Expands(keys[k], lang)
                        && forall j :: 0 <= j < k ==> !Expands(keys[j], lang)
    decreases |keys|
  {
    k := 0;
    if keys != [] && !Expands(keys[0], lang) {
      var k0 := CanonLangFirst(keys[1..], lang);
      assert CanonLang(keys, lang) == CanonLang(keys[1..], lang);
      k := k0 + 1;
      if CanonLang(keys, lang).Some? {
        NoneExpandsShifted(keys, lang, k0);
      }
    }
  }

  /** A key with no expanding key before it in the tail has none before it in the whole table either. */
  lemma NoneExpandsShifted(keys: seq<string>, lang: string, k0: nat)
    requires keys != [] && !Expands(keys[0], lang) && k0 < |keys| - 1
    requires forall j :: 0 <= j < k0 ==> !Expands(keys[1..][j], lang)
    ensures keys[k0 + 1] == keys[1..][k0]
    ensures forall j :: 0 <= j < k0 + 1 ==> !Expands(keys[j], lang)
  {
    var expands := key => Expands(key, lang);
    NoneBeforeShifted(keys, expands, k0);
  }

  /** The same shift for any test: nothing failing it before k0 in the tail, and the head failing it, is nothing before k0 + 1. */
  lemma NoneBeforeShifted(s: seq<string>, test: string -> bool, k0: nat)
    requires s != [] && !test(s[0]) && k0 < |s| - 1
    requires forall j :: 0 <= j < k0 ==> !test(s[1..][j])
    ensures s[k0 + 1] == s[1..][k0]
    ensures forall j :: 0 <= j < k0 + 1 ==> !test(s[j])
  {
    forall j | 0 < j < k0 + 1 ensures !test(s[j]) {
      assert s[j] == s[1..][j - 1];
    }
  }

  /** ValueError exactly when no key expands to the argument. */
  lemma {:induction false} CanonLangNone(keys: seq<string>, lang: string)
    ensures CanonLang(keys, lang).None? <==> forall k :: 0 <= k < |keys| ==> !Expands(keys[k], lang)
    decreases |keys|
  {
    if keys != [] && !Expands(keys[0], lang) {
      var tail := keys[1..];
      CanonLangNone(tail, lang);
      forall k | 0 < k < |keys| ensures keys[k] == tail[k - 1] {
      }
    }
  }

  /** Every key of the table canonicalises (each key is in its own expand_langs), so a key never raises ValueError. */
  lemma {:induction false} KeysCanonicalise(keys: seq<string>, lang: string)
    requires lang in keys
    ensures CanonLang(keys, lang).Some?
    decreases |keys|
  {
    if !Expands(keys[0], lang) {
      assert keys[0] != lang;
      assert lang in keys[1..] by {
        var i :| 0 <= i < |keys| && keys[i] == lang;
        assert keys[1..][i - 1] == lang;
      }
      KeysCanonicalise(keys[1..], lang);
    }
  }

  /** The full form a setter stores: the canonical key, or the value itself when it has none. */
  function Stored(keys: seq<string>, value: string): string {
    match CanonLang(keys, value)
    case Some(k) => k
    case None => value
  }

  /** An uncanonicalisable value is stored verbatim; a canonicalisable one as its key. */
  lemma StoredVerbatim(keys: seq<string>, value: string)
    ensures CanonLang(keys, value).None? ==> Stored(keys, value) == value
    ensures CanonLang(keys, value).Some? ==> Stored(keys, value) in keys
  {
    CanonLangMeaning(keys, value);
  }

  /* ---------------------------------------------------------------- */
  /* The setters                                                       */

  /** _instLang after the setter: the stored form, or the default in text mode when the language cannot be shown there. */
  function InstLangAfter(table: map<string, LangEntry>, keys: seq<string>, textMode: bool, default: string,
                         value: string, variant: Variant): string
  {
    var l := Stored(keys, value);
    if textMode && l in table && TextUnsupported(table[l], variant) then default else l
  }

  /** As written the text-mode fallback never happens: the stored form is kept in every display mode. */
  lemma TextModeFallbackNeverAsWritten(table: map<string, LangEntry>, keys: seq<string>, textMode: bool,
                                       default: string, value: string)
    ensures InstLangAfter(table, keys, textMode, default, value, AsWritten) == Stored(keys, value)
  {
  }

  /** Corrected, text mode falls back to the default exactly for a known language that text mode cannot show. */
  lemma TextModeFallbackCorrected(table: map<string, LangEntry>, keys: seq<string>, default: string, value: string)
    ensures var l := Stored(keys, value);
            InstLangAfter(table, keys, true, default, value, Corrected)
            == if l in table && !table[l].textSupported then default else l
  {
  }

  /** The i18n settings after the system-language setter. */
  function SystemInfoAfter(info: map<string, Option<string>>, table: map<string, LangEntry>, keys: seq<string>,
                           value: string, variant: Variant): map<string, Option<string>>
  {
    var l := Stored(keys, value);
    var withLang := info["LANG" := Some(l)];
    if l !in table then withLang
    else
      var withFont := withLang["SYSFONT" := if TextUnsupported(table[l], variant) then None else Some(SysFont)];
      if l == Gb18030 then withFont["LANGUAGE" := Some(Gb18030Chain)] else withFont
  }

  /**
   * LANG is always set to the stored form; SYSFONT is set only for a
   * language the table knows (as written always to the console font);
   * LANGUAGE changes only for zh_CN.GB18030; nothing else changes.
   */
  lemma SystemInfoEffects(info: map<string, Option<string>>, table: map<string, LangEntry>, keys: seq<string>,
                          value: string, variant: Variant)
    ensures var r := SystemInfoAfter(info, table, keys, value, variant);
            var l := Stored(keys, value);
            && r["LANG"] == Some(l)
            && ("SYSFONT" in r && r["SYSFONT"] != (if "SYSFONT" in info then info["SYSFONT"] else None) ==> l in table)
            && (l !in table ==> forall k :: k != "LANG" ==> (k in r <==> k in info) && (k in info ==> r[k] == info[k]))
            && (l in table && variant == AsWritten ==> r["SYSFONT"] == Some(SysFont))
            && (l in table && variant == Corrected ==> r["SYSFONT"] == if table[l].textSupported then Some(SysFont) else None)
            && (l != Gb18030 ==> ("LANGUAGE" in r <==> "LANGUAGE" in info) && ("LANGUAGE" in info ==> r["LANGUAGE"] == info["LANGUAGE"]))
            && (l == Gb18030 && l in table ==> r["LANGUAGE"] == Some(Gb18030Chain))
            && forall k :: k !in {"LANG", "SYSFONT", "LANGUAGE"} ==> (k in r <==> k in info) && (k in info ==> r[k] == info[k])
  {
  }

  /* ---------------------------------------------------------------- */
  /* Derived views                                                     */

  /** dracutSetupArgs: one `key=val` for each setting with a value. */
  function DracutArgs(info: map<string, Option<string>>): (r: set<string>)
    ensures forall k :: k in info && info[k].Some? ==> k + "=" + info[k].value in r
    ensures forall a :: a in r ==> exists k :: k in info && info[k].Some? && a == k + "=" + info[k].value
  {
    set k | k in info && info[k].Some? :: k + "=" + info[k].value
  }

  /** The elements of a finite set in some order (Python's set order is not modelled). */
  ghost function Listed(s: set<string>): (r: seq<string>)
    ensures |r| == |s| && forall x :: x in r <==> x in s
    decreases |s|
  {
    if s == {} then []
    else
      var x :| x in s;
      [x] + Listed(s - {x})
  }

  /** getCurrentLangSearchList: the expansions of the system language, then `C` last. */
  ghost function SearchList(systemLang: string): (r: seq<string>)
    ensures |r| >= 2 && r[|r| - 1] == "C"
    ensures forall x :: x in r[..|r| - 1] <==> x in Localization.ExpandLangs(systemLang)
  {
    var xs := Listed(Localization.ExpandLangs(systemLang));
    assert (xs + ["C"])[..|xs|] == xs;
    xs + ["C"]
  }

  /* ---------------------------------------------------------------- */
  /* Loading the table                                                 */

  /** What __init__ raises before it sets the languages. */
  datatype InitError = NameError | TableFailed(err: TableError)

  /**
   * `self.localeInfo = localeinfo.get(self._default)`: as written the
   * module name is unbound and the line raises NameError whatever the
   * table holds; corrected, get's KeyError is the only failure.
   */
  function InitOutcome(found: Result<map<string, LangEntry>, TableError>, variant: Variant): Option<InitError> {
    if variant == AsWritten then Some(NameError)
    else if found.Err? then Some(TableFailed(found.error))
    else None
  }

  /** As written every construction raises NameError. */
  lemma InitRaisesAsWritten(files: seq<Option<seq<string>>>, default: string)
    ensures InitOutcome(GetTable(files, default), AsWritten) == Some(NameError)
  {
  }

  /** Corrected, construction succeeds exactly when the first readable lang-table has the default, with `C` aliased to it. */
  lemma InitLoadsCorrected(files: seq<Option<seq<string>>>, default: string)
    ensures var m := Table(FirstReadable(files));
            && (InitOutcome(GetTable(files, default), Corrected).None? <==> default in m)
            && (default in m ==> GetTable(files, default) == Ok(m["C" := m[default]]))
            && (default !in m ==> InitOutcome(GetTable(files, default), Corrected) == Some(TableFailed(KeyError)))
  {
  }

  /* ---------------------------------------------------------------- */
  /* The component                                                     */

  class Language {
    const defaultLang: string
    const textMode: bool
    /** The lang-table (localeinfo.get), and the order in which its keys are visited. */
    const localeInfo: map<string, LangEntry>
    const keys: seq<string>
    /** English name -> native name, read from the lang-names file. */
    const nativeLangNames: map<string, string>
    const variant: Variant
    var instLangStored: string
    var systemLang: string
    var info: map<string, Option<string>>
    /** The process environment the setters write to. */
    var environ: map<string, string>

    /** What __init__ raised, if anything; only an object built without one exists. */
    const initError: Option<InitError>

    /** __init__ raised nothing, so the default is in the table; `keys` lists the table's keys. */
    ghost predicate Valid()
      reads this
    {
      initError.None? && defaultLang in localeInfo && forall k :: k in keys <==> k in localeInfo
    }

    /**
     * __init__: `defaultLang` is DEFAULT_LANG, `displayMode` "t" for text,
     * `found` what localeinfo.get(defaultLang) gives (the table, or KeyError
     * when the default has no entry). As written the name `localeinfo` is
     * never imported, so the call raises NameError; corrected, a KeyError
     * from it propagates. Without an error both languages start from $LANG,
     * or the default without it.
     */
    constructor(defaultLang: string, displayMode: string, found: Result<map<string, LangEntry>, TableError>,
                keys: seq<string>, names: map<string, string>, env: map<string, string>, variant: Variant)
      requires found.Ok? ==> defaultLang in found.value && forall k :: k in keys <==> k in found.value
      ensures this.variant == variant && initError == InitOutcome(found, variant)
      ensures initError.None? ==> Valid() && localeInfo == found.value
      ensures initError.None? ==>
              var start := if "LANG" in env then env["LANG"] else defaultLang;
              && instLangStored == InstLangAfter(localeInfo, keys, displayMode == "t", defaultLang, start, variant)
              && systemLang == Stored(keys, start)
              && info == SystemInfoAfter(map[], localeInfo, keys, start, variant)
    {
      this.defaultLang := defaultLang;
      this.textMode := displayMode == "t";
      this.localeInfo := if found.Ok? then found.value else map[];
      this.keys := keys;
      this.nativeLangNames := names;
      this.variant := variant;
      this.initError := InitOutcome(found, variant);
      this.info := map[];
      this.environ := env;
      new;
      if initError.None? {
        var start := if "LANG" in env then env["LANG"] else defaultLang;
        SetInstLang(start);
        SetSystemLang(start);
      }
    }

    /** _canonLang as a method: the loop over the table's keys. */
    method Canon(lang: string) returns (r: Option<string>)
      ensures r == CanonLang(keys, lang)
    {
      var i := 0;
      while i < |keys|
        invariant i <= |keys|
        invariant CanonLang(keys[i..], lang) == CanonLang(keys, lang)
      {
        assert keys[i..][1..] == keys[i + 1..];
        if Expands(keys[i], lang) {
          return Some(keys[i]);
        }
        i := i + 1;
      }
      assert keys[i..] == [];
      r := None;
    }

    /** The instLang setter: stores the full form, falls back in text mode, and exports LANG and LC_NUMERIC. */
    method SetInstLang(value: string)
      requires Valid()
      modifies this`instLangStored, this`environ
      ensures instLangStored == InstLangAfter(localeInfo, keys, textMode, defaultLang, value, variant)
      ensures environ == old(environ)["LANG" := instLangStored]["LC_NUMERIC" := "C"]
    {
      var c := Canon(value);
      var l := if c.Some? then c.value else value;
      var fallback := false;
      if textMode {
        fallback := CannotShow(localeInfo, keys, l, variant);
      }
      instLangStored := if fallback then defaultLang else l;
      environ := environ["LANG" := instLangStored]["LC_NUMERIC" := "C"];
    }

    /** The instLang getter: a language the table does not know reads as the default. */
    function InstLang(): (r: string)
      reads this
      ensures Valid() ==> r in localeInfo
      ensures instLangStored in localeInfo ==> r == instLangStored
    {
      if instLangStored in localeInfo then instLangStored else defaultLang
    }

    /** The systemLang setter: stores the full form and records the i18n settings. */
    method SetSystemLang(value: string)
      modifies this`systemLang, this`info
      ensures systemLang == Stored(keys, value)
      ensures info == SystemInfoAfter(old(info), localeInfo, keys, value, variant)
    {
      var c := Canon(value);
      systemLang := if c.Some? then c.value else value;
      var withLang := info["LANG" := Some(systemLang)];
      if systemLang !in localeInfo {
        info := withLang;
        return;
      }
      var font := if TextUnsupported(localeInfo[systemLang], variant) then None else Some(SysFont);
      var withFont := withLang["SYSFONT" := font];
      info := if systemLang == Gb18030 then withFont["LANGUAGE" := Some(Gb18030Chain)] else withFont;
    }

    /** The entry textSupported and getLangName read: the canonical key's, or the default's for an unknown language. */
    function EntryFor(lang: string): (e: LangEntry)
      requires Valid()
      reads this
      ensures CanonLang(keys, lang).None? ==> e == localeInfo[defaultLang]
      ensures CanonLang(keys, lang).Some? ==> e == localeInfo[CanonLang(keys, lang).value]
    {
      var c := CanonLang(keys, lang);
      if c.Some? then localeInfo[c.value] else localeInfo[defaultLang]
    }

    /** A language the table knows is never replaced by the default. */
    lemma KnownLanguageKept(lang: string)
      requires Valid() && lang in localeInfo
      ensures CanonLang(keys, lang).Some? && CanonLang(keys, lang).value in localeInfo
      ensures EntryFor(lang) == localeInfo[CanonLang(keys, lang).value]
    {
      KeysCanonicalise(keys, lang);
    }

    /** textSupported(lang): the text-mode flag of the language's entry. */
    function TextSupported(lang: string): (r: bool)
      requires Valid()
      reads this
      ensures CanonLang(keys, lang).None? ==> r == localeInfo[defaultLang].textSupported
    {
      EntryFor(lang).textSupported
    }

    /** getLangName(lang): the English name of the language's entry. */
    function LangName(lang: string): (r: string)
      requires Valid()
      reads this
      ensures CanonLang(keys, lang).None? ==> r == localeInfo[defaultLang].name
    {
      EntryFor(lang).name
    }

    /** getLangByName(name): the first key, in the table's order, whose entry has that English name. */
    function LangByName(name: string): (r: Option<string>)
      requires Valid()
      reads this
      ensures r.Some? ==> r.value in localeInfo && localeInfo[r.value].name == name
      ensures r.None? ==> forall k :: k in localeInfo ==> localeInfo[k].name != name
    {
      FirstNamed(localeInfo, keys, name)
    }

    /** available(): the languages with a native name. */
    function Available(): (r: set<string>)
      reads this
      ensures forall l :: l in r <==> l in nativeLangNames
    {
      nativeLangNames.Keys
    }

    /** getNativeLangName(lang): KeyError for a language without a native name. */
    function NativeLangName(lang: string): (r: Result<string, TableError>)
      reads this
      ensures r.Ok? <==> lang in nativeLangNames
      ensures r.Ok? ==> r.value == nativeLangNames[lang]
    {
      if lang in nativeLangNames then Ok(nativeLangNames[lang]) else Err(KeyError)
    }

    /**
     * getDefaultTimeZone: the system language's timezone; for a language
     * the table does not know, the ZONE of the installed system's clock
     * file (`clockZone`, None when the file is absent or has no ZONE),
     * else the default language's.
     */
    function DefaultTimeZone(clockZone: Option<string>): (r: string)
      requires Valid()
      reads this
      ensures systemLang in localeInfo ==> r == localeInfo[systemLang].timezone
      ensures systemLang !in localeInfo ==> r == clockZone.GetOr(localeInfo[defaultLang].timezone)
    {
      if systemLang in localeInfo then localeInfo[systemLang].timezone
      else match clockZone
        case Some(z) => z
        case None => localeInfo[defaultLang].timezone
    }
  }

  /** The text-mode loop of the instLang setter: whether the table lists `l` as a language text mode cannot show. */
  method CannotShow(table: map<string, LangEntry>, keys: seq<string>, l: string, variant: Variant) returns (r: bool)
    requires forall k :: k in keys <==> k in table
    ensures r == (l in table && TextUnsupported(table[l], variant))
  {
    var i := 0;
    while i < |keys|
      invariant i <= |keys|
      invariant forall j :: 0 <= j < i ==> !(keys[j] == l && TextUnsupported(table[keys[j]], variant))
    {
      if keys[i] == l && TextUnsupported(table[keys[i]], variant) {
        return true;
      }
      i := i + 1;
    }
    r := false;
  }

  /** The first key in `keys` whose entry has the English name `name`. */
  function FirstNamed(table: map<string, LangEntry>, keys: seq<string>, name: string): (r: Option<string>)
    requires forall k :: k in keys <==> k in table
    ensures r.Some? ==> r.value in table && table[r.value].name == name
    ensures r.None? ==> forall k :: k in table ==> table[k].name != name
  {
    FirstNamedIn(table, keys, name)
  }

  function FirstNamedIn(table: map<string, LangEntry>, keys: seq<string>, name: string): (r: Option<string>)
    requires forall k :: k in keys ==> k in table
    ensures r.Some? ==> r.value in keys && table[r.value].name == name
    ensures r.None? ==> forall k :: k in keys ==> table[k].name != name
    decreases |keys|
  {
    if keys == [] then None
    else if table[keys[0]].name == name then Some(keys[0])
    else
      var r := FirstNamedIn(table, keys[1..], name);
      assert forall k :: k in keys ==> k == keys[0] || k in keys[1..];
      r
  }
}
