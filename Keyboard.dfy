/**
 * The keyboard install data (kbd.py): the keyboard type found by the
 * probe, the console keymap chosen directly or from an X keyboard
 * (model, layout, variant), and the tables that translate between
 * console keymaps and X keyboards.
 */
module Keyboard {
  import opened Wrappers
  import opened Strings
  import opened Tables

  datatype KbdType = PC | Serial | Sun

  /** An X keyboard: model, layout and variant. */
  datatype XKey = XKey(model: string, layout: string, variant: string)

  /* ---------------------------------------------------------------- */
  /* The tables                                                        */

  /** console2xlist: console keymap -> X keyboard; the first entry wins conflicts. */
  const Console2XList: seq<(string, XKey)> := [
    ("be-latin1", XKey("pc102", "be", "")), ("be2-latin1", XKey("pc102", "be", "")),
    ("bg", XKey("pc102", "bg", "")), ("br-abnt2", XKey("pc102", "br", "")),
    ("cf", XKey("pc102", "ca_enhanced", "")), ("cz-lat2", XKey("pc102", "cz", "")),
    ("cz-lat2-prog", XKey("pc102", "cz", "")), ("de-latin1", XKey("pc102", "de", "")),
    ("de", XKey("pc102", "de", "")), ("de-latin1-nodeadkeys", XKey("pc102", "de", "nodeadkeys")),
    ("dvorak", XKey("pc105", "dvorak", "")), ("dk", XKey("pc102", "dk", "")),
    ("dk-latin1", XKey("pc102", "dk", "")), ("es", XKey("pc102", "es", "")),
    ("fi", XKey("pc102", "fi", "")), ("fi-latin1", XKey("pc102", "fi", "")),
    ("fr", XKey("pc102", "fr", "")), ("fr-latin0", XKey("pc102", "fr", "")),
    ("fr-latin1", XKey("pc102", "fr", "")), ("fr-pc", XKey("pc102", "fr", "")),
    ("fr_CH", XKey("pc102", "fr_CH", "")), ("fr_CH-latin1", XKey("pc102", "fr_CH", "")),
    ("hu", XKey("pc102", "hu", "")), ("hu101", XKey("pc102", "hu", "")),
    ("is-latin1", XKey("pc102", "is", "")), ("it", XKey("pc102", "it", "")),
    ("it-ibm", XKey("pc101", "it", "")), ("it2", XKey("pc102", "it", "")),
    ("jp106", XKey("jp106", "jp", "")), ("no-latin1", XKey("pc102", "no", "")),
    ("no", XKey("pc102", "no", "")), ("pl", XKey("pc102", "pl", "")),
    ("pt-latin1", XKey("pc102", "pt", "")), ("ru", XKey("pc102", "ru", "")),
    ("ru-cp1251", XKey("pc102", "ru", "")), ("ru-ms", XKey("microsoft", "ru", "")),
    ("ru1", XKey("pc102", "ru", "")), ("ru2", XKey("pc102", "ru", "")),
    ("ru_win", XKey("pc105", "ru", "")), ("se-latin1", XKey("pc102", "se", "")),
    ("sg", XKey("pc102", "de_CH", "")), ("sg-latin1", XKey("pc102", "de_CH", "")),
    ("sk-qwerty", XKey("pc102", "us_sk_qwerty", "")), ("slovene", XKey("pc102", "si", "")),
    ("trq", XKey("pc102", "tr", "")), ("uk", XKey("pc101", "gb", "")),
    ("us", XKey("pc105", "us", "")), ("ua", XKey("pc102", "ua", ""))
  ]

  /** console2xsun: Sun console keymap -> X layout, in the order of its listing. */
  const Console2XSunList: seq<(string, string)> := [
    ("sun-pl-altgraph", "pl"), ("sun-pl", "pl"), ("sunt4-es", "es"), ("sunt5-cz-us", "cs"),
    ("sunt5-de-latin1", "de"), ("sunt5-es", "es"), ("sunt5-fi-latin1", "fi"),
    ("sunt5-fr-latin1", "fr"), ("sunt5-ru", "ru"), ("sunt5-uk", "en_US"), ("sunt5-us-cz", "cs")
  ]

  /** The loop building console2x. */
  method BuildConsole2X(list: seq<(string, XKey)>) returns (m: map<string, XKey>)
    ensures m == MapOf(list)
  {
    m := map[];
    var i := 0;
    while i < |list|
      invariant i <= |list| && m == MapOf(list[..i])
    {
      assert list[..i + 1][..i] == list[..i];
      m := m[list[i].0 := list[i].1];
      i := i + 1;
    }
    assert list[..i] == list;
  }

  /** The loop building x2console: a key is set only when it is not there yet. */
  method BuildX2Console(list: seq<(string, XKey)>) returns (m: map<XKey, string>)
    ensures m == FirstOf(list)
  {
    m := map[];
    var i := 0;
    while i < |list|
      invariant i <= |list| && m == FirstOf(list[..i])
    {
      assert list[..i + 1][..i] == list[..i];
      if list[i].1 !in m {
        m := m[list[i].1 := list[i].0];
      }
      i := i + 1;
    }
    assert list[..i] == list;
  }

  /** The loop building xsun2console: each X layout maps to the last Sun keymap with it. */
  method BuildXSun2Console(items: seq<(string, string)>) returns (m: map<string, string>)
    ensures m == MapOf(Swapped(items))
  {
    m := map[];
    var i := 0;
    ghost var sw := Swapped(items);
    while i < |items|
      invariant i <= |items| && m == MapOf(sw[..i])
    {
      assert sw[..i + 1][..i] == sw[..i];
      m := m[items[i].1 := items[i].0];
      i := i + 1;
    }
    assert sw[..i] == sw;
  }

  /* ---------------------------------------------------------------- */
  /* The probe                                                         */

  /** What the constructor learns from the first keyboard the probe reports. */
  datatype Probed = Probed(kbdType: KbdType, model: Option<string>, layout: Option<string>)

  /** The constructor's `xx[0]` on a Sun description with no words left. */
  datatype KbdError = IndexError

  /** The Sun model named after "Sun Type", and the rest of the description. */
  function SunModel(desc: string): (string, string) {
    if Slice(desc, 8, 9) == "4" then ("type4", From(desc, 10))
    else if Slice(desc, 8, 14) == "5 Euro" then ("type5_euro", From(desc, 15))
    else if Slice(desc, 8, 14) == "5 Unix" then ("type5_unix", From(desc, 15))
    else ("type5", From(desc, 10))
  }

  /** The X layout named by the first word of a Sun description. */
  function SunLayout(rest: string): (r: Result<string, KbdError>)
    ensures r.Err? <==> Slice(rest, 0, 8) != "Keyboard" && Words(rest) == []
  {
    if Slice(rest, 0, 8) == "Keyboard" then Ok("us")
    else
      var xx := Words(rest);
      if xx == [] then Err(IndexError)
      else if xx[0] == "fr_BE" then Ok("be")
      else if xx[0] == "fr_CA" then Ok("fr")
      else if xx[0] == "nl" || xx[0] == "ko" || xx[0] == "tw" then Ok("us")
      else Ok(xx[0])
  }

  /** The constructor's reading of the probe: `desc` is the first keyboard's description, None when none was found. */
  function Probe(desc: Option<string>): (r: Result<Probed, KbdError>)
    ensures r.Ok? && r.value.kbdType != Sun ==> r.value.model.None? && r.value.layout.None?
    ensures r.Ok? && r.value.kbdType == Sun ==> r.value.model.Some? && r.value.layout.Some?
    ensures r.Err? ==> desc.Some? && Slice(desc.value, 0, 8) == "Sun Type"
    ensures desc.None? ==> r == Ok(Probed(PC, None, None))
  {
    match desc
    case None => Ok(Probed(PC, None, None))
    case Some(d) =>
      if Slice(d, 0, 14) == "Serial console" then Ok(Probed(Serial, None, None))
      else if Slice(d, 0, 8) == "Sun Type" then
        var (m, rest) := SunModel(d);
        match SunLayout(rest)
        case Ok(l) => Ok(Probed(Sun, Some(m), Some(l)))
        case Err(e) => Err(e)
      else Ok(Probed(PC, None, None))
  }

  /** KEYBOARDTYPE after the constructor: sun or pc, nothing for a serial console. */
  function TypeInfo(t: KbdType): (r: map<string, string>)
    ensures t == Serial <==> "KEYBOARDTYPE" !in r
  {
    match t
    case Sun => map["KEYBOARDTYPE" := "sun"]
    case PC => map["KEYBOARDTYPE" := "pc"]
    case Serial => map[]
  }

  /* ---------------------------------------------------------------- */
  /* setfromx                                                          */

  /** The source as written, or with the defect this model found fixed. */
  datatype Variant = AsWritten | Corrected

  /** One key of the loop in setfromx, as the loop sees it: model, layout, variant and the keymap it maps to. */
  datatype Cand = Cand(model: string, layout: string, variant: string, table: string)

  /**
   * The keys the loop visits.  For a PC keyboard each key of x2console is
   * a tuple unpacked into (mod, lay, variant): as written that unpacking
   * overwrites the caller's variant with the key's.  For other keyboards
   * each key of xsun2console is a layout, with mod set to the caller's
   * model.
   */
  function Cands(t: KbdType, model: string, variant: string, pcOrder: seq<XKey>, x2console: map<XKey, string>,
                 sunOrder: seq<string>, xsun2console: map<string, string>, fix: Variant): (r: seq<Cand>)
    requires forall k :: k in pcOrder ==> k in x2console
    requires forall k :: k in sunOrder ==> k in xsun2console
  {
    if t == PC then
      seq(|pcOrder|, i requires 0 <= i < |pcOrder| =>
        Cand(pcOrder[i].model, pcOrder[i].layout, if fix == AsWritten then pcOrder[i].variant else variant,
             x2console[pcOrder[i]]))
    else
      seq(|sunOrder|, i requires 0 <= i < |sunOrder| => Cand(model, sunOrder[i], variant, xsun2console[sunOrder[i]]))
  }

  /** The keymap set for an exact match: German without dead keys is forced to its own keymap. */
  function ExactTable(c: Cand): string {
    if c.layout == "de" && c.variant == "nodeadkeys" then "de-latin1-nodeadkeys" else c.table
  }

  /** The loop: the first exact model and layout match returns; otherwise the last layout-only match is kept in `fuzzy`. */
  function Choose(cs: seq<Cand>, model: string, layout: string, fuzzy: Option<string>): (r: Option<string>)
    decreases |cs|
  {
    if cs == [] then fuzzy
    else if cs[0].model == model && cs[0].layout == layout then Some(ExactTable(cs[0]))
    else Choose(cs[1..], model, layout, if cs[0].layout == layout then Some(cs[0].table) else fuzzy)
  }

  /** The first exact match decides. */
  lemma {:induction false} ChooseExact(cs: seq<Cand>, model: string, layout: string, fuzzy: Option<string>, i: nat)
    requires i < |cs| && cs[i].model == model && cs[i].layout == layout
    requires forall j :: 0 <= j < i ==> !(cs[j].model == model && cs[j].layout == layout)
    ensures Choose(cs, model, layout, fuzzy) == Some(ExactTable(cs[i]))
    decreases i
  {
    if i > 0 {
      ChooseExact(cs[1..], model, layout, if cs[0].layout == layout then Some(cs[0].table) else fuzzy, i - 1);
    }
  }

  /** Without an exact match, the last layout-only match decides, and nothing matching leaves `fuzzy`. */
  lemma {:induction false} ChooseFuzzy(cs: seq<Cand>, model: string, layout: string, fuzzy: Option<string>)
    requires forall j :: 0 <= j < |cs| ==> !(cs[j].model == model && cs[j].layout == layout)
    ensures var r := Choose(cs, model, layout, fuzzy);
            && ((forall j :: 0 <= j < |cs| ==> cs[j].layout != layout) ==> r == fuzzy)
            && (forall i :: 0 <= i < |cs| && cs[i].layout == layout && (forall j :: i < j < |cs| ==> cs[j].layout != layout)
                  ==> r == Some(cs[i].table))
    decreases |cs|
  {
    if cs != [] {
      var f := if cs[0].layout == layout then Some(cs[0].table) else fuzzy;
      ChooseFuzzy(cs[1..], model, layout, f);
      forall i | 0 <= i < |cs| && cs[i].layout == layout && (forall j :: i < j < |cs| ==> cs[j].layout != layout)
        ensures Choose(cs, model, layout, fuzzy) == Some(cs[i].table)
      {
        if i > 0 {
          assert cs[1..][i - 1] == cs[i];
          assert forall j :: i - 1 < j < |cs[1..]| ==> cs[1..][j].layout != layout by {
            forall j | i - 1 < j < |cs[1..]| ensures cs[1..][j].layout != layout { assert cs[1..][j] == cs[j + 1]; }
          }
        } else {
          assert forall j :: 0 <= j < |cs[1..]| ==> cs[1..][j].layout != layout by {
            forall j | 0 <= j < |cs[1..]| ensures cs[1..][j].layout != layout { assert cs[1..][j] == cs[j + 1]; }
          }
        }
      }
      if forall j :: 0 <= j < |cs| ==> cs[j].layout != layout {
        assert forall j :: 0 <= j < |cs[1..]| ==> cs[1..][j].layout != layout by {
          forall j | 0 <= j < |cs[1..]| ensures cs[1..][j].layout != layout { assert cs[1..][j] == cs[j + 1]; }
        }
      }
    }
  }

  /** KEYTABLE after setfromx: the loop's choice, else `us` for a PC and `sunkeymap` otherwise. */
  function KeyTableFromX(t: KbdType, cs: seq<Cand>, model: string, layout: string): string {
    match Choose(cs, model, layout, None)
    case Some(k) => k
    case None => if t == PC then "us" else "sunkeymap"
  }

  /** As written the PC keymap chosen does not depend on the variant asked for: the unpacking replaces it. */
  lemma SetFromXIgnoresVariantAsWritten(model: string, layout: string, v1: string, v2: string,
                                        pcOrder: seq<XKey>, x2console: map<XKey, string>,
                                        sunOrder: seq<string>, xsun2console: map<string, string>)
    requires forall k :: k in pcOrder ==> k in x2console
    requires forall k :: k in sunOrder ==> k in xsun2console
    ensures Cands(PC, model, v1, pcOrder, x2console, sunOrder, xsun2console, AsWritten)
            == Cands(PC, model, v2, pcOrder, x2console, sunOrder, xsun2console, AsWritten)
  {
  }

  /**
   * An instance: when the plain German pc102 keyboard is visited first,
   * asking for pc102, de and nodeadkeys sets de-latin1 as written, and
   * de-latin1-nodeadkeys once the caller's variant is honoured.
   */
  lemma NoDeadKeysLostAsWritten(pcOrder: seq<XKey>, x2console: map<XKey, string>,
                                sunOrder: seq<string>, xsun2console: map<string, string>)
    requires forall k :: k in pcOrder ==> k in x2console
    requires forall k :: k in sunOrder ==> k in xsun2console
    requires pcOrder != [] && pcOrder[0] == XKey("pc102", "de", "") && x2console[pcOrder[0]] == "de-latin1"
    ensures KeyTableFromX(PC, Cands(PC, "pc102", "nodeadkeys", pcOrder, x2console, sunOrder, xsun2console, AsWritten),
                          "pc102", "de") == "de-latin1"
    ensures KeyTableFromX(PC, Cands(PC, "pc102", "nodeadkeys", pcOrder, x2console, sunOrder, xsun2console, Corrected),
                          "pc102", "de") == "de-latin1-nodeadkeys"
  {
    var a := Cands(PC, "pc102", "nodeadkeys", pcOrder, x2console, sunOrder, xsun2console, AsWritten);
    var c := Cands(PC, "pc102", "nodeadkeys", pcOrder, x2console, sunOrder, xsun2console, Corrected);
    assert a[0] == Cand("pc102", "de", "", "de-latin1");
    assert c[0] == Cand("pc102", "de", "nodeadkeys", "de-latin1");
  }

  /** Corrected, a German keyboard asked for without dead keys always gets de-latin1-nodeadkeys on an exact match. */
  lemma NoDeadKeysHonouredCorrected(t: KbdType, model: string, pcOrder: seq<XKey>, x2console: map<XKey, string>,
                                    sunOrder: seq<string>, xsun2console: map<string, string>, i: nat)
    requires forall k :: k in pcOrder ==> k in x2console
    requires forall k :: k in sunOrder ==> k in xsun2console
    requires var cs := Cands(t, model, "nodeadkeys", pcOrder, x2console, sunOrder, xsun2console, Corrected);
             i < |cs| && cs[i].model == model && cs[i].layout == "de"
    ensures KeyTableFromX(t, Cands(t, model, "nodeadkeys", pcOrder, x2console, sunOrder, xsun2console, Corrected),
                          model, "de") == "de-latin1-nodeadkeys"
  {
    var cs := Cands(t, model, "nodeadkeys", pcOrder, x2console, sunOrder, xsun2console, Corrected);
    var k :| 0 <= k <= i && cs[k].model == model && cs[k].layout == "de"
             && forall j :: 0 <= j < k ==> !(cs[j].model == model && cs[j].layout == "de") by {
      FirstExact(cs, model, "de", i);
    }
    ChooseExact(cs, model, "de", None, k);
  }

  lemma {:induction false} FirstExact(cs: seq<Cand>, model: string, layout: string, i: nat)
    requires i < |cs| && cs[i].model == model && cs[i].layout == layout
    ensures exists k :: 0 <= k <= i && cs[k].model == model && cs[k].layout == layout
                        && forall j :: 0 <= j < k ==> !(cs[j].model == model && cs[j].layout == layout)
    decreases i
  {
    if exists j :: 0 <= j < i && cs[j].model == model && cs[j].layout == layout {
      var j :| 0 <= j < i && cs[j].model == model && cs[j].layout == layout;
      FirstExact(cs, model, layout, j);
    }
  }

  /**
   * For a Sun keyboard the loop's model always matches, so the keymap is
   * xsun2console's for the layout (or the German override), and sunkeymap
   * for a layout it does not know.
   */
  lemma SunSetFromX(model: string, layout: string, variant: string, pcOrder: seq<XKey>, x2console: map<XKey, string>,
                    sunOrder: seq<string>, xsun2console: map<string, string>, fix: Variant)
    requires forall k :: k in pcOrder ==> k in x2console
    requires forall k :: k in sunOrder <==> k in xsun2console
    ensures KeyTableFromX(Sun, Cands(Sun, model, variant, pcOrder, x2console, sunOrder, xsun2console, fix), model, layout)
            == if layout !in xsun2console then "sunkeymap"
               else if layout == "de" && variant == "nodeadkeys" then "de-latin1-nodeadkeys"
               else xsun2console[layout]
  {
    var cs := Cands(Sun, model, variant, pcOrder, x2console, sunOrder, xsun2console, fix);
    if layout in xsun2console {
      var i :| 0 <= i < |sunOrder| && sunOrder[i] == layout;
      assert cs[i].model == model && cs[i].layout == layout;
      var k :| 0 <= k <= i && cs[k].model == model && cs[k].layout == layout
               && forall j :: 0 <= j < k ==> !(cs[j].model == model && cs[j].layout == layout) by {
        FirstExact(cs, model, layout, i);
      }
      ChooseExact(cs, model, layout, None, k);
    } else {
      assert forall j :: 0 <= j < |cs| ==> cs[j].layout != layout by {
        forall j | 0 <= j < |cs| ensures cs[j].layout != layout { assert cs[j].layout == sunOrder[j]; }
      }
      ChooseFuzzy(cs, model, layout, None);
    }
  }

  /** The loop of setfromx, proved against Choose. */
  method ChooseLoop(cs: seq<Cand>, model: string, layout: string) returns (r: Option<string>)
    ensures r == Choose(cs, model, layout, None)
  {
    var fuzzy: Option<string> := None;
    var i := 0;
    while i < |cs|
      invariant i <= |cs|
      invariant Choose(cs[i..], model, layout, fuzzy) == Choose(cs, model, layout, None)
    {
      assert cs[i..][1..] == cs[i + 1..];
      if cs[i].model == model && cs[i].layout == layout {
        return Some(ExactTable(cs[i]));
      }
      if cs[i].layout == layout {
        fuzzy := Some(cs[i].table);
      }
      i := i + 1;
    }
    assert cs[i..] == [];
    r := fuzzy;
  }

  /* ---------------------------------------------------------------- */
  /* The keyboard                                                      */

  /** The result of getXKB: rules, model, layout, variant and options. */
  datatype XkbSetting = XkbSetting(rules: string, model: Option<string>, layout: string, variant: string, options: string)

  /** The keymaps offered to a Serial keyboard. */
  const SerialMaps: seq<string> := ["us"]

  const SunMaps: seq<string> := [
    "sun-pl-altgraph", "sun-pl", "sundvorak", "sunkeymap", "sunt4-es", "sunt4-no-latin1", "sunt5-cz-us",
    "sunt5-de-latin1", "sunt5-es", "sunt5-fi-latin1", "sunt5-fr-latin1", "sunt5-ru", "sunt5-uk", "sunt5-us-cz"
  ]

  const PcMaps: seq<string> := [
    "azerty", "be-latin1", "be2-latin1", "fr-latin0", "fr-latin1", "fr-pc", "fr", "wangbe", "ANSI-dvorak",
    "dvorak-l", "dvorak-r", "dvorak", "pc-dvorak-latin1", "tr_f-latin5", "trf", "bg", "br-abnt2", "cf",
    "cz-lat2-prog", "cz-lat2", "defkeymap", "defkeymap_V1.0", "dk-latin1", "dk", "emacs", "emacs2", "es",
    "fi-latin1", "fi", "gr-pc", "gr", "hebrew", "hu101", "is-latin1", "it-ibm", "it", "it2", "jp106",
    "la-latin1", "lt", "lt.l4", "nl", "no-latin1", "no", "pc110", "pl", "pt-latin1", "pt-old", "ro",
    "ru-cp1251", "ru-ms", "ru-yawerty", "ru", "ru1", "ru2", "ru_win", "se-latin1", "sk-prog-qwerty",
    "sk-prog", "sk-qwerty", "tr_q-latin5", "tralt", "trf", "trq", "ua", "uk", "us", "croat", "cz-us-qwertz",
    "de-latin1-nodeadkeys", "de-latin1", "de", "fr_CH-latin1", "fr_CH", "hu", "sg-latin1-lk450", "sg-latin1",
    "sg", "sk-prog-qwertz", "sk-qwertz", "slovene"
  ]

  /** The first Sun keymap, in listing order, whose layout is `layout`. */
  function SunMapFor(items: seq<(string, string)>, layout: Option<string>): (r: Option<string>)
    ensures r.Some? ==> exists i :: 0 <= i < |items| && layout == Some(items[i].1) && r.value == items[i].0
    ensures r.None? ==> forall i :: 0 <= i < |items| ==> layout != Some(items[i].1)
    decreases |items|
  {
    if items == [] then None
    else if layout == Some(items[0].1) then Some(items[0].0)
    else
      var r := SunMapFor(items[1..], layout);
      assert forall i :: 1 <= i < |items| ==> items[i] == items[1..][i - 1];
      r
  }

  class Keyboard {
    var kbdType: KbdType
    var model: Option<string>
    var layout: Option<string>
    var beenset: int
    var info: map<string, string>
    /** The class tables, built by the loops of the class body. */
    const console2x: map<string, XKey>
    const x2console: map<XKey, string>
    const xsun2console: map<string, string>

    ghost predicate Valid()
      reads this
    {
      console2x == MapOf(Console2XList) && x2console == FirstOf(Console2XList)
      && xsun2console == MapOf(Swapped(Console2XSunList))
    }

    /** __init__ on a successful probe. */
    constructor(p: Probed)
      ensures Valid()
      ensures kbdType == p.kbdType && model == p.model && layout == p.layout && beenset == 0
      ensures info == TypeInfo(p.kbdType)
    {
      kbdType := p.kbdType;
      model := p.model;
      layout := p.layout;
      beenset := 0;
      info := TypeInfo(p.kbdType);
      var c2x := BuildConsole2X(Console2XList);
      var x2c := BuildX2Console(Console2XList);
      var xs2c := BuildXSun2Console(Console2XSunList);
      console2x := c2x;
      x2console := x2c;
      xsun2console := xs2c;
    }

    /** available(): the keymaps offered for the keyboard type. */
    function Available(): (r: seq<string>)
      reads this
      ensures kbdType == Serial ==> r == ["us"]
      ensures kbdType == Sun ==> "sunkeymap" in r
      ensures kbdType == PC ==> "us" in r && "de-latin1-nodeadkeys" in r
    {
      if kbdType == Sun then SunMaps
      else if kbdType == Serial then SerialMaps
      else
        assert PcMaps[66] == "us" && PcMaps[69] == "de-latin1-nodeadkeys";
        PcMaps
    }

    /** set(keytable): a serial console keeps no keymap. */
    method Set(keytable: string)
      modifies this`info
      ensures kbdType == Serial ==> info == old(info)
      ensures kbdType != Serial ==> info == old(info)["KEYTABLE" := keytable]
    {
      if kbdType != Serial {
        info := info["KEYTABLE" := keytable];
      }
    }

    /**
     * setfromx(model, layout, variant): `pcOrder` and `sunOrder` are the
     * orders in which the two dictionaries list their keys.
     */
    method SetFromX(m: string, l: string, variant: string, pcOrder: seq<XKey>, sunOrder: seq<string>, fix: Variant)
      requires forall k :: k in pcOrder ==> k in x2console
      requires forall k :: k in sunOrder ==> k in xsun2console
      modifies this`info
      ensures info == old(info)["KEYTABLE" :=
                KeyTableFromX(kbdType, Cands(kbdType, m, variant, pcOrder, x2console, sunOrder, xsun2console, fix), m, l)]
    {
      var cs := Cands(kbdType, m, variant, pcOrder, x2console, sunOrder, xsun2console, fix);
      var r := ChooseLoop(cs, m, l);
      var table := match r
        case Some(k) => k
        case None => if kbdType == PC then "us" else "sunkeymap";
      info := info["KEYTABLE" := table];
    }

    /** get(): the keymap set, else the Sun keymap of the probed layout or sunkeymap, else us. */
    function Get(): (r: string)
      reads this
      ensures "KEYTABLE" in info ==> r == info["KEYTABLE"]
      ensures "KEYTABLE" !in info && kbdType != Sun ==> r == "us"
      ensures "KEYTABLE" !in info && kbdType == Sun ==>
                r == "sunkeymap" || exists i :: 0 <= i < |Console2XSunList| && layout == Some(Console2XSunList[i].1) && r == Console2XSunList[i].0
    {
      if "KEYTABLE" in info then info["KEYTABLE"]
      else if kbdType == Sun then SunMapFor(Console2XSunList, layout).GetOr("sunkeymap")
      else "us"
    }

    /** getXKB(): the X setting for a keymap the tables know; None otherwise. */
    function GetXkb(): (r: Option<XkbSetting>)
      requires Valid()
      reads this
      ensures kbdType == PC ==> (r.Some? <==> Get() in console2x)
      ensures kbdType == PC && r.Some? ==>
                r.value.rules == "xfree86" && r.value.model == Some(console2x[Get()].model)
                && r.value.layout == console2x[Get()].layout && r.value.variant == console2x[Get()].variant
      ensures kbdType != PC && r.Some? ==> r.value.rules == "sun" && r.value.model == model
    {
      var g := Get();
      if kbdType == PC then
        if g in console2x then
          var x := console2x[g];
          Some(XkbSetting("xfree86", Some(x.model), x.layout, x.variant, ""))
        else None
      else
        var sun := MapOf(Console2XSunList);
        if g in sun then Some(XkbSetting("sun", model, sun[g], "", "")) else None
    }

    /** writeKS: the kickstart line for the keymap. */
    function KickstartLine(): (r: string)
      reads this
      ensures r == "keyboard " + Get() + "\n"
    {
      "keyboard " + Get() + "\n"
    }
  }

  /** Every console keymap listed is a key of console2x. */
  lemma Console2XComplete(list: seq<(string, XKey)>)
    ensures forall i :: 0 <= i < |list| ==> list[i].0 in MapOf(list)
  {
    forall i | 0 <= i < |list| ensures list[i].0 in MapOf(list) {
      MapOfKeys(list, list[i].0);
    }
  }

  /** A keyboard set to a console keymap the PC table knows gives its X setting back. */
  lemma PcRoundTrip(kb: Keyboard, console: string)
    requires kb.Valid() && kb.kbdType == PC
    requires "KEYTABLE" in kb.info && kb.info["KEYTABLE"] == console && console in kb.console2x
    ensures kb.GetXkb().Some? && kb.GetXkb().value.layout == kb.console2x[console].layout
  {
  }
}
