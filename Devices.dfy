/**
 * Device driver selection of the first-generation loader
 * (loader/devices.c): the module parameter form, the driver menu, the
 * `devDeviceMenu` stage loop, and the checks and bookkeeping of driver
 * disks.
 *
 * The dialogs, the module loader and the files of a driver disk are
 * given as answers; the files the loader saves for each driver disk are
 * a map from (disk number, file name) to contents, standing for
 * /tmp/DD-<number>/<file name>.
 */
module Devices {
  import opened Wrappers
  import opened Strings

  const LoaderBack: int := 1

  /** The source as written, or with the defects this model found fixed. */
  datatype Variant = AsWritten | Corrected

  /* ---------------------------------------------------------------- */
  /* getModuleArgs                                                     */

  /** A parameter a module declares: its name (possibly none) and what it is for. */
  datatype ModArg = ModArg(arg: Option<string>, description: string)

  /** One entry of the module table: name, description, driver class, parameters, and whether free-form parameters are refused. */
  datatype ModuleInfo = ModuleInfo(moduleName: string, description: string, major: nat,
                                   args: seq<ModArg>, noMiscArgs: bool)

  /** The text a parameter's entry starts with: `<name>=`, or `io=0x` for `io`. */
  function Prefill(a: ModArg): (r: Option<string>)
    ensures a.arg.None? <==> r.None?
    ensures a.arg.Some? ==> StartsWith(r.value, a.arg.value + "=")
  {
    match a.arg
    case None => None
    case Some(name) =>
      assert (name + "=0x")[..|name + "="|] == name + "=";
      if name == "io" then Some(name + "=0x") else Some(name + "=")
  }

  /** The index of the last character of `v` that is not white space. */
  function LastNonSpace(v: string): (r: Option<nat>)
    ensures r.Some? ==> r.value < |v| && !IsSpace(v[r.value]) && forall j :: r.value < j < |v| ==> IsSpace(v[j])
    ensures r.None? ==> forall j :: 0 <= j < |v| ==> IsSpace(v[j])
  {
    if v == [] then None
    else if !IsSpace(v[|v| - 1]) then Some(|v| - 1)
    else LastNonSpace(v[..|v| - 1])
  }

  /** What the backwards scan over a value decides: pass it, drop it, or read before its first byte. */
  datatype Scan = Pass | Drop | Underflow

  /**
   * Whether an entry's value becomes a module argument.  As written the
   * scan for the last non-blank character does not stop at the start of
   * the value, so a value of blanks only reads before it, and a prefilled
   * `io=0x` left as it is ends in `x` and is passed on.  Corrected, a
   * blank value and a value that is still its prefill are dropped.
   */
  function ScanValue(v: Option<string>, prefill: Option<string>, variant: Variant): (s: Scan)
    ensures variant == Corrected ==> s != Underflow
    ensures s == Pass ==> v.Some? && LastNonSpace(v.value).Some? && v.value[LastNonSpace(v.value).value] != '='
    ensures s == Underflow <==> variant == AsWritten && v.Some? && v.value != [] && LastNonSpace(v.value).None?
  {
    if v.None? || v.value == [] then Drop
    else match LastNonSpace(v.value)
      case None => if variant == AsWritten then Underflow else Drop
      case Some(i) =>
        if v.value[i] == '=' then Drop
        else if variant == Corrected && prefill == Some(v.value[..i + 1]) then Drop
        else Pass
  }

  /** The values that become arguments, in order; None when a scan reads before a value. */
  function KeptValues(values: seq<Option<string>>, prefills: seq<Option<string>>, variant: Variant)
    : (r: Option<seq<string>>)
    requires |values| == |prefills|
    ensures variant == Corrected ==> r.Some?
    ensures r.Some? ==> |r.value| <= |values|
    ensures r.Some? ==> forall k :: 0 <= k < |r.value| ==> r.value[k] in ValueSet(values)
    decreases |values|
  {
    if values == [] then Some([])
    else
      match KeptValues(values[..|values| - 1], prefills[..|prefills| - 1], variant)
      case None => None
      case Some(kept) =>
        var last := values[|values| - 1];
        match ScanValue(last, prefills[|prefills| - 1], variant)
        case Underflow => None
        case Drop => Some(kept)
        case Pass => Some(kept + [last.value])
  }

  /** The strings among the entries' values. */
  function ValueSet(values: seq<Option<string>>): set<string> {
    set k | 0 <= k < |values| && values[k].Some? :: values[k].value
  }

  /** The number of white-space characters in `s`, which getModuleArgs counts to size the argument array. */
  function SpaceCount(s: string): (n: nat)
    ensures n <= |s|
  {
    if s == [] then 0 else (if IsSpace(s[0]) then 1 else 0) + SpaceCount(s[1..])
  }

  /** A leading blank does not change the words. */
  lemma WordsSkipSpace(s: string)
    requires s != [] && IsSpace(s[0])
    ensures Words(s) == Words(s[1..])
  {
    assert TrimLeft(s) == TrimLeft(s[1..]);
  }

  /** A word starting `s` runs to the first blank. */
  lemma WordsStep(s: string, e: nat)
    requires s != [] && !IsSpace(s[0])
    requires e <= |s| && (forall j :: 0 <= j < e ==> !IsSpace(s[j])) && (e < |s| ==> IsSpace(s[e]))
    ensures Words(s) == [s[..e]] + Words(s[e..])
  {
    assert TrimLeft(s) == s;
    WordLengthIs(s, e);
  }

  lemma {:induction false} WordLengthIs(t: string, e: nat)
    requires e <= |t| && (forall j :: 0 <= j < e ==> !IsSpace(t[j])) && (e < |t| ==> IsSpace(t[e]))
    ensures WordLength(t) == e
    decreases e
  {
    if e > 0 {
      WordLengthIs(t[1..], e - 1);
    }
  }

  lemma {:induction false} SpaceCountSuffix(s: string, k: nat)
    requires k <= |s|
    ensures SpaceCount(s[k..]) <= SpaceCount(s)
    decreases k
  {
    if k > 0 {
      assert s[1..][k - 1..] == s[k..];
      SpaceCountSuffix(s[1..], k - 1);
    }
  }

  /**
   * The free-form field has at most one word more than it has blanks,
   * so the argument array getModuleArgs reallocates (the kept values,
   * one more than the blanks, and the NULL) holds every word.
   */
  lemma {:induction false} WordsFit(s: string)
    ensures |Words(s)| <= SpaceCount(s) + 1
    decreases |s|
  {
    if s == [] {
    } else if IsSpace(s[0]) {
      WordsSkipSpace(s);
      WordsFit(s[1..]);
    } else {
      var e := WordLength(s);
      WordsStep(s, e);
      if e < |s| {
        WordsSkipSpace(s[e..]);
        assert s[e..][1..] == s[e + 1..];
        WordsFit(s[e + 1..]);
        assert SpaceCount(s[e..]) == 1 + SpaceCount(s[e + 1..]);
        SpaceCountSuffix(s, e);
      } else {
        assert s[e..] == [];
      }
    }
  }

  /** The outcome of the parameter form. */
  datatype ArgsResult = ArgsBack | Args(args: seq<string>) | ArgsFault

  function Prefills(mod: ModuleInfo): (r: seq<Option<string>>)
    ensures |r| == |mod.args|
    ensures forall k :: 0 <= k < |r| ==> r[k] == Prefill(mod.args[k])
  {
    seq(|mod.args|, k requires 0 <= k < |mod.args| => Prefill(mod.args[k]))
  }

  /**
   * getModuleArgs: Back (button 2) gives LOADER_BACK; otherwise the
   * named values that pass the scan, then the words of the free-form
   * field when the module takes one.
   */
  function ModuleArgs(mod: ModuleInfo, rc: int, values: seq<Option<string>>, misc: Option<string>, variant: Variant)
    : (r: ArgsResult)
    requires |values| == |mod.args|
    ensures rc == 2 <==> r == ArgsBack
    ensures variant == Corrected ==> !r.ArgsFault?
    ensures r.Args? && (mod.noMiscArgs || misc.None?) ==> |r.args| <= |values|
  {
    if rc == 2 then ArgsBack
    else match KeptValues(values, Prefills(mod), variant)
      case None => ArgsFault
      case Some(kept) =>
        Args(kept + (if !mod.noMiscArgs && misc.Some? then Words(misc.value) else []))
  }

  /**
   * As written, a value of blanks only makes the scan read before the
   * value (here the only parameter, with the free-form field refused).
   */
  lemma BlankValueUnderflowsAsWritten(desc: string)
    ensures var mod := ModuleInfo("m", "d", 0, [ModArg(None, desc)], true);
            ModuleArgs(mod, 0, [Some(" ")], None, AsWritten) == ArgsFault
            && ModuleArgs(mod, 0, [Some(" ")], None, Corrected) == Args([])
  {
    var mod := ModuleInfo("m", "d", 0, [ModArg(None, desc)], true);
    assert LastNonSpace(" ") == None by { assert LastNonSpace(" "[..0]) == None; }
    assert [Some(" ")][..0] == [];
    assert Prefills(mod)[..0] == [];
  }

  /**
   * As written, an `io` parameter left at its prefill `io=0x` is passed to
   * the module; corrected, it is dropped like every untouched prefill.
   */
  lemma UntouchedIoPassedAsWritten(desc: string)
    ensures var mod := ModuleInfo("m", "d", 0, [ModArg(Some("io"), desc)], true);
            ModuleArgs(mod, 0, [Some("io=0x")], None, AsWritten) == Args(["io=0x"])
            && ModuleArgs(mod, 0, [Some("io=0x")], None, Corrected) == Args([])
  {
    var mod := ModuleInfo("m", "d", 0, [ModArg(Some("io"), desc)], true);
    var v := "io=0x";
    assert !IsSpace(v[4]) && v[4] != '=';
    assert LastNonSpace(v) == Some(4);
    assert v[..5] == v;
    assert "io" + "=0x" == v;
    assert Prefills(mod) == [Some(v)];
    assert [Some(v)][..0] == [];
    assert ScanValue(Some(v), Some(v), AsWritten) == Pass;
    assert ScanValue(Some(v), Some(v), Corrected) == Drop;
    assert KeptValues([Some(v)][..0], [Some(v)][..0], AsWritten) == Some([]);
    assert [] + [v] == [v];
    assert KeptValues([Some(v)], [Some(v)], AsWritten) == Some([v]);
    assert KeptValues([Some(v)], [Some(v)], Corrected) == Some([]);
  }

  /** Corrected, no prefilled value the user left as it is reaches the module. */
  lemma UntouchedPrefillsDropped(mod: ModuleInfo, rc: int, misc: Option<string>)
    requires rc != 2 && (mod.noMiscArgs || misc.None?)
    requires forall k :: 0 <= k < |mod.args| ==> mod.args[k].arg.Some?
    ensures ModuleArgs(mod, rc, Prefills(mod), misc, Corrected) == Args([])
  {
    PrefillsDropped(Prefills(mod), Prefills(mod));
  }

  /** A value that ends in `=`, or whose last character is not blank. */
  predicate PrefillShaped(v: Option<string>) {
    v.Some? && v.value != []
    && (v.value[|v.value| - 1] == '=' || LastNonSpace(v.value) == Some(|v.value| - 1))
  }

  lemma {:induction false} PrefillsDropped(values: seq<Option<string>>, prefills: seq<Option<string>>)
    requires values == prefills
    requires forall k :: 0 <= k < |values| ==> PrefillShaped(values[k])
    ensures KeptValues(values, prefills, Corrected) == Some([])
    decreases |values|
  {
    if values != [] {
      var n := |values| - 1;
      PrefillsDropped(values[..n], prefills[..n]);
      var v := values[n].value;
      if LastNonSpace(v) == Some(|v| - 1) {
        assert v[..|v|] == v;
      }
    }
  }

  /**
   * getModuleArgs with its loops (the corrected scan): Back, or the kept
   * values followed by the words of the free-form field, split at white
   * space character by character.
   */
  method GetModuleArgs(mod: ModuleInfo, rc: int, values: seq<Option<string>>, misc: Option<string>)
    returns (r: ArgsResult)
    requires |values| == |mod.args|
    ensures r == ModuleArgs(mod, rc, values, misc, Corrected)
  {
    if rc == 2 {
      return ArgsBack;
    }
    var args := KeepValues(values, Prefills(mod));
    if !mod.noMiscArgs && misc.Some? {
      var words := SplitWords(misc.value);
      args := args + words;
    }
    r := Args(args);
  }

  /** The first loop of getModuleArgs: the values that pass the corrected scan. */
  method KeepValues(values: seq<Option<string>>, prefills: seq<Option<string>>) returns (args: seq<string>)
    requires |values| == |prefills|
    ensures Some(args) == KeptValues(values, prefills, Corrected)
  {
    args := [];
    var i := 0;
    while i < |values|
      invariant 0 <= i <= |values|
      invariant KeptValues(values[..i], prefills[..i], Corrected) == Some(args)
    {
      assert values[..i + 1][..i] == values[..i] && prefills[..i + 1][..i] == prefills[..i];
      assert values[..i + 1][i] == values[i] && prefills[..i + 1][i] == prefills[i];
      if ScanValue(values[i], prefills[i], Corrected) == Pass {
        args := args + [values[i].value];
      }
      i := i + 1;
    }
    assert values[..i] == values && prefills[..i] == prefills;
  }

  /** The second loop of getModuleArgs: the free-form field cut into words at white space. */
  method SplitWords(s: string) returns (words: seq<string>)
    ensures words == Words(s)
  {
    words := [];
    var pos := 0;
    assert s[pos..] == s;
    while pos < |s|
      invariant 0 <= pos <= |s|
      invariant words + Words(s[pos..]) == Words(s)
      decreases |s| - pos
    {
      pos := SkipSpaces(s, pos);
      if pos == |s| {
        break;
      }
      var end := WordEnd(s, pos);
      NextWord(words, s, pos, end);
      words := words + [s[pos..end]];
      pos := end;
    }
    assert s[pos..] == [];
  }

  /** The first character at or after `pos` that is not blank (or the end); the words from there are the same. */
  method SkipSpaces(s: string, pos: nat) returns (p: nat)
    requires pos <= |s|
    ensures pos <= p <= |s| && (p < |s| ==> !IsSpace(s[p]))
    ensures Words(s[p..]) == Words(s[pos..])
  {
    p := pos;
    while p < |s| && IsSpace(s[p])
      invariant pos <= p <= |s|
      invariant Words(s[p..]) == Words(s[pos..])
    {
      SpaceAt(s, p);
      p := p + 1;
    }
  }

  /** The end of the word that starts at `pos`. */
  method WordEnd(s: string, pos: nat) returns (end: nat)
    requires pos < |s| && !IsSpace(s[pos])
    ensures pos < end <= |s| && (end < |s| ==> IsSpace(s[end]))
    ensures forall j :: pos <= j < end ==> !IsSpace(s[j])
  {
    end := pos;
    while end < |s| && !IsSpace(s[end])
      invariant pos <= end <= |s|
      invariant forall j :: pos <= j < end ==> !IsSpace(s[j])
    {
      end := end + 1;
    }
  }

  lemma NextWord(words: seq<string>, s: string, pos: nat, end: nat)
    requires pos < end <= |s|
    requires (forall j :: pos <= j < end ==> !IsSpace(s[j])) && (end < |s| ==> IsSpace(s[end]))
    requires words + Words(s[pos..]) == Words(s)
    ensures words + [s[pos..end]] + Words(s[end..]) == Words(s)
  {
    WordAt(s, pos, end);
    ConcatAssoc(words, [s[pos..end]], Words(s[end..]));
  }

  lemma ConcatAssoc<T>(a: seq<T>, b: seq<T>, c: seq<T>)
    ensures a + b + c == a + (b + c)
  {
  }

  /** A blank at `pos` in `s` does not change the words from there. */
  lemma SpaceAt(s: string, pos: nat)
    requires pos < |s| && IsSpace(s[pos])
    ensures Words(s[pos..]) == Words(s[pos + 1..])
  {
    WordsSkipSpace(s[pos..]);
    assert s[pos..][1..] == s[pos + 1..];
  }

  /** The word starting at `pos` in `s` runs to `end`. */
  lemma WordAt(s: string, pos: nat, end: nat)
    requires pos < end <= |s|
    requires (forall j :: pos <= j < end ==> !IsSpace(s[j])) && (end < |s| ==> IsSpace(s[end]))
    ensures Words(s[pos..]) == [s[pos..end]] + Words(s[end..])
  {
    var t := s[pos..];
    var e := end - pos;
    assert t[..e] == s[pos..end];
    assert t[e..] == s[end..];
    forall j | 0 <= j < e ensures !IsSpace(t[j]) {
      assert t[j] == s[pos + j];
    }
    WordsStep(t, e);
  }

  /* ---------------------------------------------------------------- */
  /* pickModule                                                        */

  /** strcmp(a, b) <= 0: `a` sorts no later than `b`. */
  predicate StrLe(a: string, b: string)
    decreases |a|
  {
    a == [] || (b != [] && (a[0] < b[0] || (a[0] == b[0] && StrLe(a[1..], b[1..]))))
  }

  lemma {:induction false} StrLeTotal(a: string, b: string)
    ensures StrLe(a, b) || StrLe(b, a)
    decreases |a|
  {
    if a != [] && b != [] && a[0] == b[0] {
      StrLeTotal(a[1..], b[1..]);
    }
  }

  predicate InRange(mods: seq<ModuleInfo>, idx: seq<nat>) {
    forall k :: 0 <= k < |idx| ==> idx[k] < |mods|
  }

  /** The indices are in order of description. */
  predicate SortedByDescription(mods: seq<ModuleInfo>, idx: seq<nat>)
    requires InRange(mods, idx)
  {
    forall k :: 0 <= k < |idx| - 1 ==> StrLe(mods[idx[k]].description, mods[idx[k + 1]].description)
  }

  /** The modules the menu offers: of the requested class and not loaded yet, in table order. */
  function Candidates(mods: seq<ModuleInfo>, major: nat, loaded: set<string>): (r: seq<nat>)
    ensures InRange(mods, r)
    ensures forall k :: 0 <= k < |r| ==> mods[r[k]].major == major && mods[r[k]].moduleName !in loaded
    ensures forall i :: 0 <= i < |mods| && mods[i].major == major && mods[i].moduleName !in loaded ==> i in r
    ensures forall k, l :: 0 <= k < l < |r| ==> r[k] < r[l]
    decreases |mods|
  {
    if mods == [] then []
    else
      var n := |mods| - 1;
      var front := Candidates(mods[..n], major, loaded);
      assert forall i :: 0 <= i < n ==> mods[..n][i] == mods[i];
      if mods[n].major == major && mods[n].moduleName !in loaded then front + [n] else front
  }

  function InsertByDescription(mods: seq<ModuleInfo>, x: nat, s: seq<nat>): (r: seq<nat>)
    requires x < |mods| && InRange(mods, s) && SortedByDescription(mods, s)
    ensures InRange(mods, r) && SortedByDescription(mods, r)
    ensures multiset(r) == multiset(s) + multiset{x}
    ensures |r| == |s| + 1 && (r[0] == x || (s != [] && r[0] == s[0]))
    decreases |s|
  {
    if s == [] || StrLe(mods[x].description, mods[s[0]].description) then [x] + s
    else
      StrLeTotal(mods[x].description, mods[s[0]].description);
      var rest := InsertByDescription(mods, x, s[1..]);
      assert s == [s[0]] + s[1..];
      [s[0]] + rest
  }

  /**
   * The qsort of the candidates by description.  qsort leaves the order of
   * modules with equal descriptions unspecified; this insertion sort fixes
   * one such order, and the contract states only what any qsort result
   * shares: sorted by description and a permutation of the candidates.
   */
  function SortByDescription(mods: seq<ModuleInfo>, s: seq<nat>): (r: seq<nat>)
    requires InRange(mods, s)
    ensures InRange(mods, r) && SortedByDescription(mods, r)
    ensures multiset(r) == multiset(s)
    decreases |s|
  {
    if s == [] then []
    else
      assert s == [s[0]] + s[1..];
      InsertByDescription(mods, s[0], SortByDescription(mods, s[1..]))
  }

  /** How the driver menu was left. */
  datatype PickExit = PickBack | PickF2 | PickOk

  /**
   * The answers for one pass of pickModule: the module table and the
   * loaded modules as they are on that pass, what loading a driver disk
   * returns, how the menu was left, the entry chosen and the state of
   * "Specify module parameters".
   */
  datatype PickReply = PickReply(mods: seq<ModuleInfo>, loaded: set<string>, diskRc: int,
                                 exit: PickExit, selection: nat, specify: bool)

  predicate PickWellFormed(r: PickReply, major: nat) {
    var c := Candidates(r.mods, major, r.loaded);
    |c| > 0 ==> r.selection < |c|
  }

  /** The result of pickModule: a return code, the module chosen, or no answers left. */
  datatype PickOutcome = PickRc(rc: int) | Picked(mod: ModuleInfo, specify: bool) | PickExhausted

  /** The menu of one pass: the candidates sorted by description. */
  function Menu(r: PickReply, major: nat): (m: seq<nat>)
    ensures InRange(r.mods, m) && SortedByDescription(r.mods, m)
    ensures multiset(m) == multiset(Candidates(r.mods, major, r.loaded))
  {
    SortByDescription(r.mods, Candidates(r.mods, major, r.loaded))
  }

  /**
   * pickModule's loop: with no candidates a driver disk is demanded (its
   * error returns, otherwise the menu is rebuilt); Back returns
   * LOADER_BACK; F2 loads a driver disk and rebuilds the menu; anything
   * else picks the highlighted entry.
   */
  function PickModule(major: nat, rs: seq<PickReply>): (o: PickOutcome)
    requires forall k :: 0 <= k < |rs| ==> PickWellFormed(rs[k], major)
    ensures o.Picked? ==> exists k :: 0 <= k < |rs| && o.mod in rs[k].mods && o.mod.major == major
                                       && o.mod.moduleName !in rs[k].loaded
    decreases |rs|
  {
    if rs == [] then PickExhausted
    else
      var r := rs[0];
      assert PickWellFormed(r, major);
      var c := Candidates(r.mods, major, r.loaded);
      if |c| == 0 then
        if r.diskRc != 0 then PickRc(r.diskRc) else Later(major, rs)
      else if r.exit == PickBack then PickRc(LoaderBack)
      else if r.exit == PickF2 then Later(major, rs)
      else
        var m := Menu(r, major);
        assert m[r.selection] in multiset(c);
        var i := m[r.selection];
        assert i in c;
        Picked(r.mods[i], r.specify)
  }

  /** The rest of the loop after a pass that rebuilt the menu. */
  function Later(major: nat, rs: seq<PickReply>): (o: PickOutcome)
    requires rs != [] && forall k :: 0 <= k < |rs| ==> PickWellFormed(rs[k], major)
    ensures o.Picked? ==> exists k :: 0 <= k < |rs| && o.mod in rs[k].mods && o.mod.major == major
                                       && o.mod.moduleName !in rs[k].loaded
    decreases |rs|, 0
  {
    assert forall k :: 0 <= k < |rs[1..]| ==> rs[1..][k] == rs[k + 1];
    PickModule(major, rs[1..])
  }

  /**
   * The menu lists exactly the modules of the class that are not loaded
   * (each once) in order of description; an empty list goes straight to
   * the driver disk.
   */
  lemma MenuContents(r: PickReply, major: nat)
    ensures var m := Menu(r, major);
            && (forall i :: i in m <==> 0 <= i < |r.mods| && r.mods[i].major == major && r.mods[i].moduleName !in r.loaded)
            && (forall k, l :: 0 <= k < l < |m| ==> m[k] != m[l])
  {
    var c := Candidates(r.mods, major, r.loaded);
    var m := Menu(r, major);
    SameMembers(m, c);
    SameCountsDistinct(m, c);
  }

  lemma SameMembers(m: seq<nat>, c: seq<nat>)
    requires multiset(m) == multiset(c)
    ensures forall i :: i in m <==> i in c
  {
    forall i ensures i in m <==> i in c {
      assert i in m <==> i in multiset(m);
      assert i in c <==> i in multiset(c);
    }
  }

  /** A rearrangement of an increasing sequence repeats nothing. */
  lemma SameCountsDistinct(m: seq<nat>, c: seq<nat>)
    requires multiset(m) == multiset(c)
    requires forall k, l :: 0 <= k < l < |c| ==> c[k] < c[l]
    ensures forall k, l :: 0 <= k < l < |m| ==> m[k] != m[l]
  {
    forall k, l | 0 <= k < l < |m| ensures m[k] != m[l] {
      DistinctCount(c, m[k]);
      if m[k] == m[l] {
        TwiceCounted(m, k, l);
      }
    }
  }

  lemma TwiceCounted(m: seq<nat>, k: nat, l: nat)
    requires k < l < |m| && m[k] == m[l]
    ensures multiset(m)[m[k]] >= 2
  {
    var x := m[k];
    assert m == m[..l] + [x] + m[l + 1..];
    assert x in m[..l];
  }

  /** An increasing sequence holds each value at most once. */
  lemma {:induction false} DistinctCount(s: seq<nat>, x: nat)
    requires forall k, l :: 0 <= k < l < |s| ==> s[k] < s[l]
    ensures multiset(s)[x] <= 1
    decreases |s|
  {
    if s != [] {
      var n := |s| - 1;
      DistinctCount(s[..n], x);
      assert s == s[..n] + [s[n]];
      if s[n] == x {
        assert x !in s[..n];
      }
    }
  }

  /** The loop filling pickModule's list: the modules of the class not yet loaded, in table order. */
  method CollectCandidates(mods: seq<ModuleInfo>, major: nat, loaded: set<string>) returns (c: seq<nat>)
    ensures c == Candidates(mods, major, loaded)
  {
    c := [];
    var i := 0;
    while i < |mods|
      invariant 0 <= i <= |mods|
      invariant c == Candidates(mods[..i], major, loaded)
    {
      assert mods[..i + 1][..i] == mods[..i];
      assert mods[..i + 1][i] == mods[i];
      if mods[i].major == major && mods[i].moduleName !in loaded {
        c := c + [i];
      }
      i := i + 1;
    }
    assert mods[..i] == mods;
  }

  /** pickModule with its loops: one pass per answer; the candidate list is filled in table order, then sorted. */
  method PickModuleLoop(major: nat, rs: seq<PickReply>) returns (o: PickOutcome)
    requires forall k :: 0 <= k < |rs| ==> PickWellFormed(rs[k], major)
    ensures o == PickModule(major, rs)
  {
    var p := 0;
    while p < |rs|
      invariant 0 <= p <= |rs|
      invariant PickModule(major, rs) == PickModule(major, rs[p..])
    {
      var r := rs[p];
      assert rs[p..][0] == r && rs[p..][1..] == rs[p + 1..];
      var sorted := CollectCandidates(r.mods, major, r.loaded);
      if |sorted| == 0 {
        if r.diskRc != 0 {
          return PickRc(r.diskRc);
        }
      } else {
        sorted := SortByDescription(r.mods, sorted);
        if r.exit == PickBack {
          return PickRc(LoaderBack);
        } else if r.exit == PickOk {
          return Picked(r.mods[sorted[r.selection]], r.specify);
        }
      }
      p := p + 1;
    }
    assert rs[p..] == [];
    o := PickExhausted;
  }

  /* ---------------------------------------------------------------- */
  /* devDeviceMenu                                                     */

  datatype MenuStage = SModule | SArgs | SDone

  /**
   * The answers for one pass of devDeviceMenu: the passes of pickModule
   * (on S_MODULE), or the parameter form's button and values (on S_ARGS).
   */
  datatype DevReply = DevReply(picks: seq<PickReply>, argsRc: int, values: seq<Option<string>>, misc: Option<string>)

  predicate DevWellFormed(r: DevReply, major: nat) {
    forall k :: 0 <= k < |r.picks| ==> PickWellFormed(r.picks[k], major)
  }

  /** The loop's state: the stage, the module chosen, its arguments, and whether it returned early. */
  datatype Dev = Dev(stage: MenuStage, mod: Option<ModuleInfo>, specify: bool, args: seq<string>,
                     back: bool, exhausted: bool)

  const DevStart: Dev := Dev(SModule, None, false, [], false, false)

  predicate DevValid(d: Dev) { d.stage != SModule ==> d.mod.Some? }

  /** One pass of `while (stage != S_DONE)`. */
  function DevStep(d: Dev, r: DevReply, major: nat): (n: Dev)
    requires DevValid(d) && DevWellFormed(r, major)
    ensures DevValid(n)
  {
    match d.stage
    case SModule =>
      (match PickModule(major, r.picks)
       case PickRc(_) => d.(back := true)
       case PickExhausted => d.(exhausted := true)
       case Picked(m, sp) => d.(stage := SArgs, mod := Some(m), specify := sp))
    case SArgs =>
      if !d.specify then d.(stage := SDone)
      else if |r.values| != |d.mod.value.args| then d.(exhausted := true)
      else
        (match ModuleArgs(d.mod.value, r.argsRc, r.values, r.misc, Corrected)
         case Args(a) => d.(stage := SDone, args := a)
         case _ => d.(stage := SModule))
    case SDone => d
  }

  predicate DevStopped(d: Dev) { d.stage == SDone || d.back || d.exhausted }

  function DevRun(d: Dev, rs: seq<DevReply>, major: nat): (n: Dev)
    requires DevValid(d) && forall k :: 0 <= k < |rs| ==> DevWellFormed(rs[k], major)
    ensures DevValid(n)
    decreases |rs|
  {
    if DevStopped(d) || rs == [] then d
    else
      assert DevWellFormed(rs[0], major);
      assert forall k :: 0 <= k < |rs[1..]| ==> rs[1..][k] == rs[k + 1];
      DevRun(DevStep(d, rs[0], major), rs[1..], major)
  }

  /** The result of devDeviceMenu: LOADER_BACK, or the module loader's code (and the module's name on success). */
  datatype MenuResult = MenuResult(rc: int, moduleName: Option<string>, args: seq<string>)

  /**
   * devDeviceMenu: Back from the driver menu returns LOADER_BACK; Back
   * from the parameters returns to the menu; once a module is chosen (and
   * its parameters given) it is loaded with them, and its name is
   * reported when loading succeeds.
   */
  function DeviceMenu(rs: seq<DevReply>, major: nat, loadRc: int): (r: Option<MenuResult>)
    requires forall k :: 0 <= k < |rs| ==> DevWellFormed(rs[k], major)
    ensures r.Some? && r.value.moduleName.Some? ==> r.value.rc == 0
  {
    var d := DevRun(DevStart, rs, major);
    if d.back then Some(MenuResult(LoaderBack, None, []))
    else if d.stage != SDone then None
    else Some(MenuResult(loadRc, if loadRc == 0 then Some(d.mod.value.moduleName) else None, d.args))
  }

  /** Back from the parameter form goes back to the driver menu, keeping the module chosen for its highlight. */
  lemma ArgsBackToMenu(d: Dev, r: DevReply, major: nat)
    requires DevValid(d) && DevWellFormed(r, major) && d.stage == SArgs && d.specify
    requires |r.values| == |d.mod.value.args| && r.argsRc == 2
    ensures DevStep(d, r, major).stage == SModule && DevStep(d, r, major).mod == d.mod
  {
  }

  /** A module chosen without asking for parameters is loaded with none. */
  lemma NoParametersNoArgs(d: Dev, r: DevReply, major: nat)
    requires DevValid(d) && DevWellFormed(r, major) && d.stage == SArgs && !d.specify
    ensures DevStep(d, r, major).stage == SDone && DevStep(d, r, major).args == d.args
  {
  }

  /** The stages only move S_MODULE → S_ARGS → S_DONE, or back from S_ARGS to S_MODULE. */
  lemma StageOrder(d: Dev, r: DevReply, major: nat)
    requires DevValid(d) && DevWellFormed(r, major) && !DevStopped(d)
    ensures var n := DevStep(d, r, major);
            (d.stage == SModule ==> n.stage in {SModule, SArgs})
            && (d.stage == SArgs ==> n.stage in {SModule, SDone} || n.exhausted)
            && (n.stage == SArgs ==> n.mod.Some? && (d.stage == SModule || n.exhausted))
  {
  }

  /* ---------------------------------------------------------------- */
  /* Driver disks                                                      */

  /** The files a driver disk must have. */
  const RequiredFiles: seq<string> := ["rhdd-6.1", "modinfo", "modules.dep", "pcitable"]

  /** What the mounted disk holds: the readable files, the title file and the module information file. */
  datatype DiskFiles = DiskFiles(readable: set<string>, rhdd: string, modinfo: string)

  /** A driver disk is good when every required file is readable and the title file is not empty. */
  predicate GoodDisk(disk: DiskFiles) {
    (forall f :: f in RequiredFiles ==> f in disk.readable) && disk.rhdd != []
  }

  /** The title: the title file without one trailing newline. */
  function DiskTitle(rhdd: string): (t: string)
    requires rhdd != []
    ensures rhdd == t + "\n" || rhdd == t
    ensures |t| + 1 >= |rhdd|
  {
    if rhdd[|rhdd| - 1] == '\n' then rhdd[..|rhdd| - 1] else rhdd
  }

  /** What the loader records about a driver disk. */
  datatype DiskInfo = DiskInfo(title: string, mntDevice: string, fs: string, device: Option<string>)

  /** The diskInfo file: title, mount device, file system and device (or "(NONE)"), one per line. */
  function DiskInfoText(d: DiskInfo): string {
    d.title + "\n" + d.mntDevice + "\n" + d.fs + "\n" + d.device.GetOr("(NONE)") + "\n"
  }

  /** readLine: the text up to the next newline, and what follows it. */
  function ReadLine(s: string): (r: (string, string))
    ensures |r.1| < |s| || s == []
  {
    match FindChar(s, '\n')
    case None => (s, [])
    case Some(i) => (s[..i], s[i + 1..])
  }

  /** ddReadDriverDiskModInfo's reading of a diskInfo file; "(NONE)" stands for no device. */
  function ReadDiskInfo(text: string): DiskInfo {
    var (title, r1) := ReadLine(text);
    var (mnt, r2) := ReadLine(r1);
    var (fs, r3) := ReadLine(r2);
    var (dev, _) := ReadLine(r3);
    DiskInfo(title, mnt, fs, if dev == "(NONE)" then None else Some(dev))
  }

  /** The fields fit on one line each and a device is not called "(NONE)". */
  predicate Writable(d: DiskInfo) {
    '\n' !in d.title && '\n' !in d.mntDevice && '\n' !in d.fs
    && (d.device.Some? ==> '\n' !in d.device.value && d.device.value != "(NONE)")
  }

  lemma ReadLineOf(line: string, rest: string)
    requires '\n' !in line
    ensures ReadLine(line + "\n" + rest) == (line, rest)
  {
    var s := line + "\n" + rest;
    assert s[..|line|] == line;
    FindCharAt(s, '\n', |line|);
    assert s[|line| + 1..] == rest;
  }

  /** A diskInfo file reads back as what was written. */
  lemma DiskInfoRoundTrip(d: DiskInfo)
    requires Writable(d)
    ensures ReadDiskInfo(DiskInfoText(d)) == d
  {
    var dev := d.device.GetOr("(NONE)");
    assert '\n' !in dev by {
      if d.device.None? {
        assert "(NONE)" == ['(', 'N', 'O', 'N', 'E', ')'];
      }
    }
    var r3 := dev + "\n";
    var r2 := d.fs + "\n" + r3;
    var r1 := d.mntDevice + "\n" + r2;
    assert DiskInfoText(d) == d.title + "\n" + r1;
    ReadLineOf(d.title, r1);
    ReadLineOf(d.mntDevice, r2);
    ReadLineOf(d.fs, r3);
    assert r3 == dev + "\n" + [];
    ReadLineOf(dev, []);
  }

  /** The diskInfo files of the driver disks, by number, and the names of the files in each directory. */
  const ModInfoFile: string := "modinfo"
  const DiskInfoFile: string := "diskInfo"
  const DiskNameFile: string := "diskName"

  /**
   * The driver disks loaded so far: the static counter of
   * devInitDriverDisk and the files saved under /tmp/DD-<n>.
   */
  class DriverDisks {
    var ddNum: nat
    var saved: map<(nat, string), string>
    ghost var infos: seq<DiskInfo>

    /** Each disk numbered below the counter has its module information and its diskInfo, and nothing else is saved. */
    ghost predicate Valid()
      reads this
    {
      && |infos| == ddNum
      && (forall k :: k in saved ==> k.0 < ddNum && (k.1 == ModInfoFile || k.1 == DiskInfoFile))
      && (forall n :: 0 <= n < ddNum ==> (n, ModInfoFile) in saved && (n, DiskInfoFile) in saved
                                         && saved[(n, DiskInfoFile)] == DiskInfoText(infos[n]))
    }

    constructor ()
      ensures Valid() && ddNum == 0 && saved == map[] && infos == []
    {
      ddNum := 0;
      saved := map[];
      infos := [];
    }

    /**
     * devInitDriverDisk: a disk missing a required file or with an empty
     * title file returns 1; otherwise its title is read, its module
     * information saved and its diskInfo written under the next number
     * (unless copying the module information fails), and 0 is returned.
     */
    method InitDriverDisk(disk: DiskFiles, mntDevice: string, fs: string, device: Option<string>, copyOk: bool)
      returns (rc: int, title: Option<string>)
      requires Valid()
      modifies this
      ensures Valid()
      ensures rc == 1 <==> !GoodDisk(disk)
      ensures rc == 0 || rc == 1
      ensures rc == 0 ==> title == Some(DiskTitle(disk.rhdd))
      ensures rc == 1 || !copyOk ==> ddNum == old(ddNum) && saved == old(saved) && infos == old(infos)
      ensures rc == 0 && copyOk ==>
                && ddNum == old(ddNum) + 1
                && infos == old(infos) + [DiskInfo(title.value, mntDevice, fs, device)]
                && saved == old(saved)[(old(ddNum), ModInfoFile) := disk.modinfo]
                                      [(old(ddNum), DiskInfoFile) := DiskInfoText(infos[old(ddNum)])]
    {
      var bad := false;
      var i := 0;
      while i < |RequiredFiles|
        invariant 0 <= i <= |RequiredFiles|
        invariant bad <==> exists j :: 0 <= j < i && RequiredFiles[j] !in disk.readable
      {
        if RequiredFiles[i] !in disk.readable {
          bad := true;
        }
        i := i + 1;
      }
      if disk.rhdd == [] {
        bad := true;
      }
      if bad {
        return 1, None;
      }
      var t := DiskTitle(disk.rhdd);
      title := Some(t);
      rc := 0;
      if !copyOk {
        return;
      }
      var info := DiskInfo(t, mntDevice, fs, device);
      saved := saved[(ddNum, ModInfoFile) := disk.modinfo][(ddNum, DiskInfoFile) := DiskInfoText(info)];
      infos := infos + [info];
      ddNum := ddNum + 1;
    }

    /**
     * ddReadDriverDiskModInfo: reads /tmp/DD-0/diskInfo, then, for each
     * next number, the file named as the variant says, while it exists.
     * As written the next name is "diskName", a file nothing writes.
     */
    method ReadDriverDiskModInfo(variant: Variant) returns (read: seq<DiskInfo>)
      requires Valid()
      ensures variant == Corrected ==> read == ReadAll(infos)
      ensures variant == AsWritten ==> read == ReadAll(infos[..if ddNum == 0 then 0 else 1])
    {
      var num := 0;
      var name := DiskInfoFile;
      read := [];
      while (num, name) in saved
        invariant Valid()
        invariant 0 <= num <= ddNum
        invariant read == ReadAll(infos[..num])
        invariant name == DiskInfoFile || name == DiskNameFile
        invariant variant == Corrected ==> name == DiskInfoFile
        invariant num == 0 ==> name == DiskInfoFile
        invariant variant == AsWritten && num > 0 ==> name == DiskNameFile
        invariant variant == AsWritten ==> num <= 1
        decreases ddNum - num
      {
        assert name == DiskInfoFile && num < ddNum;
        assert saved[(num, name)] == DiskInfoText(infos[num]);
        read := read + [ReadDiskInfo(saved[(num, name)])];
        ReadAllStep(infos, num);
        num := num + 1;
        name := if variant == AsWritten then DiskNameFile else DiskInfoFile;
      }
      if variant == Corrected {
        assert num < ddNum ==> (num, DiskInfoFile) in saved;
        assert infos[..num] == infos;
      } else if num == 0 {
        assert ddNum > 0 ==> (0, DiskInfoFile) in saved;
      }
    }
  }

  /** What reading back the diskInfo files of the given disks yields. */
  function ReadAll(infos: seq<DiskInfo>): (r: seq<DiskInfo>)
    ensures |r| == |infos|
    ensures forall n :: 0 <= n < |infos| ==> r[n] == ReadDiskInfo(DiskInfoText(infos[n]))
  {
    if infos == [] then [] else ReadAll(infos[..|infos| - 1]) + [ReadDiskInfo(DiskInfoText(infos[|infos| - 1]))]
  }

  lemma ReadAllStep(infos: seq<DiskInfo>, num: nat)
    requires num < |infos|
    ensures ReadAll(infos[..num + 1]) == ReadAll(infos[..num]) + [ReadDiskInfo(DiskInfoText(infos[num]))]
  {
    assert infos[..num + 1][..num] == infos[..num];
  }

  /** Disks whose details fit on a line each are read back exactly as they were recorded. */
  lemma ReadAllRoundTrip(infos: seq<DiskInfo>)
    requires forall n :: 0 <= n < |infos| ==> Writable(infos[n])
    ensures ReadAll(infos) == infos
  {
    forall n | 0 <= n < |infos| ensures ReadAll(infos)[n] == infos[n] {
      DiskInfoRoundTrip(infos[n]);
    }
  }

  /**
   * As written, the reading stops after the first driver disk: with two
   * or more loaded, the second is not among the disks read back, while the
   * corrected reading returns every disk as recorded.
   */
  lemma LaterDisksLostAsWritten(infos: seq<DiskInfo>)
    requires |infos| >= 2 && forall n :: 0 <= n < |infos| ==> Writable(infos[n])
    ensures ReadAll(infos[..1]) == [infos[0]]
    ensures infos[1] == infos[0] || infos[1] !in ReadAll(infos[..1])
    ensures ReadAll(infos) == infos
  {
    ReadAllRoundTrip(infos[..1]);
    ReadAllRoundTrip(infos);
  }
}
