/**
 * The hand-off from the first-generation loader to the anaconda script
 * (the end of `main` in loader/loader.c): finding the script on $PATH
 * and assembling its argument vector from the extra arguments, the
 * flags and loaderData.
 */
module LoaderArgv {
  import opened Wrappers
  import opened Strings
  import opened LoaderCmdline

  /* ---------------------------------------------------------------- */
  /* Finding the anaconda script on $PATH                              */

  const ScriptName: string := "/anaconda"

  /** The $PATH entries the scan visits: each entry starts before the end of the string. */
  function PathEntries(path: string): (r: seq<string>)
    ensures path == "" <==> r == []
    decreases |path|
  {
    if path == "" then []
    else match FindChar(path, ':')
      case None => [path]
      case Some(i) => [path[..i]] + PathEntries(path[i + 1..])
  }

  /** The first `<entry>/anaconda` that is executable; `executable` holds the paths access(X_OK) accepts. */
  function FirstExecutable(dirs: seq<string>, executable: set<string>): Option<string> {
    if dirs == [] then None
    else if dirs[0] + ScriptName in executable then Some(dirs[0] + ScriptName)
    else FirstExecutable(dirs[1..], executable)
  }

  /** The script found is an executable `<entry>/anaconda`, earlier entries have none, and none is found only when no entry has one. */
  lemma {:induction false} FirstExecutableMeaning(dirs: seq<string>, executable: set<string>)
    ensures var r := FirstExecutable(dirs, executable);
            && (r.Some? ==> r.value in executable
                            && exists k :: 0 <= k < |dirs| && r.value == dirs[k] + ScriptName
                                           && forall j :: 0 <= j < k ==> dirs[j] + ScriptName !in executable)
            && (r.None? <==> forall k :: 0 <= k < |dirs| ==> dirs[k] + ScriptName !in executable)
  {
    if dirs != [] && dirs[0] + ScriptName !in executable {
      FirstExecutableMeaning(dirs[1..], executable);
      var r := FirstExecutable(dirs, executable);
      assert forall k :: 1 <= k < |dirs| ==> dirs[k] == dirs[1..][k - 1];
      if r.Some? {
        var k :| 0 <= k < |dirs[1..]| && r.value == dirs[1..][k] + ScriptName
                 && forall j :: 0 <= j < k ==> dirs[1..][j] + ScriptName !in executable;
        assert r.value == dirs[k + 1] + ScriptName;
        assert forall j :: 0 <= j < k + 1 ==> dirs[j] + ScriptName !in executable by {
          forall j | 0 <= j < k + 1 ensures dirs[j] + ScriptName !in executable {
            if j > 0 { assert dirs[j] == dirs[1..][j - 1]; }
          }
        }
      }
    }
  }

  lemma FirstExecutableCons(d: string, dirs: seq<string>, executable: set<string>)
    ensures FirstExecutable([d] + dirs, executable)
            == if d + ScriptName in executable then Some(d + ScriptName) else FirstExecutable(dirs, executable)
  {
    assert ([d] + dirs)[1..] == dirs;
  }

  /** The entries of a non-empty $PATH: the text up to the first colon (or the end), then the rest's. */
  lemma PathEntriesStep(rest: string, n: nat)
    requires rest != [] && n <= |rest|
    requires n == |rest| ==> FindChar(rest, ':').None?
    requires n < |rest| ==> FindChar(rest, ':') == Some(n)
    ensures PathEntries(rest) == [rest[..n]] + (if n == |rest| then [] else PathEntries(rest[n + 1..]))
  {
    if n == |rest| {
      assert rest[..n] == rest;
    }
  }

  /**
   * The scan as written: after an entry of length `n` starting at `pos`
   * the scan moves to `pos + n + 1`, also after the last entry, whose
   * terminator is the string's NUL.
   */
  function ScanNextAsWritten(path: string, pos: nat): nat
    requires pos <= |path|
  {
    match FindChar(path[pos..], ':')
    case None => |path| + 1
    case Some(n) => pos + n + 1
  }

  /** Where the scan as written ends: at a script, at the string's NUL, or past it. */
  datatype ScanOutcome = Found(script: string) | AtNul | PastEnd

  /**
   * The scan as written, from `pos`: the loop test reads the byte at
   * `pos`, which is the NUL when `pos` is |path|; a step past the NUL
   * leaves the string, and the next test reads memory outside it.
   */
  function ScanAsWritten(path: string, pos: nat, executable: set<string>): ScanOutcome
    requires pos <= |path|
    decreases |path| - pos
  {
    if pos == |path| then AtNul
    else
      var n := EntryLength(path[pos..]);
      if path[pos..pos + n] + ScriptName in executable then Found(path[pos..pos + n] + ScriptName)
      else if ScanNextAsWritten(path, pos) > |path| then PastEnd
      else ScanAsWritten(path, ScanNextAsWritten(path, pos), executable)
  }

  /**
   * The scan as written finds the same script as the corrected one, and
   * reads past the string exactly when no entry holds the script and the
   * last entry is not closed by a colon: for instance every $PATH whose
   * directories all lack it, such as "/usr/bin".
   */
  lemma PathScanOverreads(path: string, executable: set<string>)
    ensures var r := FirstExecutable(PathEntries(path), executable);
            && (r.Some? ==> ScanAsWritten(path, 0, executable) == Found(r.value))
            && (ScanAsWritten(path, 0, executable) == PastEnd
                <==> r.None? && path != "" && path[|path| - 1] != ':')
  {
    ScanAsWrittenFrom(path, 0, executable);
    ScanFromEntries(path, 0, executable);
  }

  /** The outcome of the scan as written, given the corrected scan's result and whether the last entry is left unclosed. */
  function OutcomeOf(r: Option<string>, unclosed: bool): ScanOutcome {
    if r.Some? then Found(r.value) else if unclosed then PastEnd else AtNul
  }

  lemma {:induction false} ScanAsWrittenFrom(path: string, pos: nat, executable: set<string>)
    requires pos <= |path|
    ensures ScanAsWritten(path, pos, executable)
            == OutcomeOf(ScriptFrom(path, pos, executable), pos < |path| && path[|path| - 1] != ':')
    decreases |path| - pos
  {
    if pos < |path| {
      var next := ScanOneEntry(path, pos, executable);
      if next < |path| {
        ScanAsWrittenFrom(path, next, executable);
      }
    }
  }

  /**
   * One entry of both scans: either both stop here with the same outcome, or
   * both move on to the same position `next`, which leaves the last entry's
   * closing unchanged.
   */
  lemma ScanOneEntry(path: string, pos: nat, executable: set<string>) returns (next: nat)
    requires pos < |path|
    ensures next <= |path| && pos < next
    ensures next == |path| ==>
      ScanAsWritten(path, pos, executable)
      == OutcomeOf(ScriptFrom(path, pos, executable), path[|path| - 1] != ':')
    ensures next < |path| ==>
      && ScanAsWritten(path, pos, executable) == ScanAsWritten(path, next, executable)
      && ScriptFrom(path, pos, executable) == ScriptFrom(path, next, executable)
  {
    var n := EntryLength(path[pos..]);
    var bin := path[pos..pos + n] + ScriptName;
    ScanNextStep(path, pos, n);
    if bin in executable {
      next := |path|;
      assert ScriptFrom(path, pos, executable) == Some(bin);
      assert ScanAsWritten(path, pos, executable) == Found(bin);
    } else if pos + n == |path| {
      next := |path|;
      assert ScriptFrom(path, pos, executable) == None;
      assert ScanAsWritten(path, pos, executable) == PastEnd;
    } else {
      next := pos + n + 1;
      if next == |path| {
        assert ScriptFrom(path, next, executable) == None;
        assert ScanAsWritten(path, next, executable) == AtNul;
      }
    }
  }

  /** The step as written follows the entry, and leaves the string exactly after an entry that ends it unclosed. */
  lemma ScanNextStep(path: string, pos: nat, n: nat)
    requires pos < |path| && n == EntryLength(path[pos..])
    ensures pos + n < |path| ==> ScanNextAsWritten(path, pos) == pos + n + 1 && path[pos + n] == ':'
    ensures pos + n == |path| ==> ScanNextAsWritten(path, pos) == |path| + 1 && path[|path| - 1] != ':'
  {
    match FindChar(path[pos..], ':')
    case None =>
      assert path[|path| - 1] == path[pos..][|path| - 1 - pos];
    case Some(i) =>
      assert path[pos..][i] == ':';
  }

  /** The length of the $PATH entry at the start of `rest`: up to the first colon, or all of it. */
  function EntryLength(rest: string): (n: nat)
    ensures n <= |rest|
  {
    match FindChar(rest, ':')
    case None => |rest|
    case Some(i) => i
  }

  /** One entry of the scan: the entry at `pos` is `n` characters long. */
  lemma ScanStep(path: string, pos: nat, n: nat, executable: set<string>)
    requires pos < |path| && n == EntryLength(path[pos..])
    ensures FirstExecutable(PathEntries(path[pos..]), executable)
            == if path[pos..pos + n] + ScriptName in executable then Some(path[pos..pos + n] + ScriptName)
               else if pos + n == |path| then None
               else FirstExecutable(PathEntries(path[pos + n + 1..]), executable)
  {
    var rest := path[pos..];
    PathEntriesStep(rest, n);
    assert rest[..n] == path[pos..pos + n];
    var tail := if n == |rest| then [] else PathEntries(rest[n + 1..]);
    FirstExecutableCons(path[pos..pos + n], tail, executable);
    if n < |rest| {
      assert rest[n + 1..] == path[pos + n + 1..];
    }
  }

  /** The scan, stopping at the end of the string. */
  method FindScript(path: string, executable: set<string>) returns (script: Option<string>)
    ensures script == FirstExecutable(PathEntries(path), executable)
  {
    script := ScanFrom(path, executable);
    ScanFromEntries(path, 0, executable);
  }

  /** The scan from `pos` on, entry by entry. */
  function ScriptFrom(path: string, pos: nat, executable: set<string>): Option<string>
    decreases |path| - pos
  {
    if pos >= |path| then None
    else
      var n := EntryLength(path[pos..]);
      if path[pos..pos + n] + ScriptName in executable then Some(path[pos..pos + n] + ScriptName)
      else if pos + n == |path| then None
      else ScriptFrom(path, pos + n + 1, executable)
  }

  lemma {:induction false} ScanFromEntries(path: string, pos: nat, executable: set<string>)
    requires pos <= |path|
    ensures ScriptFrom(path, pos, executable) == FirstExecutable(PathEntries(path[pos..]), executable)
    decreases |path| - pos
  {
    if pos == |path| {
      EmptyPath(path, pos, executable);
    } else {
      var n := EntryLength(path[pos..]);
      ScanStep(path, pos, n, executable);
      if path[pos..pos + n] + ScriptName !in executable && pos + n < |path| {
        assert ScriptFrom(path, pos, executable) == ScriptFrom(path, pos + n + 1, executable);
        ScanFromEntries(path, pos + n + 1, executable);
      }
    }
  }

  /** The loop of the scan. */
  method ScanFrom(path: string, executable: set<string>) returns (script: Option<string>)
    ensures script == ScriptFrom(path, 0, executable)
  {
    var pos := 0;
    while pos < |path|
      invariant pos <= |path|
      invariant ScriptFrom(path, pos, executable) == ScriptFrom(path, 0, executable)
      decreases |path| - pos
    {
      var n := EntryLength(path[pos..]);
      var bin := path[pos..pos + n] + ScriptName;
      if bin in executable {
        return Some(bin);
      }
      if pos + n == |path| {
        return None;
      }
      pos := pos + n + 1;
    }
    script := None;
  }

  lemma EmptyPath(path: string, pos: nat, executable: set<string>)
    requires pos == |path|
    ensures FirstExecutable(PathEntries(path[pos..]), executable) == None
  {
    assert path[pos..] == "";
  }

  /* ---------------------------------------------------------------- */
  /* The argument vector                                               */

  /**
   * What the vector needs besides loaderData and the loader flags: the
   * kickstart flag and the preprocessed kickstart file, the virtual
   * console (when FL_VIRTPCONSOLE is set) and the repository's
   * noverifyssl option.
   */
  datatype ArgvEnv = ArgvEnv(kickstart: bool, outputKSFile: Option<string>,
                             virtPConsole: Option<string>, instRepoNoverifyssl: bool)

  /** An extra argument `--k=v` becomes the two arguments `--k` and `v`; one without `=` stays whole. */
  function SplitExtra(a: string): (r: seq<string>)
    ensures |r| == 1 || |r| == 2
    ensures |r| == 1 ==> r[0] == a
    ensures |r| == 2 ==> r[0] + "=" + r[1] == a
  {
    match FindChar(a, '=')
    case None => [a]
    case Some(i) =>
      assert a[..i] + "=" + a[i + 1..] == a;
      [a[..i], a[i + 1..]]
  }

  /** The split happens exactly when there is an `=`, and at the first one. */
  lemma SplitExtraAtFirst(a: string)
    ensures |SplitExtra(a)| == 2 <==> '=' in a
    ensures |SplitExtra(a)| == 2 ==> '=' !in SplitExtra(a)[0]
  {
    match FindChar(a, '=')
    case None =>
    case Some(i) =>
      assert a[i] == '=';
  }

  function ExtraArgv(extras: seq<string>): (r: seq<string>)
    ensures |extras| <= |r| <= 2 * |extras|
  {
    if extras == [] then [] else ExtraArgv(extras[..|extras| - 1]) + SplitExtra(extras[|extras| - 1])
  }

  /** One more extra argument adds its split to the end. */
  lemma ExtraArgvStep(e: seq<string>, i: nat)
    requires i < |e|
    ensures ExtraArgv(e[..i + 1]) == ExtraArgv(e[..i]) + SplitExtra(e[i])
    ensures |ExtraArgv(e[..i + 1])| <= 2 * (i + 1)
  {
    assert e[..i + 1][..i] == e[..i];
  }

  /** Extra arguments that all carry a value take two slots each. */
  lemma {:induction false} ExtraArgvAllValues(extras: seq<string>)
    requires forall k :: 0 <= k < |extras| ==> '=' in extras[k]
    ensures |ExtraArgv(extras)| == 2 * |extras|
    decreases |extras|
  {
    if extras != [] {
      ExtraArgvAllValues(extras[..|extras| - 1]);
      SplitExtraAtFirst(extras[|extras| - 1]);
    }
  }

  function Opt(b: bool, items: seq<string>): seq<string> {
    if b then items else []
  }

  /** Options written whatever the mode. */
  function CommonOptions(flags: set<Flag>, env: ArgvEnv): (r: seq<string>)
    ensures |r| <= 7
  {
    Opt(AutoModDisk in flags, ["--dlabel"])
    + Opt(NoIpv4 in flags, ["--noipv4"])
    + Opt(NoIpv6 in flags, ["--noipv6"])
    + Opt(env.kickstart && env.outputKSFile.Some?, ["--kickstart", env.outputKSFile.GetOr("")])
    + Opt(Serial in flags, ["--serial"])
    + Opt(NoEject in flags, ["--noeject"])
  }

  /** The interface mode, SELinux and the virtual console, outside rescue mode. */
  function ModeOptions(flags: set<Flag>, env: ArgvEnv): (r: seq<string>)
    ensures |r| <= 5
  {
    Opt(Text in flags, ["-T"])
    + Opt(Text !in flags && Graphical in flags, ["--graphical"])
    + Opt(Cmdline in flags, ["-C"])
    + Opt(Selinux !in flags, ["--noselinux"])
    + Opt(Selinux in flags, ["--selinux"])
    + Opt(env.virtPConsole.Some?, ["--virtpconsole", env.virtPConsole.GetOr("")])
  }

  /** The argument after `--repo`: an ftp: repository is handed over indirectly through /tmp/ftp-repo. */
  function RepoArg(u: string): string {
    if StartsWith(u, "ftp:") then "@/tmp/ftp-repo" else u
  }

  /** The options taken from loaderData, outside rescue mode. */
  function DataOptions(flags: set<Flag>, data: LoaderData, env: ArgvEnv): (r: seq<string>)
    ensures |r| <= 15
  {
    DataHead(flags, data)
    + Opt(data.instRepo.Some?, ["--repo", RepoArg(data.instRepo.GetOr(""))])
    + DataTail(flags, data, env)
  }

  /** The loaderData options ahead of `--repo`: updates, language, keymap and log level. */
  function DataHead(flags: set<Flag>, data: LoaderData): (r: seq<string>)
    ensures |r| <= 8
  {
    Opt(data.updatessrc.Some? && Updates in flags, ["--updates", data.updatessrc.GetOr("")])
    + Opt(data.lang.Some? && NoPass !in flags, ["--lang", data.lang.GetOr("")])
    + Opt(data.kbd.Some? && NoPass !in flags, ["--keymap", data.kbd.GetOr("")])
    + Opt(data.logLevel.Some?, ["--loglevel", data.logLevel.GetOr("")])
  }

  /** The loaderData options behind `--repo`: certificate checking and the proxy. */
  function DataTail(flags: set<Flag>, data: LoaderData, env: ArgvEnv): (r: seq<string>)
    ensures |r| <= 5
  {
    Opt(env.instRepoNoverifyssl || NoVerifySsl in flags, ["--noverifyssl"])
    + Opt(data.proxy.Some? && data.proxy.GetOr("") != "", ["--proxy", data.proxy.GetOr("")])
    + Opt(data.proxy.Some? && data.proxy.GetOr("") != "" && data.proxyUser.Some? && data.proxyUser.GetOr("") != "",
          ["--proxyAuth", "/tmp/proxy"])
  }

  function FixedOptions(flags: set<Flag>, data: LoaderData, env: ArgvEnv): (r: seq<string>)
    ensures |r| <= 27
  {
    CommonOptions(flags, env)
    + (if Rescue in flags then ["--rescue"] else ModeOptions(flags, env) + DataOptions(flags, data, env))
  }

  /** The whole vector, without its NULL terminator. */
  function Argv(script: Option<string>, extras: seq<string>, flags: set<Flag>, data: LoaderData, env: ArgvEnv): (r: seq<string>)
    ensures |r| <= 1 + 2 * |extras| + 27
  {
    (if script.Some? then [script.value] else []) + ExtraArgv(extras) + FixedOptions(flags, data, env)
  }

  /* ---- properties of the vector ---- */

  /** The script comes first and each extra argument contributes its split pieces in order. */
  lemma ArgvStartsWithScript(script: string, extras: seq<string>, flags: set<Flag>, data: LoaderData, env: ArgvEnv)
    ensures var r := Argv(Some(script), extras, flags, data, env);
            r[0] == script && r[1..1 + |ExtraArgv(extras)|] == ExtraArgv(extras)
  {
  }

  /**
   * Outside rescue mode a repository is passed as `--repo` followed by the
   * URL itself, or by `@/tmp/ftp-repo` for an ftp: URL.
   */
  lemma RepoPassed(flags: set<Flag>, data: LoaderData, env: ArgvEnv)
    requires Rescue !in flags && data.instRepo.Some?
    ensures var f := FixedOptions(flags, data, env);
            var u := data.instRepo.value;
            exists k :: 0 <= k < |f| - 1 && f[k] == "--repo"
                        && f[k + 1] == (if StartsWith(u, "ftp:") then "@/tmp/ftp-repo" else u)
  {
    var pre := CommonOptions(flags, env) + ModeOptions(flags, env) + DataHead(flags, data);
    var arg := RepoArg(data.instRepo.value);
    var f := FixedOptions(flags, data, env);
    assert Opt(data.instRepo.Some?, ["--repo", RepoArg(data.instRepo.GetOr(""))]) == ["--repo", arg];
    Regroup(CommonOptions(flags, env), ModeOptions(flags, env), DataHead(flags, data), ["--repo", arg], DataTail(flags, data, env));
    PairAt(pre, "--repo", arg, DataTail(flags, data, env));
    assert f[|pre|] == "--repo" && f[|pre| + 1] == arg;
  }

  lemma Regroup<T>(a: seq<T>, b: seq<T>, c: seq<T>, d: seq<T>, e: seq<T>)
    ensures a + (b + (c + d + e)) == a + b + c + d + e
  {
  }

  lemma PairAt<T>(pre: seq<T>, x: T, y: T, post: seq<T>)
    ensures var s := pre + [x, y] + post;
            |s| > |pre| + 1 && s[|pre|] == x && s[|pre| + 1] == y
  {
  }

  /** With NOPASS the language and keymap do not influence the vector. */
  lemma NoPassHidesLangKbd(flags: set<Flag>, data: LoaderData, env: ArgvEnv, lang: Option<string>, kbd: Option<string>)
    requires NoPass in flags
    ensures FixedOptions(flags, data, env) == FixedOptions(flags, data.(lang := lang, kbd := kbd), env)
  {
  }

  /** In rescue mode only the common options and `--rescue` follow the extra arguments. */
  lemma RescueOptions(flags: set<Flag>, data: LoaderData, env: ArgvEnv)
    requires Rescue in flags
    ensures var f := FixedOptions(flags, data, env);
            |f| <= 8 && f[|f| - 1] == "--rescue"
  {
  }

  /* ---- the buffer ---- */

  /** The source as written, or with the defects this model found fixed. */
  datatype Variant = AsWritten | Corrected

  /** The size of `anacondaArgs` in the source. */
  const AsWrittenSlots: nat := 50

  /** Whether a vector and its NULL fit the source's buffer. */
  predicate FitsAsWritten(argv: seq<string>) {
    |argv| + 1 <= AsWrittenSlots
  }

  /** A buffer large enough for the script, 127 extra arguments split in two, every option and NULL. */
  const ArgvSlots: nat := 1 + 2 * (MaxExtraArgs - 1) + 27 + 1

  /** The buffer `main` writes the vector into: 50 entries as written. */
  function Slots(variant: Variant): nat {
    if variant == AsWritten then AsWrittenSlots else ArgvSlots
  }

  /** How many extra arguments carry a value (hold an `=`), each taking two slots. */
  function Valued(extras: seq<string>): (n: nat)
    ensures n <= |extras|
  {
    if extras == [] then 0
    else Valued(extras[..|extras| - 1]) + (if '=' in extras[|extras| - 1] then 1 else 0)
  }

  /** Each extra argument takes one slot, and one more when it carries a value. */
  lemma {:induction false} ExtraArgvLength(extras: seq<string>)
    ensures |ExtraArgv(extras)| == |extras| + Valued(extras)
    decreases |extras|
  {
    if extras != [] {
      ExtraArgvLength(extras[..|extras| - 1]);
      SplitExtraAtFirst(extras[|extras| - 1]);
    }
  }

  /**
   * When the source's 50 slots suffice: the extra arguments split into at
   * most 21 pieces always fit beside the script and the (at most 27)
   * options; 50 pieces or more (for instance 25 extra arguments with
   * values) never do, whatever the flags.
   */
  lemma ArgvFitsAsWrittenWhen(script: Option<string>, extras: seq<string>, flags: set<Flag>, data: LoaderData, env: ArgvEnv)
    ensures |extras| + Valued(extras) <= 21 ==> FitsAsWritten(Argv(script, extras, flags, data, env))
    ensures |extras| + Valued(extras) >= 50 ==> !FitsAsWritten(Argv(script, extras, flags, data, env))
    ensures Valued(extras) >= 25 ==> !FitsAsWritten(Argv(script, extras, flags, data, env))
  {
    ExtraArgvLength(extras);
  }

  /**
   * `name` with its i-th letter in upper case: a different key of the
   * command-line hash table, which strcasecmp still matches to `name`.
   */
  function CapitalAt(name: string, i: nat): (r: string)
    requires i < |name|
    ensures |r| == |name| && r[i] == Upper(name[i])
    ensures forall j :: 0 <= j < |name| && j != i ==> r[j] == name[j]
  {
    name[..i] + [Upper(name[i])] + name[i + 1..]
  }

  /** Every spelling of `name` with one capital letter. */
  function Capitalised(name: string): (r: seq<string>)
    ensures |r| == |name|
    ensures forall i :: 0 <= i < |name| ==> r[i] == CapitalAt(name, i)
  {
    seq(|name|, i requires 0 <= i < |name| => CapitalAt(name, i))
  }

  /** 25 keys of the command line, each a spelling of a pass-through keyword. */
  function SpelledKeys(): seq<string> {
    Capitalised("resolution") + Capitalised("nodmraid") + Capitalised("xdriver")
  }

  /** A lower-case name's spellings with one capital are pairwise different and all lower-case back to it. */
  lemma CapitalisedDistinct(name: string)
    requires forall j :: 0 <= j < |name| ==> IsLowerCase(name[j])
    ensures forall i, j :: 0 <= i < j < |name| ==> Capitalised(name)[i] != Capitalised(name)[j]
    ensures forall i :: 0 <= i < |name| ==> ToLower(Capitalised(name)[i]) == name
  {
    forall i, j | 0 <= i < j < |name|
      ensures Capitalised(name)[i] != Capitalised(name)[j]
    {
      assert Capitalised(name)[i][i] != Capitalised(name)[j][i];
    }
    forall i | 0 <= i < |name|
      ensures ToLower(Capitalised(name)[i]) == name
    {
      var c := Capitalised(name)[i];
      assert forall j :: 0 <= j < |name| ==> Lower(c[j]) == name[j];
    }
  }

  /** The 25 keys are different keys of the hash table, and each is passed on to the second stage. */
  lemma SpelledKeysPassedOn()
    ensures |SpelledKeys()| == 25
    ensures forall i, j :: 0 <= i < j < 25 ==> SpelledKeys()[i] != SpelledKeys()[j]
    ensures forall i :: 0 <= i < 25 ==> IsExtraKey(SpelledKeys()[i])
  {
    var a, b, c := Capitalised("resolution"), Capitalised("nodmraid"), Capitalised("xdriver");
    CapitalisedDistinct("resolution");
    CapitalisedDistinct("nodmraid");
    CapitalisedDistinct("xdriver");
    var keys := SpelledKeys();
    assert keys == a + b + c;
    forall i | 0 <= i < 25
      ensures IsExtraKey(keys[i])
    {
      if i < 10 {
        assert keys[i] == a[i];
      } else if i < 18 {
        assert keys[i] == b[i - 10];
      } else {
        assert keys[i] == c[i - 18];
      }
    }
    forall i, j | 0 <= i < j < 25
      ensures keys[i] != keys[j]
    {
      if j < 10 {
        assert keys[i] == a[i] && keys[j] == a[j];
      } else if i >= 18 {
        assert keys[i] == c[i - 18] && keys[j] == c[j - 18];
      } else if 10 <= i && j < 18 {
        assert keys[i] == b[i - 10] && keys[j] == b[j - 10];
      } else {
        assert |keys[i]| != |keys[j]|;
      }
    }
  }

  /** The extra arguments the 25 keys give, each with the value `1`. */
  function SpelledExtras(): seq<string> {
    seq(|SpelledKeys()|, k requires 0 <= k < |SpelledKeys()| => RenderExtra(SpelledKeys()[k], Some("1")))
  }

  /**
   * 25 different pass-through keys with a value (spellings of
   * `resolution`, `nodmraid` and `xdriver` with one capital letter,
   * which strcasecmp matches) give 25 extra arguments that need 50 slots
   * before the NULL: the 50-slot buffer overflows.
   */
  lemma ArgvOverflowsAsWritten(flags: set<Flag>, data: LoaderData, env: ArgvEnv)
    ensures |SpelledExtras()| == 25
    ensures forall i :: 0 <= i < 25 ==> SpelledExtras()[i] == RenderExtra(SpelledKeys()[i], Some("1"))
    ensures !FitsAsWritten(Argv(Some("/usr/bin/anaconda"), SpelledExtras(), flags, data, env))
  {
    SpelledKeysPassedOn();
    var extras := SpelledExtras();
    forall k | 0 <= k < |extras|
      ensures '=' in extras[k]
    {
      var key := SpelledKeys()[k];
      assert extras[k] == "--" + key + "=1";
      assert extras[k][|key| + 2] == '=';
    }
    ExtraArgvAllValues(extras);
  }

  lemma ArgvFits(script: Option<string>, extras: seq<string>, flags: set<Flag>, data: LoaderData, env: ArgvEnv)
    requires |extras| < MaxExtraArgs
    ensures |Argv(script, extras, flags, data, env)| + 1 <= ArgvSlots
  {
  }

  /** A prefix of the extra arguments splits into no more pieces than all of them. */
  lemma {:induction false} ExtraArgvPrefix(e: seq<string>, i: nat)
    requires i <= |e|
    ensures |ExtraArgv(e[..i])| <= |ExtraArgv(e)|
    decreases |e|
  {
    if i < |e| {
      var init := e[..|e| - 1];
      assert init[..i] == e[..i];
      ExtraArgvPrefix(init, i);
    } else {
      assert e[..i] == e;
    }
  }

  /** Facts about a NULL-terminated prefix of the extraArgs array. */
  lemma {:induction false} ArgsBeforeNullFacts(a: seq<Option<string>>)
    ensures var e := ArgsBeforeNull(a);
            && (forall j :: 0 <= j < |e| ==> a[j] == Some(e[j]))
            && (|e| < |a| ==> a[|e|].None?)
            && (|a| > 0 && a[|a| - 1].None? ==> |e| < |a|)
    decreases |a|
  {
    if a != [] && a[0].Some? {
      ArgsBeforeNullFacts(a[1..]);
      if |a| > 1 {
        assert a[1..][|a| - 2] == a[|a| - 1];
      }
      var e := ArgsBeforeNull(a);
      forall j | 0 <= j < |e| ensures a[j] == Some(e[j]) {
        if j > 0 {
          assert a[j] == a[1..][j - 1];
        }
      }
    }
  }

  /**
   * Write the arguments `items` at `n` and advance past them, when `b`
   * holds; `acc + p` is what the buffer holds so far.
   */
  method PushOpt(argv: array<Option<string>>, n: nat, b: bool, items: seq<string>,
                 ghost acc: seq<string>, ghost p: seq<string>) returns (n': nat)
    requires n == |acc + p| && n + |items| <= argv.Length
    requires forall k :: 0 <= k < n ==> argv[k] == Some((acc + p)[k])
    modifies argv
    ensures n' == |acc + (p + Opt(b, items))| && n <= n' <= n + |items|
    ensures forall k :: 0 <= k < n' ==> argv[k] == Some((acc + (p + Opt(b, items)))[k])
    ensures forall k :: n' <= k < argv.Length ==> argv[k] == old(argv[k])
  {
    ghost var start := acc + p;
    assert start + Opt(b, items) == acc + (p + Opt(b, items));
    n' := n;
    if b {
      var j := 0;
      while j < |items|
        invariant 0 <= j <= |items| && n' == n + j
        invariant forall k :: 0 <= k < n' ==> argv[k] == Some((start + items[..j])[k])
        invariant forall k :: n' <= k < argv.Length ==> argv[k] == old(argv[k])
      {
        argv[n'] := Some(items[j]);
        assert start + items[..j + 1] == start + items[..j] + [items[j]];
        n' := n' + 1;
        j := j + 1;
      }
      assert items[..j] == items;
    }
  }

  /**
   * The assembly in `main`, into a buffer of Slots(variant) entries: the
   * script, the extra arguments split at their first `=` (cutting each
   * stored extra argument at its `=`, as the source does in place), then
   * the options; `n` is the index of the NULL terminator.  Where the
   * source writes past the end of its 50 entries the model writes nothing
   * and reports the overflow.
   */
  method BuildArgv(l: Loader, script: Option<string>, env: ArgvEnv, variant: Variant)
    returns (argv: array<Option<string>>, n: nat, overflow: bool)
    requires l.Valid()
    modifies l.extraArgs
    ensures fresh(argv) && argv.Length == Slots(variant)
    ensures var r := Argv(script, old(ArgsBeforeNull(l.extraArgs[..])), l.flags, l.data, env);
            && (overflow <==> |r| + 1 > argv.Length)
            && (!overflow ==> n == |r| && argv[n].None? && forall k :: 0 <= k < n ==> argv[k] == Some(r[k]))
    ensures variant == Corrected ==> !overflow
    ensures variant == AsWritten ==> (overflow <==> !FitsAsWritten(Argv(script, old(ArgsBeforeNull(l.extraArgs[..])), l.flags, l.data, env)))
    ensures l.Valid()
    ensures overflow ==> l.extraArgs[..] == old(l.extraArgs[..])
    ensures var e := old(ArgsBeforeNull(l.extraArgs[..]));
            !overflow ==> forall j :: 0 <= j < |e| ==> l.extraArgs[j] == Some(SplitExtra(e[j])[0])
  {
    var e := ArgsBeforeNull(l.extraArgs[..]);
    ArgsBeforeNullFacts(l.extraArgs[..]);
    ArgvFits(script, e, l.flags, l.data, env);
    var size := Slots(variant);
    if |Argv(script, e, l.flags, l.data, env)| + 1 > size {
      argv := new Option<string>[size](_ => None);
      return argv, 0, true;
    }
    argv, n := FillArgv(l, script, env, e, size);
    overflow := false;
    CutExtras(l.extraArgs, e);
  }

  /** The writes into a new vector of `size` entries, before the stored extra arguments are cut. */
  method FillArgv(l: Loader, script: Option<string>, env: ArgvEnv, ghost e: seq<string>, size: nat)
    returns (argv: array<Option<string>>, n: nat)
    requires l.Valid() && |e| < MaxExtraArgs
    requires forall j :: 0 <= j < |e| ==> l.extraArgs[j] == Some(e[j])
    requires l.extraArgs[|e|].None?
    requires |Argv(script, e, l.flags, l.data, env)| + 1 <= size
    ensures fresh(argv) && argv.Length == size && n < size && argv[n].None?
    ensures var r := Argv(script, e, l.flags, l.data, env);
            n == |r| && forall k :: 0 <= k < n ==> argv[k] == Some(r[k])
  {
    argv := new Option<string>[size](_ => None);
    ghost var head := if script.Some? then [script.value] else [];
    n := PushOpt(argv, 0, script.Some?, [script.GetOr("")], [], []);
    assert [] + ([] + Opt(script.Some?, [script.GetOr("")])) == head;
    n := PushExtras(l, argv, n, head, e);
    var fixed := FixedOptions(l.flags, l.data, env);
    n := PushOpt(argv, n, true, fixed, head, ExtraArgv(e));
    assert Opt(true, fixed) == fixed;
    ConcatAssoc(head, ExtraArgv(e), fixed);
  }

  lemma ConcatAssoc(a: seq<string>, b: seq<string>, c: seq<string>)
    ensures a + (b + c) == a + b + c
  {
  }

  /** The loop over the NULL-terminated extraArgs, copying each one into argv split at its first `=`. */
  method PushExtras(l: Loader, argv: array<Option<string>>, n: nat, ghost head: seq<string>, ghost e: seq<string>)
    returns (n': nat)
    requires l.Valid() && argv != l.extraArgs && |head| + |ExtraArgv(e)| <= argv.Length
    requires |e| < MaxExtraArgs
    requires forall j :: 0 <= j < |e| ==> l.extraArgs[j] == Some(e[j])
    requires l.extraArgs[|e|].None?
    requires n == |head| && forall k :: 0 <= k < n ==> argv[k] == Some(head[k])
    requires forall k :: n <= k < argv.Length ==> argv[k].None?
    modifies argv
    ensures n' == |head + ExtraArgv(e)| && forall k :: 0 <= k < n' ==> argv[k] == Some((head + ExtraArgv(e))[k])
    ensures forall k :: n' <= k < argv.Length ==> argv[k].None?
  {
    n' := n;
    var i := 0;
    ghost var done := head;
    assert ExtraArgv(e[..0]) == [];
    while l.extraArgs[i].Some?
      invariant 0 <= i <= |e|
      invariant done == head + ExtraArgv(e[..i])
      invariant n' == |done| <= argv.Length
      invariant forall k :: 0 <= k < n' ==> argv[k] == Some(done[k])
      invariant forall k :: n' <= k < argv.Length ==> argv[k].None?
      decreases |e| - i
    {
      var a := l.extraArgs[i].value;
      assert a == e[i];
      ExtraArgvStep(e, i);
      ExtraArgvPrefix(e, i + 1);
      n' := PushSplit(argv, n', done, a);
      PushedAll(head, ExtraArgv(e[..i]), SplitExtra(a));
      done := head + ExtraArgv(e[..i + 1]);
      i := i + 1;
    }
    assert e[..i] == e;
  }

  /** One extra argument appended to the filled part of argv: its key, and its value when it has one. */
  method PushSplit(argv: array<Option<string>>, n: nat, ghost done: seq<string>, a: string) returns (n': nat)
    requires n == |done| && n + |SplitExtra(a)| <= argv.Length
    requires forall k :: 0 <= k < n ==> argv[k] == Some(done[k])
    requires forall k :: n <= k < argv.Length ==> argv[k].None?
    modifies argv
    ensures n' == |done + SplitExtra(a)|
    ensures forall k :: 0 <= k < n' ==> argv[k] == Some((done + SplitExtra(a))[k])
    ensures forall k :: n' <= k < argv.Length ==> argv[k].None?
  {
    n' := PushOpt(argv, n, true, SplitExtra(a), done, []);
    assert done + ([] + Opt(true, SplitExtra(a))) == done + SplitExtra(a);
  }

  lemma PushedAll(head: seq<string>, x: seq<string>, parts: seq<string>)
    ensures head + x + parts == head + (x + parts)
  {
  }

  /**
   * The same loop's side effect: the `=` of each stored extra argument is
   * overwritten with a NUL, so the array keeps only the key part.
   */
  method CutExtras(a: array<Option<string>>, ghost e: seq<string>)
    requires |e| < a.Length
    requires forall j :: 0 <= j < |e| ==> a[j] == Some(e[j])
    requires a[|e|].None?
    modifies a
    ensures forall j :: 0 <= j < |e| ==> a[j] == Some(SplitExtra(e[j])[0])
    ensures forall j :: |e| <= j < a.Length ==> a[j] == old(a[j])
  {
    var i := 0;
    while a[i].Some?
      invariant 0 <= i <= |e|
      invariant forall j :: 0 <= j < i ==> a[j] == Some(SplitExtra(e[j])[0])
      invariant forall j :: i <= j < a.Length ==> a[j] == old(a[j])
      decreases |e| - i
    {
      a[i] := Some(SplitExtra(a[i].value)[0]);
      i := i + 1;
    }
  }
}
