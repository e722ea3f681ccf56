/**
 * The hand-off from the second-generation loader to the anaconda script
 * (the end of `main` in loader2/loader.c): the script found on $PATH,
 * `-m` and the installation URL, the extra arguments split at their `=`,
 * then the options the flags and loaderData call for.
 *
 * The vector is built from pointers some of which may be NULL (the
 * kickstart file and the virtual console are written after their flag
 * without a check), so it is modelled as a sequence of optional strings;
 * what the executed program sees is the part before the first NULL.
 */
module Loader2Argv {
  import opened Wrappers
  import opened Strings
  import LoaderCmdline
  import LoaderArgv
  import opened Loader2Cmdline

  /* ---------------------------------------------------------------- */
  /* The method argument                                               */

  const MethodFile: string := "/tmp/method"

  /** An ftp: URL is handed over indirectly, through a file named after `@`. */
  function MethodArg(url: string): string {
    if StartsWith(url, "ftp:") then "@" + MethodFile else url
  }

  /** The contents written to /tmp/method: the URL and a carriage return, for an ftp: URL only. */
  function MethodFileContents(url: string): Option<string> {
    if StartsWith(url, "ftp:") then Some(url + "\r") else None
  }

  /**
   * The URL reaches the script either as the argument after `-m` or, for
   * an ftp: URL, as the contents of /tmp/method before the final `\r`.
   */
  lemma MethodArgCarriesUrl(url: string)
    ensures var a, f := MethodArg(url), MethodFileContents(url);
            && (f.None? ==> a == url)
            && (f.Some? ==> a == "@/tmp/method" && |f.value| == |url| + 1
                            && f.value[..|url|] == url && f.value[|url|] == '\r')
    ensures MethodFileContents(url).Some? <==> StartsWith(url, "ftp:")
  {
  }

  /* ---------------------------------------------------------------- */
  /* The vector                                                        */

  function Somes(s: seq<string>): (r: seq<Option<string>>)
    ensures |r| == |s| && forall k :: 0 <= k < |s| ==> r[k] == Some(s[k])
  {
    seq(|s|, k requires 0 <= k < |s| => Some(s[k]))
  }

  lemma SomesExtend(head: seq<Option<string>>, x: seq<string>, p: seq<string>)
    ensures head + Somes(x) + Somes(p) == head + Somes(x + p)
  {
    assert Somes(x) + Somes(p) == Somes(x + p);
  }

  /** A single option, when `b` holds. */
  function Opt(b: bool, name: string): seq<Option<string>> {
    if b then [Some(name)] else []
  }

  /** An option and its value (possibly a NULL pointer), when `b` holds. */
  function OptValue(b: bool, name: string, value: Option<string>): seq<Option<string>> {
    if b then [Some(name), value] else []
  }

  /** The interface options outside rescue mode: console, mode, expert, SELinux. */
  function InterfaceOptions(flags: set<Flag>): (r: seq<Option<string>>)
    ensures |r| <= 5
  {
    Opt(Serial in flags, "--serial") + UiModeOptions(flags) + Opt(Expert in flags, "--expert") + SelinuxOptions(flags)
  }

  /** The user-interface mode: text mode hides graphical mode; command-line mode is independent. */
  function UiModeOptions(flags: set<Flag>): (r: seq<Option<string>>)
    ensures |r| <= 2
  {
    Opt(Text in flags, "-T") + Opt(Text !in flags && Graphical in flags, "--graphical") + Opt(Cmdline in flags, "-C")
  }

  /** `--noselinux` without FL_SELINUX, `--selinux` with it. */
  function SelinuxOptions(flags: set<Flag>): (r: seq<Option<string>>)
    ensures r == [Some(if Selinux in flags then "--selinux" else "--noselinux")]
  {
    Opt(Selinux !in flags, "--noselinux") + Opt(Selinux in flags, "--selinux")
  }

  lemma InterfacePresent(flags: set<Flag>)
    ensures NoNull(InterfaceOptions(flags))
  {
    var a := Opt(Serial in flags, "--serial");
    var m := UiModeOptions(flags);
    var e := Opt(Expert in flags, "--expert");
    NoNullConcat(Opt(Text in flags, "-T"), Opt(Text !in flags && Graphical in flags, "--graphical"));
    NoNullConcat(Opt(Text in flags, "-T") + Opt(Text !in flags && Graphical in flags, "--graphical"), Opt(Cmdline in flags, "-C"));
    NoNullConcat(a, m);
    NoNullConcat(a + m, e);
    NoNullConcat(a + m + e, SelinuxOptions(flags));
  }

  /**
   * The options with values outside rescue mode.  The kickstart file is
   * loaderData's and the virtual console is the loader's own
   * `--virtpconsole` argument; both follow their flag unchecked.
   */
  function ValueOptions(flags: set<Flag>, data: LoaderData, virtpcon: Option<string>): (r: seq<Option<string>>)
    ensures |r| <= 14
  {
    OptValue(Kickstart in flags, "--kickstart", data.ksFile)
    + OptValue(VirtPConsole in flags, "--virtpconsole", virtpcon)
    + OptValue(data.updatessrc.Some? && Updates in flags, "--updates", data.updatessrc)
    + OptValue(data.dogtailurl.Some?, "--dogtail", data.dogtailurl)
    + OptValue(data.lang.Some? && NoPass !in flags, "--lang", data.lang)
    + OptValue(data.kbd.Some? && NoPass !in flags, "--keymap", data.kbd)
    + OptValue(data.logLevel.Some?, "--loglevel", data.logLevel)
  }

  /** The options after the extra arguments. */
  function Options(flags: set<Flag>, data: LoaderData, virtpcon: Option<string>): (r: seq<Option<string>>)
    ensures |r| <= 21
  {
    Opt(NoIpv4 in flags, "--noipv4")
    + Opt(NoIpv6 in flags, "--noipv6")
    + (if Rescue in flags then [Some("--rescue")] + Opt(Serial in flags, "--serial")
       else InterfaceOptions(flags) + ValueOptions(flags, data, virtpcon))
  }

  /** The entries written into anacondaArgs before the final NULL. */
  function RawArgv(script: Option<string>, url: string, extras: seq<string>, flags: set<Flag>,
                   data: LoaderData, virtpcon: Option<string>): (r: seq<Option<string>>)
    ensures |r| <= 1 + 2 + 2 * |extras| + 21
  {
    (if script.Some? then [script] else [])
    + [Some("-m"), Some(MethodArg(url))]
    + Somes(LoaderArgv.ExtraArgv(extras))
    + Options(flags, data, virtpcon)
  }

  /** The argument vector execv passes on: everything before the first NULL. */
  function Argv(script: Option<string>, url: string, extras: seq<string>, flags: set<Flag>,
                data: LoaderData, virtpcon: Option<string>): seq<string>
  {
    LoaderCmdline.ArgsBeforeNull(RawArgv(script, url, extras, flags, data, virtpcon) + [None])
  }

  /* ---- properties of the vector ---- */

  /**
   * The script comes first, then `-m` and the method argument, then each
   * extra argument's split pieces in order.
   */
  lemma ArgvLayout(script: string, url: string, extras: seq<string>, flags: set<Flag>,
                   data: LoaderData, virtpcon: Option<string>)
    ensures var r := RawArgv(Some(script), url, extras, flags, data, virtpcon);
            var x := LoaderArgv.ExtraArgv(extras);
            && r[0] == Some(script) && r[1] == Some("-m") && r[2] == Some(MethodArg(url))
            && |r| >= 3 + |x| && forall k :: 0 <= k < |x| ==> r[3 + k] == Some(x[k])
  {
  }

  /** No NULL pointer among `s`. */
  predicate NoNull(s: seq<Option<string>>) {
    forall k :: 0 <= k < |s| ==> s[k].Some?
  }

  lemma NoNullConcat(a: seq<Option<string>>, b: seq<Option<string>>)
    requires NoNull(a) && NoNull(b)
    ensures NoNull(a + b)
  {
    forall k | 0 <= k < |a + b| ensures (a + b)[k].Some? {
      if k >= |a| {
        assert (a + b)[k] == b[k - |a|];
      }
    }
  }

  /** The value options carry no NULL when the flags they follow come with their values. */
  lemma ValueOptionsPresent(flags: set<Flag>, data: LoaderData, virtpcon: Option<string>)
    requires Kickstart in flags ==> data.ksFile.Some?
    requires VirtPConsole in flags ==> virtpcon.Some?
    ensures NoNull(ValueOptions(flags, data, virtpcon))
  {
    var a := OptValue(Kickstart in flags, "--kickstart", data.ksFile);
    var b := OptValue(VirtPConsole in flags, "--virtpconsole", virtpcon);
    var c := OptValue(data.updatessrc.Some? && Updates in flags, "--updates", data.updatessrc);
    var d := OptValue(data.dogtailurl.Some?, "--dogtail", data.dogtailurl);
    var e := OptValue(data.lang.Some? && NoPass !in flags, "--lang", data.lang);
    var f := OptValue(data.kbd.Some? && NoPass !in flags, "--keymap", data.kbd);
    var g := OptValue(data.logLevel.Some?, "--loglevel", data.logLevel);
    OptValuePresent(Kickstart in flags, "--kickstart", data.ksFile);
    OptValuePresent(VirtPConsole in flags, "--virtpconsole", virtpcon);
    OptValuePresent(data.updatessrc.Some? && Updates in flags, "--updates", data.updatessrc);
    OptValuePresent(data.dogtailurl.Some?, "--dogtail", data.dogtailurl);
    OptValuePresent(data.lang.Some? && NoPass !in flags, "--lang", data.lang);
    OptValuePresent(data.kbd.Some? && NoPass !in flags, "--keymap", data.kbd);
    OptValuePresent(data.logLevel.Some?, "--loglevel", data.logLevel);
    NoNoneInSeven(a, b, c, d, e, f, g);
    NoNullWithout(a + b + c + d + e + f + g);
  }

  lemma NoNoneInSeven(a: seq<Option<string>>, b: seq<Option<string>>, c: seq<Option<string>>, d: seq<Option<string>>,
                      e: seq<Option<string>>, f: seq<Option<string>>, g: seq<Option<string>>)
    requires None !in a && None !in b && None !in c && None !in d && None !in e && None !in f && None !in g
    ensures None !in a + b + c + d + e + f + g
  {
  }

  /** No NULL anywhere: no element is None. */
  lemma NoNullWithout(s: seq<Option<string>>)
    requires None !in s
    ensures NoNull(s)
  {
    forall k | 0 <= k < |s| ensures s[k].Some? {
      assert s[k] in s;
    }
  }

  lemma OptValuePresent(b: bool, name: string, value: Option<string>)
    requires b ==> value.Some?
    ensures None !in OptValue(b, name, value)
  {
  }

  /** The options carry no NULL when the flags they follow come with their values. */
  lemma OptionsPresent(flags: set<Flag>, data: LoaderData, virtpcon: Option<string>)
    requires Kickstart in flags ==> data.ksFile.Some?
    requires VirtPConsole in flags ==> virtpcon.Some?
    ensures NoNull(Options(flags, data, virtpcon))
  {
    var ip := Opt(NoIpv4 in flags, "--noipv4") + Opt(NoIpv6 in flags, "--noipv6");
    NoNullConcat(Opt(NoIpv4 in flags, "--noipv4"), Opt(NoIpv6 in flags, "--noipv6"));
    if Rescue in flags {
      NoNullConcat([Some("--rescue")], Opt(Serial in flags, "--serial"));
      NoNullConcat(ip, [Some("--rescue")] + Opt(Serial in flags, "--serial"));
    } else {
      ValueOptionsPresent(flags, data, virtpcon);
      InterfacePresent(flags);
      NoNullConcat(InterfaceOptions(flags), ValueOptions(flags, data, virtpcon));
      NoNullConcat(ip, InterfaceOptions(flags) + ValueOptions(flags, data, virtpcon));
    }
  }

  /** What execv sees of a vector whose first NULL is at `p` (the terminator, when there is none before). */
  lemma ArgsUpTo(r: seq<Option<string>>, p: nat)
    requires p <= |r| && NoNull(r[..p]) && (p < |r| ==> r[p].None?)
    ensures var a := LoaderCmdline.ArgsBeforeNull(r + [None]);
            |a| == p && forall k :: 0 <= k < p ==> r[k] == Some(a[k])
  {
    var e := seq(p, k requires 0 <= k < p => r[..p][k].value);
    LoaderCmdline.ArgsBeforeNullPrefix(r + [None], e);
  }

  /**
   * When every flag with a value comes with it, execv receives the whole
   * vector: the script, `-m`, the URL argument, the split extra arguments
   * and every option.
   */
  lemma WholeArgvPassed(script: Option<string>, url: string, extras: seq<string>, flags: set<Flag>,
                        data: LoaderData, virtpcon: Option<string>)
    requires Kickstart in flags ==> data.ksFile.Some?
    requires VirtPConsole in flags ==> virtpcon.Some?
    ensures var r := RawArgv(script, url, extras, flags, data, virtpcon);
            var a := Argv(script, url, extras, flags, data, virtpcon);
            |a| == |r| && forall k :: 0 <= k < |r| ==> r[k] == Some(a[k])
  {
    var head := (if script.Some? then [script] else []) + [Some("-m"), Some(MethodArg(url))];
    var x := Somes(LoaderArgv.ExtraArgv(extras));
    OptionsPresent(flags, data, virtpcon);
    assert NoNull(head) && NoNull(x);
    NoNullConcat(head, x);
    NoNullConcat(head + x, Options(flags, data, virtpcon));
    var r := RawArgv(script, url, extras, flags, data, virtpcon);
    assert r[..|r|] == r;
    ArgsUpTo(r, |r|);
  }

  /**
   * FL_KICKSTART without a kickstart file in loaderData (outside rescue
   * mode) puts a NULL right after `--kickstart`: execv receives the vector
   * only up to `--kickstart`, and every later option is lost.
   */
  lemma KickstartWithoutFileCuts(script: Option<string>, url: string, extras: seq<string>, flags: set<Flag>,
                                 data: LoaderData, virtpcon: Option<string>)
    requires Kickstart in flags && Rescue !in flags && data.ksFile.None?
    ensures var r := RawArgv(script, url, extras, flags, data, virtpcon);
            var a := Argv(script, url, extras, flags, data, virtpcon);
            |a| < |r| && a[|a| - 1] == "--kickstart" && r[|a|].None?
  {
    var q := KickstartLayout(script, url, extras, flags, data, virtpcon);
    var v := ValueOptions(flags, data, virtpcon);
    assert v[0] == v[..2][0] && v[1] == v[..2][1];
    CutAfterOption(q, v, "--kickstart");
  }

  /** A vector whose options start with `name` and a NULL is passed on up to `name`. */
  lemma CutAfterOption(q: seq<Option<string>>, v: seq<Option<string>>, name: string)
    requires NoNull(q) && |v| >= 2 && v[0] == Some(name) && v[1].None?
    ensures var a := LoaderCmdline.ArgsBeforeNull(q + v + [None]);
            |a| < |q + v| && |a| > 0 && a[|a| - 1] == name && (q + v)[|a|].None?
  {
    var r := q + v;
    var pre := q + [Some(name)];
    NoNullConcat(q, [Some(name)]);
    assert r[..|pre|] == pre;
    ArgsUpTo(r, |pre|);
  }

  /** Outside rescue mode with FL_KICKSTART, the options with values start with `--kickstart` and the file. */
  lemma KickstartLayout(script: Option<string>, url: string, extras: seq<string>, flags: set<Flag>,
                        data: LoaderData, virtpcon: Option<string>) returns (q: seq<Option<string>>)
    requires Kickstart in flags && Rescue !in flags
    ensures NoNull(q)
    ensures RawArgv(script, url, extras, flags, data, virtpcon) == q + ValueOptions(flags, data, virtpcon)
    ensures ValueOptions(flags, data, virtpcon)[..2] == [Some("--kickstart"), data.ksFile]
  {
    var r := RawArgv(script, url, extras, flags, data, virtpcon);
    var head := (if script.Some? then [script] else []) + [Some("-m"), Some(MethodArg(url))];
    var x := Somes(LoaderArgv.ExtraArgv(extras));
    var ip := Opt(NoIpv4 in flags, "--noipv4") + Opt(NoIpv6 in flags, "--noipv6");
    var v := ValueOptions(flags, data, virtpcon);
    q := head + x + ip + InterfaceOptions(flags);
    assert Options(flags, data, virtpcon) == ip + (InterfaceOptions(flags) + v);
    assert r == (head + x) + (ip + (InterfaceOptions(flags) + v));
    Regroup(head + x, ip, InterfaceOptions(flags), v);
    LeadNoNull(head, x, flags);
  }

  lemma Regroup(a: seq<Option<string>>, b: seq<Option<string>>, c: seq<Option<string>>, d: seq<Option<string>>)
    ensures a + (b + (c + d)) == a + b + c + d
  {
  }

  lemma LeadNoNull(head: seq<Option<string>>, x: seq<Option<string>>, flags: set<Flag>)
    requires NoNull(head) && NoNull(x)
    ensures NoNull(head + x + (Opt(NoIpv4 in flags, "--noipv4") + Opt(NoIpv6 in flags, "--noipv6")) + InterfaceOptions(flags))
  {
    var ip := Opt(NoIpv4 in flags, "--noipv4") + Opt(NoIpv6 in flags, "--noipv6");
    NoNullConcat(head, x);
    NoNullConcat(Opt(NoIpv4 in flags, "--noipv4"), Opt(NoIpv6 in flags, "--noipv6"));
    NoNullConcat(head + x, ip);
    InterfacePresent(flags);
    NoNullConcat(head + x + ip, InterfaceOptions(flags));
  }

  /** Outside rescue mode exactly one of `--selinux` and `--noselinux` is passed. */
  lemma SelinuxOptionExactlyOne(flags: set<Flag>)
    ensures var i := InterfaceOptions(flags);
            (Some("--selinux") in i) != (Some("--noselinux") in i)
            && (Some("--selinux") in i <==> Selinux in flags)
  {
    var ui := UiModeOptions(flags);
    var pre := Opt(Serial in flags, "--serial") + ui + Opt(Expert in flags, "--expert");
    OptOther(Serial in flags, "--serial", "--selinux", "--noselinux");
    OptOther(Text in flags, "-T", "--selinux", "--noselinux");
    OptOther(Text !in flags && Graphical in flags, "--graphical", "--selinux", "--noselinux");
    OptOther(Cmdline in flags, "-C", "--selinux", "--noselinux");
    OptOther(Expert in flags, "--expert", "--selinux", "--noselinux");
    assert Some("--selinux") !in pre && Some("--noselinux") !in pre;
    assert InterfaceOptions(flags) == pre + SelinuxOptions(flags);
  }

  /** An option that is neither of two names. */
  lemma OptOther(b: bool, name: string, x: string, y: string)
    requires name != x && name != y
    ensures Some(x) !in Opt(b, name) && Some(y) !in Opt(b, name)
  {
  }

  /** Text mode wins over graphical mode. */
  lemma TextBeatsGraphical(flags: set<Flag>)
    requires Text in flags
    ensures Some("-T") in InterfaceOptions(flags) && Some("--graphical") !in InterfaceOptions(flags)
  {
    var m := UiModeOptions(flags);
    assert m == [Some("-T")] + Opt(Cmdline in flags, "-C");
    assert Some("-T") in m;
    assert InterfaceOptions(flags) == Opt(Serial in flags, "--serial") + m + (Opt(Expert in flags, "--expert") + SelinuxOptions(flags));
  }

  /** With NOPASS the language and keymap do not influence the vector. */
  lemma NoPassHidesLangKbd(flags: set<Flag>, data: LoaderData, virtpcon: Option<string>,
                           lang: Option<string>, kbd: Option<string>)
    requires NoPass in flags
    ensures Options(flags, data, virtpcon) == Options(flags, data.(lang := lang, kbd := kbd), virtpcon)
  {
  }

  /** In rescue mode only the IP-family options, `--rescue` and `--serial` follow the extra arguments. */
  lemma RescueOptions(flags: set<Flag>, data: LoaderData, virtpcon: Option<string>)
    requires Rescue in flags
    ensures var o := Options(flags, data, virtpcon);
            |o| <= 4 && Some("--rescue") in o
            && forall k :: 0 <= k < |o| ==> o[k] in {Some("--noipv4"), Some("--noipv6"), Some("--rescue"), Some("--serial")}
  {
  }

  /* ---- the buffer ---- */

  /** The size of `anacondaArgs` in the source. */
  const AsWrittenSlots: nat := 50

  /** Whether the entries written and the final NULL fit the source's buffer. */
  predicate FitsAsWritten(raw: seq<Option<string>>) {
    |raw| + 1 <= AsWrittenSlots
  }

  /** A buffer large enough for the script, `-m` and its argument, 127 split extra arguments, every option and NULL. */
  const ArgvSlots: nat := 1 + 2 + 2 * (MaxExtraArgs - 1) + 21 + 1

  /** The buffer `main` writes the vector into: 50 entries as written. */
  function Slots(variant: LoaderArgv.Variant): nat {
    if variant == LoaderArgv.AsWritten then AsWrittenSlots else ArgvSlots
  }

  /**
   * When the source's 50 slots suffice: extra arguments split into at most
   * 25 pieces always fit beside the script, `-m`, its argument and the (at
   * most 21) options; 48 pieces or more (for instance 24 extra arguments
   * with values) never do, whatever the flags.
   */
  lemma ArgvFitsAsWrittenWhen(script: Option<string>, url: string, extras: seq<string>, flags: set<Flag>,
                              data: LoaderData, virtpcon: Option<string>)
    ensures |extras| + LoaderArgv.Valued(extras) <= 25 ==> FitsAsWritten(RawArgv(script, url, extras, flags, data, virtpcon))
    ensures |extras| + LoaderArgv.Valued(extras) >= 48 ==> !FitsAsWritten(RawArgv(script, url, extras, flags, data, virtpcon))
    ensures LoaderArgv.Valued(extras) >= 24 ==> !FitsAsWritten(RawArgv(script, url, extras, flags, data, virtpcon))
  {
    LoaderArgv.ExtraArgvLength(extras);
  }

  /**
   * 24 copies of one extra argument with a value need 1 + 2 + 48 slots
   * before the NULL: the 50-slot buffer overflows.
   */
  lemma ArgvOverflowsAsWritten(url: string, flags: set<Flag>, data: LoaderData, virtpcon: Option<string>)
    ensures var extras := seq(24, k => "--resolution=1024x768");
            !FitsAsWritten(RawArgv(Some("/usr/bin/anaconda"), url, extras, flags, data, virtpcon))
  {
    var extras := seq(24, k => "--resolution=1024x768");
    assert "--resolution=1024x768"[12] == '=';
    LoaderArgv.ExtraArgvAllValues(extras);
  }

  lemma ArgvFits(script: Option<string>, url: string, extras: seq<string>, flags: set<Flag>,
                 data: LoaderData, virtpcon: Option<string>)
    requires |extras| < MaxExtraArgs
    ensures |RawArgv(script, url, extras, flags, data, virtpcon)| + 1 <= ArgvSlots
  {
  }

  /* ---------------------------------------------------------------- */
  /* Building the vector                                               */

  /** Write `items` at `n` and advance past them; `done` is what the buffer holds so far. */
  method PushItems(argv: array<Option<string>>, n: nat, items: seq<Option<string>>, ghost done: seq<Option<string>>)
    returns (n': nat)
    requires n == |done| && n + |items| <= argv.Length
    requires argv[..n] == done && forall k :: n <= k < argv.Length ==> argv[k].None?
    modifies argv
    ensures n' == n + |items| && argv[..n'] == done + items
    ensures forall k :: n' <= k < argv.Length ==> argv[k].None?
  {
    n' := n;
    var j := 0;
    while j < |items|
      invariant 0 <= j <= |items| && n' == n + j
      invariant argv[..n'] == done + items[..j]
      invariant forall k :: n' <= k < argv.Length ==> argv[k].None?
    {
      argv[n'] := items[j];
      assert argv[..n' + 1] == argv[..n'] + [items[j]];
      assert items[..j + 1] == items[..j] + [items[j]];
      n' := n' + 1;
      j := j + 1;
    }
    assert items[..j] == items;
  }

  /**
   * The assembly in `main`: the vector in a buffer of Slots(variant)
   * entries with its NULL at `n`, the contents of /tmp/method when one is
   * written, and each stored extra argument cut at its `=` (the source does
   * this in place while copying).  Where the source writes past the end of
   * its 50 entries the model writes nothing and reports the overflow.
   */
  method BuildArgv(l: Loader2, script: Option<string>, url: string, virtpcon: Option<string>, variant: LoaderArgv.Variant)
    returns (argv: array<Option<string>>, n: nat, methodFile: Option<string>, overflow: bool)
    requires l.Valid()
    modifies l.extraArgs
    ensures fresh(argv) && argv.Length == Slots(variant)
    ensures var r := RawArgv(script, url, old(LoaderCmdline.ArgsBeforeNull(l.extraArgs[..])), l.flags, l.data, virtpcon);
            && (overflow <==> |r| + 1 > argv.Length)
            && (!overflow ==> n < argv.Length && argv[n].None? && argv[..n] == r)
    ensures variant == LoaderArgv.Corrected ==> !overflow
    ensures variant == LoaderArgv.AsWritten ==>
              (overflow <==> !FitsAsWritten(RawArgv(script, url, old(LoaderCmdline.ArgsBeforeNull(l.extraArgs[..])), l.flags, l.data, virtpcon)))
    ensures !overflow ==> methodFile == MethodFileContents(url)
    ensures l.Valid()
    ensures overflow ==> l.extraArgs[..] == old(l.extraArgs[..])
    ensures var e := old(LoaderCmdline.ArgsBeforeNull(l.extraArgs[..]));
            !overflow ==> forall j :: 0 <= j < |e| ==> l.extraArgs[j] == Some(LoaderArgv.SplitExtra(e[j])[0])
  {
    var e := LoaderCmdline.ArgsBeforeNull(l.extraArgs[..]);
    LoaderArgv.ArgsBeforeNullFacts(l.extraArgs[..]);
    ArgvFits(script, url, e, l.flags, l.data, virtpcon);
    var size := Slots(variant);
    if |RawArgv(script, url, e, l.flags, l.data, virtpcon)| + 1 > size {
      argv := new Option<string>[size](_ => None);
      return argv, 0, None, true;
    }
    argv, n, methodFile := FillAndCut(l, script, url, virtpcon, e, size);
    overflow := false;
  }

  /** The vector filled when it fits, then the stored extra arguments cut at their `=`. */
  method FillAndCut(l: Loader2, script: Option<string>, url: string, virtpcon: Option<string>, ghost e: seq<string>, size: nat)
    returns (argv: array<Option<string>>, n: nat, methodFile: Option<string>)
    requires l.Valid() && |e| < MaxExtraArgs
    requires forall j :: 0 <= j < |e| ==> l.extraArgs[j] == Some(e[j])
    requires l.extraArgs[|e|].None?
    requires |RawArgv(script, url, e, l.flags, l.data, virtpcon)| + 1 <= size
    modifies l.extraArgs
    ensures fresh(argv) && argv.Length == size && n < size && argv[n].None?
    ensures argv[..n] == RawArgv(script, url, e, l.flags, l.data, virtpcon)
    ensures methodFile == MethodFileContents(url)
    ensures l.Valid()
    ensures forall j :: 0 <= j < |e| ==> l.extraArgs[j] == Some(LoaderArgv.SplitExtra(e[j])[0])
  {
    argv, n, methodFile := FillArgv(l, script, url, virtpcon, e, size);
    LoaderArgv.CutExtras(l.extraArgs, e);
  }

  /** The writes into a new vector of `size` entries, before the stored extra arguments are cut. */
  method FillArgv(l: Loader2, script: Option<string>, url: string, virtpcon: Option<string>, ghost e: seq<string>, size: nat)
    returns (argv: array<Option<string>>, n: nat, methodFile: Option<string>)
    requires l.Valid() && |e| < MaxExtraArgs
    requires forall j :: 0 <= j < |e| ==> l.extraArgs[j] == Some(e[j])
    requires l.extraArgs[|e|].None?
    requires |RawArgv(script, url, e, l.flags, l.data, virtpcon)| + 1 <= size
    ensures fresh(argv) && argv.Length == size && n < size && argv[n].None?
    ensures argv[..n] == RawArgv(script, url, e, l.flags, l.data, virtpcon)
    ensures methodFile == MethodFileContents(url)
  {
    argv := new Option<string>[size](_ => None);
    ghost var head := (if script.Some? then [script] else []) + [Some("-m"), Some(MethodArg(url))];
    n := 0;
    if script.Some? {
      n := PushItems(argv, n, [script], []);
    }
    var arg := url;
    methodFile := None;
    if StartsWith(url, "ftp:") {
      methodFile := Some(url + "\r");
      arg := "@" + MethodFile;
    }
    assert argv[..n] == if script.Some? then [script] else [];
    n := PushItems(argv, n, [Some("-m"), Some(arg)], argv[..n]);
    n := PushExtras(l, argv, n, head, e);
    var options := Options(l.flags, l.data, virtpcon);
    n := PushItems(argv, n, options, argv[..n]);
  }

  /** The loop over the NULL-terminated extraArgs, copying each one into argv split at its first `=`. */
  method PushExtras(l: Loader2, argv: array<Option<string>>, n: nat, ghost head: seq<Option<string>>, ghost e: seq<string>)
    returns (n': nat)
    requires l.Valid() && argv != l.extraArgs && |head| + |LoaderArgv.ExtraArgv(e)| <= argv.Length
    requires |e| < MaxExtraArgs
    requires forall j :: 0 <= j < |e| ==> l.extraArgs[j] == Some(e[j])
    requires l.extraArgs[|e|].None?
    requires n == |head| && argv[..n] == head && forall k :: n <= k < argv.Length ==> argv[k].None?
    modifies argv
    ensures n' == |head| + |LoaderArgv.ExtraArgv(e)| && argv[..n'] == head + Somes(LoaderArgv.ExtraArgv(e))
    ensures forall k :: n' <= k < argv.Length ==> argv[k].None?
  {
    n' := n;
    var i := 0;
    assert LoaderArgv.ExtraArgv(e[..0]) == [];
    assert head + Somes([]) == head;
    ghost var done := head;
    while l.extraArgs[i].Some?
      invariant 0 <= i <= |e|
      invariant done == head + Somes(LoaderArgv.ExtraArgv(e[..i]))
      invariant n' == |done| <= argv.Length && argv[..n'] == done
      invariant forall k :: n' <= k < argv.Length ==> argv[k].None?
      decreases |e| - i
    {
      var a := l.extraArgs[i].value;
      assert a == e[i];
      var parts := LoaderArgv.SplitExtra(a);
      LoaderArgv.ExtraArgvStep(e, i);
      LoaderArgv.ExtraArgvPrefix(e, i + 1);
      n' := PushItems(argv, n', Somes(parts), done);
      SomesExtend(head, LoaderArgv.ExtraArgv(e[..i]), parts);
      done := done + Somes(parts);
      i := i + 1;
    }
    assert e[..i] == e;
  }
}
