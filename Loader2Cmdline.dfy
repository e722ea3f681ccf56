/**
 * Kernel command-line parsing of the second-generation loader
 * (loader2/loader.c): the keyword chain of `parseCmdLineFlags` over the
 * words poptParseArgvString produced, its bounded `extraArgs` buffer,
 * `parseCmdLineIp`, `parseCmdLineIpv6` and `readNetInfo`, which reads the
 * s390 `/tmp/netinfo` file after the command line.
 *
 * setMethodFromCmdline is not part of this model: the install method it
 * records for a `method=`/`stage2=` value is the field of `Env`.
 */
module Loader2Cmdline {
  import opened Wrappers
  import opened Strings
  import LoaderCmdline

  /** Size of the static `extraArgs` buffer: at most 127 entries and a NULL. */
  const MaxExtraArgs: nat := 128

  /** The entries of `installMethods[]` (not s390), in table order. */
  datatype InstallMethod = MethodCdrom | MethodHd | MethodNfs | MethodUrl

  /** The LOADER_FLAGS_* bits this loader touches. */
  datatype Flag =
    | Graphical | Text | Cmdline | Expert | AskMethod | AskNetwork | NoShell | MediaCheck
    | AllowWireless | Telnetd | NoProbe | Updates | ModDisk | Rescue | NoPass | Serial
    | NoIpv4 | NoIpv6 | KickstartSendMac | Stage2 | Selinux | IpParam | Ipv6Param
    | HaveCmsConf | Kickstart | IsKickstart | Testing | VirtPConsole

  /** The fields of `struct loaderData_s` this loader reads or writes. */
  datatype LoaderData = LoaderData(
    lang: Option<string>, langSet: bool, kbd: Option<string>, kbdSet: bool,
    instMethod: Option<InstallMethod>,
    updatessrc: Option<string>, dogtailurl: Option<string>, ddsrc: Option<string>,
    logLevel: Option<string>,
    netDev: Option<string>, netDevSet: bool, bootIf: Option<string>, bootIfSet: bool,
    netCls: Option<string>, netClsSet: bool, ksFile: Option<string>, hostname: Option<string>,
    ipv4: Option<string>, ipv6: Option<string>, ipinfoSet: bool, ipv6infoSet: bool,
    netmask: Option<string>, gateway: Option<string>, dns: Option<string>,
    ethtool: Option<string>, essid: Option<string>, mtu: int, wepkey: Option<string>,
    dhcpTimeout: int,
    peerid: Option<string>, subchannels: Option<string>, portname: Option<string>,
    nettype: Option<string>, ctcprot: Option<string>, layer2: Option<string>,
    macaddr: Option<string>)

  /** Code outside this file: the method setMethodFromCmdline records for a value. */
  datatype Env = Env(methodFromCmdline: string -> Option<InstallMethod>)

  /**
   * What parseCmdLineFlags updates besides extraArgs: loaderData, the
   * global flags, the module blacklist, $DISPLAY, the link-check globals
   * and the VNC password file.
   */
  datatype Globals = Globals(
    data: LoaderData, flags: set<Flag>, blacklist: seq<string>,
    display: Option<string>, numLinkChecks: int, postLinkSleep: int,
    vncPassword: Option<string>)

  /** The globals together with the extra arguments stored so far. */
  datatype ParseState = ParseState(g: Globals, extras: seq<string>)

  /** atoi: the value strtol reads (the C `int` range is not modelled). */
  function Atoi(s: string): int {
    LoaderCmdline.StrToLongValue(s)
  }

  /* ---------------------------------------------------------------- */
  /* parseCmdLineIp / parseCmdLineIpv6                                 */

  /**
   * parseCmdLineIp on a word starting with `ip=`.  The colon-separated
   * fields are read as in the first-generation loader, but `ipinfo_set`
   * is cleared on every path, so IP_PARAM is raised only for an address
   * starting with `dhcp`, and only on the paths that reach the end (no
   * colon, or at least three).
   */
  function ParseCmdLineIp(d: LoaderData, flags: set<Flag>, a: string): (r: (LoaderData, set<Flag>))
    requires |a| >= 3
    ensures !r.0.ipinfoSet && r.0.ipv4.Some?
    ensures r.1 == flags || r.1 == flags + {IpParam}
  {
    var u := LoaderCmdline.ParseCmdLineIp(a[3..]);
    var d1 := d.(ipv4 := Some(u.ipv4), ipinfoSet := false);
    var d2 := if u.gateway.Some? then d1.(gateway := u.gateway) else d1;
    var d3 := if u.netmask.Some? then d2.(netmask := u.netmask) else d2;
    (d3, if u.ipParam && StartsWith(u.ipv4, "dhcp") then flags + {IpParam} else flags)
  }

  /**
   * In terms of the colon-separated fields of the value: `ipv4` is the
   * first field, `gateway` the third, `netmask` everything after the third
   * colon; `ipinfo_set` ends up 0 whatever it was, and IP_PARAM is added
   * exactly when there is no colon or at least three and the address
   * starts with `dhcp`.
   */
  lemma IpFields(d: LoaderData, flags: set<Flag>, a: string)
    requires |a| >= 3
    ensures var r := ParseCmdLineIp(d, flags, a);
            var f := Split(a[3..], ':');
            && r.0.ipv4 == Some(f[0]) && !r.0.ipinfoSet
            && r.0.gateway == (if |f| >= 3 then Some(f[2]) else d.gateway)
            && r.0.netmask == (if |f| >= 4 then Some(Join(f[3..], [':'])) else d.netmask)
            && (IpParam in r.1 <==> IpParam in flags || ((|f| == 1 || |f| >= 4) && StartsWith(f[0], "dhcp")))
  {
    LoaderCmdline.IpFields(a[3..]);
  }


  /**
   * parseCmdLineIpv6 on a word starting with `ipv6=` (lower-cased in
   * place first): only `dhcp` and `auto` (as prefixes of the value) are
   * recorded; anything else clears `ipv6` and leaves `ipv6info_set` and
   * the flags alone.
   */
  function ParseCmdLineIpv6(d: LoaderData, flags: set<Flag>, a: string): (r: (LoaderData, set<Flag>))
    ensures var la := ToLower(a);
            var ok := StartsWith(la, "ipv6=dhcp") || StartsWith(la, "ipv6=auto");
            && (r.0.ipv6.Some? <==> ok)
            && (ok ==> r.0 == d.(ipv6 := r.0.ipv6, ipv6infoSet := true) && r.1 == flags + {Ipv6Param})
            && (!ok ==> r.0 == d.(ipv6 := None) && r.1 == flags)
    ensures StartsWith(ToLower(a), "ipv6=dhcp") ==> r.0.ipv6 == Some("dhcp")
    ensures !StartsWith(ToLower(a), "ipv6=dhcp") && StartsWith(ToLower(a), "ipv6=auto") ==> r.0.ipv6 == Some("auto")
  {
    var la := ToLower(a);
    var v6: Option<string> :=
      if StartsWith(la, "ipv6=dhcp") then Some("dhcp")
      else if StartsWith(la, "ipv6=auto") then Some("auto")
      else None;
    if v6.Some? then (d.(ipv6 := v6, ipv6infoSet := true), flags + {Ipv6Param})
    else (d.(ipv6 := None), flags)
  }

  /* ---------------------------------------------------------------- */
  /* BOOTIF= and dd=/driverdisk=                                       */

  /**
   * The BOOTIF value as written: the word is read from offset 10
   * (skipping `BOOTIF=` and an assumed `01-`), whatever its length; None
   * stands for an offset past the end of the word.
   */
  function BootIfAsWritten(a: string): (r: Option<string>)
    requires StartsWith(a, "BOOTIF=")
    ensures r.Some? <==> |a| >= 10
    ensures r.Some? ==> |r.value| == |a| - 10
  {
    if |a| >= 10 then Some(ReplaceChar(a[10..], '-', ':')) else None
  }

  /**
   * The BOOTIF value as intended (and as the first-generation loader
   * does it): `01-` is cut only when present, then every `-` becomes `:`.
   */
  function BootIf(a: string): (r: string)
    requires StartsWith(a, "BOOTIF=")
    ensures '-' !in r
    ensures |r| == if StartsWith(a[7..], "01-") then |a| - 10 else |a| - 7
    ensures StartsWith(a[7..], "01-") ==> BootIfAsWritten(a) == Some(r)
  {
    var v := a[7..];
    if StartsWith(v, "01-") then
      assert a[10..] == v[3..];
      LoaderCmdline.BootIfValue(v)
    else LoaderCmdline.BootIfValue(v)
  }

  /**
   * A short value is read past its end, and a bare MAC address (17
   * characters) loses its first three, where the intended reading keeps
   * all of it.
   */
  lemma BootIfAsWrittenFails()
    ensures BootIfAsWritten("BOOTIF=1").None?
    ensures var w := "BOOTIF=52-54-00-12-34-56";
            |BootIfAsWritten(w).value| == 14 && |BootIf(w)| == 17
  {
    var p := "BOOTIF=";
    var w1 := "BOOTIF=1";
    assert forall i | 0 <= i < |p| :: w1[i] == p[i];
    assert w1[..|p|] == p;
    var w := "BOOTIF=52-54-00-12-34-56";
    assert forall i | 0 <= i < |p| :: w[i] == p[i];
    assert w[..|p|] == p;
    assert w[7..][0] != "01-"[0];
    assert !StartsWith(w[7..], "01-");
  }

  /**
   * The driver-disk source as written: the offset is 11 when the second
   * character is a lower-case `r` and 3 otherwise, although the prefix was
   * matched ignoring case.
   */
  function DdSourceAsWritten(a: string): (r: string)
    requires StartsWith(ToLower(a), "dd=") || StartsWith(ToLower(a), "driverdisk=")
    ensures |r| == |a| - 3 || |r| == |a| - 11
  {
    if a[1] == 'r' then a[11..] else a[3..]
  }

  /** The driver-disk source as intended: the text after whichever prefix matched. */
  function DdSource(a: string): (r: string)
    requires StartsWith(ToLower(a), "dd=") || StartsWith(ToLower(a), "driverdisk=")
    ensures StartsWith(ToLower(a), "dd=") ==> r == a[3..]
    ensures StartsWith(ToLower(a), "driverdisk=") ==> r == a[11..]
    ensures a[1] != 'R' ==> r == DdSourceAsWritten(a)
  {
    var la := ToLower(a);
    if StartsWith(la, "dd=") then
      assert la[1] == 'd';
      a[3..]
    else
      assert la[1] == 'r';
      a[11..]
  }

  /**
   * `DRIVERDISK=` followed by any source (`hd:sdb1`, say) yields the
   * source behind `VERDISK=` where the source alone is meant.
   */
  lemma DdSourceAsWrittenFails(src: string)
    ensures var w := "DRIVERDISK=" + src;
            && StartsWith(ToLower(w), "driverdisk=")
            && DdSourceAsWritten(w) == "VERDISK=" + src && DdSource(w) == src
  {
    var w := "DRIVERDISK=" + src;
    assert w[..11] == "DRIVERDISK=";
    UpperDriverDisk(w);
    assert w[3..] == "VERDISK=" + src && w[11..] == src;
  }

  /** A word in capitals: it matches `driverdisk=` but not `dd=`, and its second letter is `R`. */
  lemma UpperDriverDisk(w: string)
    requires |w| >= 11 && w[..11] == "DRIVERDISK="
    ensures StartsWith(ToLower(w), "driverdisk=") && !StartsWith(ToLower(w), "dd=") && w[1] == 'R'
  {
    var lw := ToLower(w);
    var u := w[..11];
    assert u[0] == 'D' && u[1] == 'R' && u[2] == 'I' && u[3] == 'V' && u[4] == 'E' && u[5] == 'R';
    assert u[6] == 'D' && u[7] == 'I' && u[8] == 'S' && u[9] == 'K' && u[10] == '=';
    assert lw[..11] == "driverdisk=";
    assert lw[..3][1] == lw[1] == 'r' != "dd="[1];
  }

  /* ---------------------------------------------------------------- */
  /* parseCmdLineFlags: the keyword chain                              */

  /**
   * The chain of tests in parseCmdLineFlags, in source order, on one word
   * of the command line (compared ignoring case, except `BOOTIF=`); None
   * when no test matches and the word goes on to the extras branch.
   */
  function Keyword(g: Globals, a: string, env: Env): (r: Option<Globals>)
  {
    var r1 := ModeKeyword(g, a);
    if r1.Some? then r1 else
    var r2 := SourceKeyword(g, a);
    if r2.Some? then r2 else
    var r3 := FlagKeyword(g, a);
    if r3.Some? then r3 else
    var r4 := ValueKeyword(g, a);
    if r4.Some? then r4 else
    var r5 := MethodKeyword(g, a, env);
    if r5.Some? then r5 else NetKeyword(g, a)
  }

  /** From `expert` to `cmdline`: the interface modes and prompts. */
  function ModeKeyword(g: Globals, a: string): (r: Option<Globals>)
    ensures r.Some? ==> r.value == g.(flags := r.value.flags)
  {
    var la := ToLower(a);
    var f := g.flags;
    if la == "expert" then Some(g.(flags := f + {Expert}))
    else if la == "askmethod" then Some(g.(flags := f + {AskMethod}))
    else if la == "asknetwork" then Some(g.(flags := f + {AskNetwork}))
    else if la == "noshell" then Some(g.(flags := f + {NoShell}))
    else if la == "mediacheck" then Some(g.(flags := f + {MediaCheck}))
    else if la == "allowwireless" then Some(g.(flags := f + {AllowWireless}))
    else if la == "telnet" then Some(g.(flags := f + {Telnetd}))
    else if la == "noprobe" then Some(g.(flags := f + {NoProbe}))
    else if la == "text" then Some(g.(flags := f + {Text} - {Graphical}))
    else if la == "graphical" then Some(g.(flags := f + {Graphical}))
    else if la == "cmdline" then Some(g.(flags := f + {Cmdline}))
    else None
  }

  /** From `updates=` to `driverdisk`: updates, dogtail and driver-disk sources. */
  function SourceKeyword(g: Globals, a: string): (r: Option<Globals>)
  {
    var la := ToLower(a);
    var f := g.flags;
    var d := g.data;
    if StartsWith(la, "updates=") then Some(g.(data := d.(updatessrc := Some(a[8..]))))
    else if StartsWith(la, "updates") then Some(g.(flags := f + {Updates}))
    else if StartsWith(la, "dogtail=") then Some(g.(data := d.(dogtailurl := Some(a[8..]))))
    else if StartsWith(la, "dd=") || StartsWith(la, "driverdisk=") then
      Some(g.(data := d.(ddsrc := Some(DdSource(a)))))
    else if la == "dd" || la == "driverdisk" then Some(g.(flags := f + {ModDisk}))
    else None
  }

  /** From `rescue` to `nofirewire`: plain flags and the deprecated module blacklists. */
  function FlagKeyword(g: Globals, a: string): (r: Option<Globals>)
    ensures r.Some? ==> r.value.data == g.data
  {
    var la := ToLower(a);
    var f := g.flags;
    if la == "rescue" then Some(g.(flags := f + {Rescue}))
    else if la == "nopass" then Some(g.(flags := f + {NoPass}))
    else if la == "serial" then Some(g.(flags := f + {Serial}))
    else if la == "noipv4" then Some(g.(flags := f + {NoIpv4}))
    else if la == "noipv6" then Some(g.(flags := f + {NoIpv6}))
    else if la == "kssendmac" then Some(g.(flags := f + {KickstartSendMac}))
    else if la == "nousbstorage" then Some(g.(blacklist := g.blacklist + ["usb-storage"]))
    else if la == "nousb" then Some(g.(blacklist := g.blacklist + ["ehci-hcd", "ohci-hcd", "uhci-hcd"]))
    else if la == "nofirewire" then Some(g.(blacklist := g.blacklist + ["firewire-ohci"]))
    else None
  }

  /** The log levels `loglevel=` accepts, compared ignoring case. */
  predicate IsLogLevel(lv: string) {
    lv in {"debug", "info", "warning", "error", "critical"}
  }

  /** From `loglevel=` to `keymap=`: values copied into loaderData or $DISPLAY. */
  function ValueKeyword(g: Globals, a: string): (r: Option<Globals>)
  {
    var la := ToLower(a);
    var d := g.data;
    if StartsWith(la, "loglevel=") then
      if IsLogLevel(la[9..]) then Some(g.(data := d.(logLevel := Some(a[9..])))) else Some(g)
    else if StartsWith(la, "ksdevice=") then Some(g.(data := d.(netDev := Some(a[9..]), netDevSet := true)))
    else if StartsWith(a, "BOOTIF=") then Some(g.(data := d.(bootIf := Some(BootIf(a)), bootIfSet := true)))
    else if StartsWith(la, "dhcpclass=") then Some(g.(data := d.(netCls := Some(a[10..]), netClsSet := true)))
    else if la == "ks" || StartsWith(la, "ks=") then Some(g.(data := d.(ksFile := Some(a))))
    else if StartsWith(la, "display=") then Some(g.(display := Some(a[8..])))
    else if StartsWith(la, "lang=") && |a| > 5 then Some(g.(data := d.(lang := Some(a[5..]), langSet := true)))
    else if StartsWith(la, "keymap=") && |a| > 7 then Some(g.(data := d.(kbd := Some(a[7..]), kbdSet := true)))
    else None
  }

  /** From `method=` to `ipv6=`: the install source, the host name and the addresses. */
  function MethodKeyword(g: Globals, a: string, env: Env): (r: Option<Globals>)
  {
    var la := ToLower(a);
    var f := g.flags;
    var d := g.data;
    if StartsWith(la, "method=") && Stage2 !in f then Some(g.(data := SetMethod(d, a[7..], env)))
    else if StartsWith(la, "stage2=") then Some(g.(flags := f + {Stage2}, data := SetMethod(d, a[7..], env)))
    else if StartsWith(la, "hostname=") then Some(g.(data := d.(hostname := Some(a[9..]))))
    else if StartsWith(la, "ip=") then
      var r := ParseCmdLineIp(d, f, a);
      Some(g.(data := r.0, flags := r.1))
    else if StartsWith(la, "ipv6=") then
      var r := ParseCmdLineIpv6(d, f, a);
      Some(g.(data := r.0, flags := r.1))
    else None
  }

  /** From `netmask=` to `selinux`: network settings, link-check delays and SELinux. */
  function NetKeyword(g: Globals, a: string): (r: Option<Globals>)
  {
    var la := ToLower(a);
    var d := g.data;
    if StartsWith(la, "netmask=") then Some(g.(data := d.(netmask := Some(a[8..]))))
    else if StartsWith(la, "gateway=") then Some(g.(data := d.(gateway := Some(a[8..]))))
    else if StartsWith(la, "dns=") then Some(g.(data := d.(dns := Some(a[4..]))))
    else if StartsWith(la, "ethtool=") then Some(g.(data := d.(ethtool := Some(a[8..]))))
    else if StartsWith(la, "essid=") then Some(g.(data := d.(essid := Some(a[6..]))))
    else if StartsWith(la, "mtu=") then Some(g.(data := d.(mtu := Atoi(a[4..]))))
    else if StartsWith(la, "wepkey=") then Some(g.(data := d.(wepkey := Some(a[7..]))))
    else if StartsWith(la, "linksleep=") then Some(g.(numLinkChecks := Atoi(a[10..])))
    else if StartsWith(la, "nicdelay=") then Some(g.(postLinkSleep := Atoi(a[9..])))
    else if StartsWith(la, "dhcptimeout=") then Some(g.(data := d.(dhcpTimeout := Atoi(a[12..]))))
    else if StartsWith(la, "selinux=0") then Some(g.(flags := g.flags - {Selinux}))
    else if StartsWith(la, "selinux") then Some(g.(flags := g.flags + {Selinux}))
    else None
  }

  /** setMethodFromCmdline: the method recorded for a value it recognises. */
  function SetMethod(d: LoaderData, v: string, env: Env): (r: LoaderData)
    ensures r.(instMethod := d.instMethod) == d
    ensures r.instMethod == if env.methodFromCmdline(v).Some? then env.methodFromCmdline(v) else d.instMethod
  {
    match env.methodFromCmdline(v)
    case Some(m) => d.(instMethod := Some(m))
    case None => d
  }

  /* ---------------------------------------------------------------- */
  /* parseCmdLineFlags: the extra arguments                            */

  /**
   * The words handed on to anaconda: the prefixes `resolution=`, `lowres`,
   * `nomount`, `vnc`, `headless`, `usefbx`, `dmraid`, `nodmraid`,
   * `xdriver=`, `vesa`, `syslog=`, and the whole words `mpath` and
   * `nompath` (compared over one character more than their length).
   * `vncconnect=` is in the source's list too but is covered by `vnc`.
   */
  predicate IsExtraArg(la: string) {
    || StartsWith(la, "resolution=") || StartsWith(la, "lowres") || StartsWith(la, "nomount")
    || StartsWith(la, "vnc") || StartsWith(la, "headless") || StartsWith(la, "usefbx")
    || la == "mpath" || la == "nompath" || StartsWith(la, "dmraid") || StartsWith(la, "nodmraid")
    || StartsWith(la, "xdriver=") || StartsWith(la, "vesa") || StartsWith(la, "syslog=")
  }

  /** A word that reaches the extras branch and is stored there. */
  predicate PassesOn(a: string) {
    var la := ToLower(a);
    !StartsWith(la, "vncpassword=") && IsExtraArg(la)
  }

  /** The stored text: `--xdriver=vesa` for the deprecated `vesa`, otherwise `--` and the word. */
  function ExtraText(a: string): (r: string)
    ensures StartsWith(r, "--")
  {
    if StartsWith(ToLower(a), "vesa") then "--xdriver=vesa" else "--" + a
  }

  /** No word handed on is one of the chain's keywords, so every one of them reaches the extras branch. */
  lemma ExtraIsNoKeyword(g: Globals, a: string, env: Env)
    ensures PassesOn(a) ==> Keyword(g, a, env).None?
  {
    if PassesOn(a) {
      ExtraNotMode(g, a);
      ExtraNotSource(g, a);
      ExtraNotFlag(g, a);
      ExtraNotValue(g, a);
      ExtraNotMethod(g, a, env);
      ExtraNotNet(g, a);
    }
  }

  /**
   * What the first characters of a lower-cased word handed on look like;
   * no keyword of the chain starts that way.
   */
  predicate ExtraHeadOk(la: string) {
    && |la| >= 3
    && la[0] in "rlnvhumdxs"
    && (la[0] == 'l' ==> la[1] == 'o' && la[2] == 'w')
    && (la[0] == 'n' ==> la[1] == 'o' && la[2] in "md")
    && (la[0] == 'h' ==> la[1] == 'e')
    && (la[0] == 'u' ==> la[1] == 's')
    && (la[0] == 'm' ==> la[1] == 'p')
    && (la[0] == 'd' ==> la[1] == 'm')
    && (la[0] == 's' ==> la[1] == 'y')
    && (la[0] == 'r' ==> |la| >= 4 && la[1] == 'e' && la[3] == 'o')
  }

  lemma ExtraHead(a: string)
    requires PassesOn(a)
    ensures ExtraHeadOk(ToLower(a))
  {
    var la := ToLower(a);
    ExtraArgHead(la);
  }

  lemma ExtraArgHead(la: string)
    requires IsExtraArg(la)
    ensures ExtraHeadOk(la)
  {
    if StartsWith(la, "resolution=") {
      PrefixHead(la, "resolution=");
      assert la[3] == la[..11][3];
    } else if StartsWith(la, "lowres") {
      PrefixHead(la, "lowres");
    } else if StartsWith(la, "nomount") {
      PrefixHead(la, "nomount");
    } else if StartsWith(la, "vnc") {
      PrefixHead(la, "vnc");
    } else if StartsWith(la, "headless") {
      PrefixHead(la, "headless");
    } else if StartsWith(la, "usefbx") {
      PrefixHead(la, "usefbx");
    } else if StartsWith(la, "dmraid") {
      PrefixHead(la, "dmraid");
    } else if StartsWith(la, "nodmraid") {
      PrefixHead(la, "nodmraid");
    } else if StartsWith(la, "xdriver=") {
      PrefixHead(la, "xdriver=");
    } else if StartsWith(la, "vesa") {
      PrefixHead(la, "vesa");
    } else if StartsWith(la, "syslog=") {
      PrefixHead(la, "syslog=");
    }
  }

  /** The first three characters of a word starting with `p`. */
  lemma PrefixHead(s: string, p: string)
    requires StartsWith(s, p) && |p| >= 3
    ensures |s| >= 3 && s[0] == p[0] && s[1] == p[1] && s[2] == p[2]
  {
    assert s[..|p|][0] == s[0] && s[..|p|][1] == s[1] && s[..|p|][2] == s[2];
  }

  /** A word starting with a prefix of three or more characters shares its first three. */
  lemma StartsWithHead(s: string)
    ensures forall p {:trigger StartsWith(s, p)} :: StartsWith(s, p) && |p| >= 3 ==>
              |s| >= 3 && s[0] == p[0] && s[1] == p[1] && s[2] == p[2]
  {
    forall p | StartsWith(s, p) && |p| >= 3
      ensures |s| >= 3 && s[0] == p[0] && s[1] == p[1] && s[2] == p[2]
    {
      assert s[..|p|][0] == s[0] && s[..|p|][1] == s[1] && s[..|p|][2] == s[2];
    }
  }

  lemma ExtraNotMode(g: Globals, a: string)
    requires PassesOn(a)
    ensures ModeKeyword(g, a).None?
  {
    ExtraHead(a);
    NoModeWord(ToLower(a));
  }

  lemma NoModeWord(la: string)
    requires ExtraHeadOk(la)
    ensures la !in {"expert", "askmethod", "asknetwork", "noshell", "mediacheck", "allowwireless", "telnet", "noprobe", "text", "graphical", "cmdline"}
  {
    StartsWithHead(la);
  }

  lemma ExtraNotSource(g: Globals, a: string)
    requires PassesOn(a)
    ensures SourceKeyword(g, a).None?
  {
    ExtraHead(a);
    NoSourceWord(ToLower(a));
  }

  lemma NoSourceWord(la: string)
    requires ExtraHeadOk(la)
    ensures la !in {"dd", "driverdisk"}
    ensures !StartsWith(la, "updates") && !StartsWith(la, "dogtail=") && !StartsWith(la, "dd=") && !StartsWith(la, "driverdisk=")
  {
    StartsWithHead(la);
  }

  lemma ExtraNotFlag(g: Globals, a: string)
    requires PassesOn(a)
    ensures FlagKeyword(g, a).None?
  {
    ExtraHead(a);
    NoFlagWord(ToLower(a));
  }

  lemma NoFlagWord(la: string)
    requires ExtraHeadOk(la)
    ensures la !in {"rescue", "nopass", "serial", "noipv4", "noipv6", "kssendmac", "nousbstorage", "nousb", "nofirewire"}
  {
    StartsWithHead(la);
  }

  lemma ExtraNotValue(g: Globals, a: string)
    requires PassesOn(a)
    ensures ValueKeyword(g, a).None?
  {
    ExtraHead(a);
    NoValueWord(ToLower(a));
    assert ToLower(a)[0] == Lower(a[0]) && Lower('B') == 'b';
    assert !StartsWith(a, "BOOTIF=") by { StartsWithHead(a); }
  }

  lemma NoValueWord(la: string)
    requires ExtraHeadOk(la)
    ensures la[0] != 'b'
    ensures la !in {"ks"}
    ensures !StartsWith(la, "loglevel=") && !StartsWith(la, "ksdevice=") && !StartsWith(la, "dhcpclass=")
    ensures !StartsWith(la, "ks=") && !StartsWith(la, "display=") && !StartsWith(la, "lang=") && !StartsWith(la, "keymap=")
  {
    StartsWithHead(la);
  }

  lemma ExtraNotMethod(g: Globals, a: string, env: Env)
    requires PassesOn(a)
    ensures MethodKeyword(g, a, env).None?
  {
    ExtraHead(a);
    NoMethodWord(ToLower(a));
  }

  lemma NoMethodWord(la: string)
    requires ExtraHeadOk(la)
    ensures !StartsWith(la, "method=") && !StartsWith(la, "stage2=") && !StartsWith(la, "hostname=")
    ensures !StartsWith(la, "ip=") && !StartsWith(la, "ipv6=")
  {
    StartsWithHead(la);
  }

  lemma ExtraNotNet(g: Globals, a: string)
    requires PassesOn(a)
    ensures NetKeyword(g, a).None?
  {
    ExtraHead(a);
    NoNetWord(ToLower(a));
  }

  lemma NoNetWord(la: string)
    requires ExtraHeadOk(la)
    ensures !StartsWith(la, "netmask=") && !StartsWith(la, "gateway=") && !StartsWith(la, "dns=")
    ensures !StartsWith(la, "ethtool=") && !StartsWith(la, "essid=") && !StartsWith(la, "mtu=")
    ensures !StartsWith(la, "wepkey=") && !StartsWith(la, "linksleep=") && !StartsWith(la, "nicdelay=")
    ensures !StartsWith(la, "dhcptimeout=") && !StartsWith(la, "selinux=0") && !StartsWith(la, "selinux")
  {
    StartsWithHead(la);
  }


  /**
   * The extras branch, run while fewer than 127 entries are stored:
   * `vncpassword=` writes the password file (not in test mode), a
   * pass-through word is stored, a `vnc` word also forcing graphical mode.
   */
  function ApplyExtra(st: ParseState, a: string): (r: ParseState)
    ensures r.g.data == st.g.data && r.g.blacklist == st.g.blacklist
    ensures r.extras == st.extras + (if PassesOn(a) then [ExtraText(a)] else [])
    ensures r.g.flags == st.g.flags + (if PassesOn(a) && StartsWith(ToLower(a), "vnc") then {Graphical} else {})
  {
    var la := ToLower(a);
    var g := st.g;
    if StartsWith(la, "vncpassword=") then
      if Testing in g.flags then st else st.(g := g.(vncPassword := Some(a[12..])))
    else if IsExtraArg(la) then
      var f := if StartsWith(la, "vnc") then g.flags + {Graphical} else g.flags;
      ParseState(g.(flags := f), st.extras + [ExtraText(a)])
    else st
  }

  /** One iteration of the loop: the keyword chain, or else the extras branch while there is room. */
  function ParseStep(st: ParseState, a: string, env: Env): (r: ParseState)
    ensures Keyword(st.g, a, env).Some? ==> r == ParseState(Keyword(st.g, a, env).value, st.extras)
    ensures r.extras == st.extras + (if |st.extras| < MaxExtraArgs - 1 && PassesOn(a) then [ExtraText(a)] else [])
  {
    ExtraIsNoKeyword(st.g, a, env);
    match Keyword(st.g, a, env)
    case Some(g1) => ParseState(g1, st.extras)
    case None =>
      if |st.extras| < MaxExtraArgs - 1 then ApplyExtra(st, a) else st
  }

  /** The whole loop over the words of the command line. */
  function ParseAll(st: ParseState, args: seq<string>, env: Env): ParseState
    decreases |args|
  {
    if args == [] then st else ParseAll(ParseStep(st, args[0], env), args[1..], env)
  }

  lemma ParseAllStep(st: ParseState, args: seq<string>, i: nat, env: Env)
    requires i < |args|
    ensures ParseAll(st, args[i..], env) == ParseAll(ParseStep(st, args[i], env), args[i + 1..], env)
  {
    assert args[i..][0] == args[i] && args[i..][1..] == args[i + 1..];
  }

  /** The texts of the words passed on, in command-line order. */
  function PassedOn(args: seq<string>): (r: seq<string>)
    ensures |r| <= |args|
  {
    if args == [] then []
    else (if PassesOn(args[0]) then [ExtraText(args[0])] else []) + PassedOn(args[1..])
  }

  /**
   * The stored extra arguments are the first words passed on, at most
   * MAX_EXTRA_ARGS - 1 of them; later ones are dropped.
   */
  lemma {:induction false} ExtrasAreFirstPassedOn(st: ParseState, args: seq<string>, env: Env)
    requires |st.extras| <= MaxExtraArgs - 1
    ensures ParseAll(st, args, env).extras == st.extras + LoaderCmdline.Take(PassedOn(args), MaxExtraArgs - 1 - |st.extras|)
    decreases |args|
  {
    if args != [] {
      var a := args[0];
      var st2 := ParseStep(st, a, env);
      assert ParseAll(st, args, env) == ParseAll(st2, args[1..], env);
      var head := if PassesOn(a) then [ExtraText(a)] else [];
      assert PassedOn(args) == head + PassedOn(args[1..]);
      assert st2.extras == if |st.extras| < MaxExtraArgs - 1 then st.extras + head else st.extras;
      ExtrasAreFirstPassedOn(st2, args[1..], env);
      LoaderCmdline.ExtrasJoin(st.extras, st2.extras, head, PassedOn(args[1..]));
    }
  }

  /** `vnc` anywhere among the words handed on, within the first 127, forces graphical mode. */
  lemma {:induction false} VncForcesGraphical(st: ParseState, args: seq<string>, env: Env, k: nat)
    requires k < |args| && PassesOn(args[k]) && StartsWith(ToLower(args[k]), "vnc")
    requires |ParseAll(st, args[..k], env).extras| < MaxExtraArgs - 1
    requires forall j :: k < j < |args| ==> ToLower(args[j]) != "text"
    ensures Graphical in ParseAll(st, args, env).g.flags
    decreases k
  {
    if k == 0 {
      var st1 := ParseStep(st, args[0], env);
      ExtraIsNoKeyword(st.g, args[0], env);
      assert Graphical in st1.g.flags;
      GraphicalStays(st1, args[1..], env);
    } else {
      assert args[..k][0] == args[0] && args[..k][1..] == args[1..][..k - 1];
      VncForcesGraphical(ParseStep(st, args[0], env), args[1..], env, k - 1);
    }
  }

  /** Only `text` takes graphical mode away. */
  lemma {:induction false} GraphicalStays(st: ParseState, args: seq<string>, env: Env)
    requires Graphical in st.g.flags
    requires forall j :: 0 <= j < |args| ==> ToLower(args[j]) != "text"
    ensures Graphical in ParseAll(st, args, env).g.flags
    decreases |args|
  {
    if args != [] {
      GraphicalStep(st, args[0], env);
      GraphicalStays(ParseStep(st, args[0], env), args[1..], env);
    }
  }

  lemma GraphicalStep(st: ParseState, a: string, env: Env)
    requires Graphical in st.g.flags && ToLower(a) != "text"
    ensures Graphical in ParseStep(st, a, env).g.flags
  {
    KeywordFlagsGrow(st.g, a, env);
  }

  /** Apart from `text` and `selinux=0`, a keyword only ever adds flags. */
  lemma KeywordFlagsGrow(g: Globals, a: string, env: Env)
    requires ToLower(a) != "text"
    ensures Keyword(g, a, env).Some? ==> g.flags - {Selinux} <= Keyword(g, a, env).value.flags
  {
    ModeFlagsGrow(g, a);
    SourceFlagsGrow(g, a);
    FlagFlagsGrow(g, a);
    ValueFlagsGrow(g, a);
    MethodFlagsGrow(g, a, env);
    NetFlagsGrow(g, a);
  }

  lemma ModeFlagsGrow(g: Globals, a: string)
    requires ToLower(a) != "text"
    ensures ModeKeyword(g, a).Some? ==> g.flags <= ModeKeyword(g, a).value.flags
  {
  }

  lemma SourceFlagsGrow(g: Globals, a: string)
    ensures SourceKeyword(g, a).Some? ==> g.flags <= SourceKeyword(g, a).value.flags
  {
  }

  lemma FlagFlagsGrow(g: Globals, a: string)
    ensures FlagKeyword(g, a).Some? ==> g.flags <= FlagKeyword(g, a).value.flags
  {
  }

  lemma ValueFlagsGrow(g: Globals, a: string)
    ensures ValueKeyword(g, a).Some? ==> g.flags <= ValueKeyword(g, a).value.flags
  {
  }

  lemma MethodFlagsGrow(g: Globals, a: string, env: Env)
    ensures MethodKeyword(g, a, env).Some? ==> g.flags <= MethodKeyword(g, a, env).value.flags
  {
  }

  lemma NetFlagsGrow(g: Globals, a: string)
    ensures NetKeyword(g, a).Some? ==> g.flags - {Selinux} <= NetKeyword(g, a).value.flags
  {
  }

  /* ---------------------------------------------------------------- */
  /* readNetInfo                                                       */

  /** The line fgets read, cut at its first white space (the newline included). */
  function CutAtSpace(line: string): (r: string)
    ensures |r| <= |line| && r == line[..|r|]
    ensures forall i :: 0 <= i < |r| ==> !IsSpace(r[i])
    ensures |r| < |line| ==> IsSpace(line[|r|])
  {
    line[..WordLength(line)]
  }

  /** The non-empty pieces of a sequence of strings, in order. */
  function NonEmpty(pieces: seq<string>): (r: seq<string>)
    ensures forall k :: 0 <= k < |r| ==> r[k] != [] && r[k] in pieces
    ensures forall p :: p in pieces && p != [] ==> p in r
    ensures |r| <= |pieces|
  {
    if pieces == [] then []
    else (if pieces[0] == [] then [] else [pieces[0]]) + NonEmpty(pieces[1..])
  }

  /** Dropping the empty pieces of two runs one after the other keeps each run's pieces in order. */
  lemma {:induction false} NonEmptyAppend(a: seq<string>, b: seq<string>)
    ensures NonEmpty(a + b) == NonEmpty(a) + NonEmpty(b)
    decreases |a|
  {
    if a == [] {
      assert a + b == b;
    } else {
      assert (a + b)[0] == a[0];
      assert (a + b)[1..] == a[1..] + b;
      NonEmptyAppend(a[1..], b);
    }
  }

  /** strtok over `=`: the successive non-empty runs of characters other than `=`. */
  function Tokens(s: string): (r: seq<string>)
    ensures forall k :: 0 <= k < |r| ==> r[k] != []
  {
    NonEmpty(Split(s, '='))
  }

  /**
   * The variable a netinfo line assigns: the first two strtok tokens of
   * the line cut at white space, when it holds an `=` and has both.
   */
  function NetVar(line: string): (r: Option<(string, string)>)
    ensures r.Some? ==> r.value.0 != [] && r.value.1 != [] && '=' in CutAtSpace(line)
  {
    var t := CutAtSpace(line);
    var toks := Tokens(t);
    if '=' in t && |toks| >= 2 then Some((toks[0], toks[1])) else None
  }

  /**
   * A shell assignment `NAME=VALUE`, followed by the newline or other
   * white space, is read back as that name and value.
   */
  lemma NetVarOfAssignment(name: string, value: string, rest: string)
    requires name != [] && value != [] && '=' !in name && '=' !in value
    requires forall i :: 0 <= i < |name| ==> !IsSpace(name[i])
    requires forall i :: 0 <= i < |value| ==> !IsSpace(value[i])
    requires rest == [] || IsSpace(rest[0])
    ensures NetVar(name + "=" + value + rest) == Some((name, value))
  {
    var line := name + "=" + value + rest;
    var t := name + "=" + value;
    assert forall i :: 0 <= i < |t| ==> !IsSpace(t[i]) by {
      forall i | 0 <= i < |t| ensures !IsSpace(t[i]) {
        if i < |name| { assert t[i] == name[i]; }
        else if i > |name| { assert t[i] == value[i - |name| - 1]; }
      }
    }
    CutAtSpaceOf(line, t, rest);
    assert line == t + rest;
    SplitAt(name, value);
    assert t[|name|] == '=';
  }

  lemma CutAtSpaceOf(line: string, t: string, rest: string)
    requires line == t + rest
    requires forall i :: 0 <= i < |t| ==> !IsSpace(t[i])
    requires rest == [] || IsSpace(rest[0])
    ensures CutAtSpace(line) == t
  {
    assert line[..|t|] == t;
  }

  lemma SplitAt(name: string, value: string)
    requires name != [] && value != [] && '=' !in name && '=' !in value
    ensures Tokens(name + "=" + value) == [name, value]
  {
    var t := name + "=" + value;
    assert t[..|name|] == name;
    FindCharNone(value, '=');
    assert t[|name| + 1..] == value;
    FindCharAt(t, '=', |name|);
    assert Split(value, '=') == [value];
    assert Split(t, '=') == [name, value];
    assert NonEmpty([value]) == [value] + NonEmpty([]);
    assert NonEmpty([name, value]) == [name] + NonEmpty([value]);
  }

  /** The variables readNetInfo looks for. */
  datatype NetKey =
    | IpAddr | Netmask | Gateway | Dns | Mtu | PeerId | SubChannels | PortName | NetType
    | CtcProt | Layer2 | MacAddr | HostName

  function KeyName(k: NetKey): string {
    match k
    case IpAddr => "IPADDR"
    case Netmask => "NETMASK"
    case Gateway => "GATEWAY"
    case Dns => "DNS"
    case Mtu => "MTU"
    case PeerId => "PEERID"
    case SubChannels => "SUBCHANNELS"
    case PortName => "PORTNAME"
    case NetType => "NETTYPE"
    case CtcProt => "CTCPROT"
    case Layer2 => "LAYER2"
    case MacAddr => "MACADDR"
    case HostName => "HOSTNAME"
  }

  /**
   * strncmp(name, key, n) == 0 with n the length of the key, so the name
   * only has to start with it; SUBCHANNELS is compared up to its NUL and
   * must match whole.
   */
  predicate KeyMatches(name: string, k: NetKey) {
    if k == SubChannels then name == KeyName(k) else StartsWith(name, KeyName(k))
  }

  /** Whether a line's variable is `k`. */
  predicate Assigns(v: Option<(string, string)>, k: NetKey) {
    v.Some? && KeyMatches(v.value.0, k)
  }

  /** A field after one line: the line's value when it assigns `k`. */
  function Assigned(v: Option<(string, string)>, k: NetKey, cur: Option<string>): Option<string> {
    if Assigns(v, k) then Some(v.value.1) else cur
  }

  /** The assignments of one netinfo variable, each tested independently as in the source. */
  function ApplyNetVar(d: LoaderData, v: Option<(string, string)>): LoaderData
  {
    d.(ipv4 := Assigned(v, IpAddr, d.ipv4),
       netmask := Assigned(v, Netmask, d.netmask),
       gateway := Assigned(v, Gateway, d.gateway),
       dns := Assigned(v, Dns, d.dns),
       mtu := if Assigns(v, Mtu) then Atoi(v.value.1) else d.mtu,
       peerid := Assigned(v, PeerId, d.peerid),
       subchannels := Assigned(v, SubChannels, d.subchannels),
       portname := Assigned(v, PortName, d.portname),
       nettype := Assigned(v, NetType, d.nettype),
       ctcprot := Assigned(v, CtcProt, d.ctcprot),
       layer2 := Assigned(v, Layer2, d.layer2),
       macaddr := Assigned(v, MacAddr, d.macaddr),
       hostname := Assigned(v, HostName, d.hostname))
  }

  /** The variables the lines of the file assign, in order. */
  function NetVars(lines: seq<string>): (r: seq<Option<(string, string)>>)
    ensures |r| == |lines| && forall i :: 0 <= i < |lines| ==> r[i] == NetVar(lines[i])
  {
    seq(|lines|, i requires 0 <= i < |lines| => NetVar(lines[i]))
  }

  /** The variables applied in order, starting from `d`. */
  function NetInfoVars(d: LoaderData, vars: seq<Option<(string, string)>>): LoaderData
    decreases |vars|
  {
    if vars == [] then d else ApplyNetVar(NetInfoVars(d, vars[..|vars| - 1]), vars[|vars| - 1])
  }

  /** The fields cleared before the file is read (not `mtu` or `hostname`). */
  function NetInfoReset(d: LoaderData): LoaderData {
    d.(ipv4 := None, netmask := None, gateway := None, dns := None, peerid := None,
       subchannels := None, portname := None, nettype := None, ctcprot := None,
       layer2 := None, macaddr := None)
  }

  /** The value the last assignment to `k` gives it. */
  function Last(vars: seq<Option<(string, string)>>, k: NetKey): (r: Option<string>)
    decreases |vars|
  {
    if vars == [] then None
    else if Assigns(vars[|vars| - 1], k) then Some(vars[|vars| - 1].value.1)
    else Last(vars[..|vars| - 1], k)
  }

  /** `Last` is None exactly when nothing assigns the key. */
  lemma {:induction false} LastNone(vars: seq<Option<(string, string)>>, k: NetKey)
    ensures Last(vars, k).None? <==> forall i :: 0 <= i < |vars| ==> !Assigns(vars[i], k)
    decreases |vars|
  {
    if vars != [] {
      var n := |vars| - 1;
      LastNone(vars[..n], k);
      assert forall i :: 0 <= i < n ==> vars[..n][i] == vars[i];
    }
  }

  /** Otherwise it is the value of the last assignment to the key. */
  lemma LastSome(vars: seq<Option<(string, string)>>, k: NetKey)
    requires Last(vars, k).Some?
    ensures exists i :: 0 <= i < |vars| && Assigns(vars[i], k) && vars[i].value.1 == Last(vars, k).value
                        && forall j :: i < j < |vars| ==> !Assigns(vars[j], k)
  {
    var i := LastIndex(vars, k);
  }

  /** The position of that last assignment. */
  lemma {:induction false} LastIndex(vars: seq<Option<(string, string)>>, k: NetKey) returns (i: nat)
    requires Last(vars, k).Some?
    ensures i < |vars| && Assigns(vars[i], k) && vars[i].value.1 == Last(vars, k).value
    ensures forall j :: i < j < |vars| ==> !Assigns(vars[j], k)
    decreases |vars|
  {
    var n := |vars| - 1;
    if Assigns(vars[n], k) {
      i := n;
    } else {
      assert Last(vars, k) == Last(vars[..n], k);
      i := LastIndex(vars[..n], k);
      PrefixAgrees(vars, n, i);
    }
  }

  /** A prefix agrees with the whole sequence from a position up to its end. */
  lemma PrefixAgrees<T>(s: seq<T>, n: nat, i: nat)
    requires i < n <= |s|
    ensures s[..n][i] == s[i] && forall j :: i < j < n ==> s[..n][j] == s[j]
  {
  }

  function LastOr(vars: seq<Option<(string, string)>>, k: NetKey, dflt: Option<string>): Option<string> {
    if Last(vars, k).Some? then Last(vars, k) else dflt
  }

  /**
   * Reading the file sets each variable to the value of the last line
   * assigning it (MTU through atoi) and changes nothing else.
   */
  lemma NetInfoFields(d: LoaderData, vars: seq<Option<(string, string)>>)
    ensures NetInfoVars(d, vars) == d.(
      ipv4 := LastOr(vars, IpAddr, d.ipv4), netmask := LastOr(vars, Netmask, d.netmask),
      gateway := LastOr(vars, Gateway, d.gateway), dns := LastOr(vars, Dns, d.dns),
      mtu := if Last(vars, Mtu).Some? then Atoi(Last(vars, Mtu).value) else d.mtu,
      peerid := LastOr(vars, PeerId, d.peerid), subchannels := LastOr(vars, SubChannels, d.subchannels),
      portname := LastOr(vars, PortName, d.portname), nettype := LastOr(vars, NetType, d.nettype),
      ctcprot := LastOr(vars, CtcProt, d.ctcprot), layer2 := LastOr(vars, Layer2, d.layer2),
      macaddr := LastOr(vars, MacAddr, d.macaddr), hostname := LastOr(vars, HostName, d.hostname))
  {
    NetInfoUntouched(d, vars);
    NetInfoAddress(d, vars);
    NetInfoChannel(d, vars);
  }

  /** The fields readNetInfo does not look for keep their values. */
  lemma {:induction false} NetInfoUntouched(d: LoaderData, vars: seq<Option<(string, string)>>)
    ensures NetInfoVars(d, vars).(
      ipv4 := d.ipv4, netmask := d.netmask, gateway := d.gateway, dns := d.dns, mtu := d.mtu,
      peerid := d.peerid, subchannels := d.subchannels, portname := d.portname, nettype := d.nettype,
      ctcprot := d.ctcprot, layer2 := d.layer2, macaddr := d.macaddr, hostname := d.hostname) == d
    decreases |vars|
  {
    if vars != [] {
      NetInfoUntouched(d, vars[..|vars| - 1]);
    }
  }

  lemma {:induction false} NetInfoAddress(d: LoaderData, vars: seq<Option<(string, string)>>)
    ensures var r := NetInfoVars(d, vars);
            && r.ipv4 == LastOr(vars, IpAddr, d.ipv4) && r.netmask == LastOr(vars, Netmask, d.netmask)
            && r.gateway == LastOr(vars, Gateway, d.gateway) && r.dns == LastOr(vars, Dns, d.dns)
            && r.mtu == (if Last(vars, Mtu).Some? then Atoi(Last(vars, Mtu).value) else d.mtu)
            && r.hostname == LastOr(vars, HostName, d.hostname)
    decreases |vars|
  {
    if vars != [] {
      NetInfoAddress(d, vars[..|vars| - 1]);
    }
  }

  lemma {:induction false} NetInfoChannel(d: LoaderData, vars: seq<Option<(string, string)>>)
    ensures var r := NetInfoVars(d, vars);
            && r.peerid == LastOr(vars, PeerId, d.peerid) && r.subchannels == LastOr(vars, SubChannels, d.subchannels)
            && r.portname == LastOr(vars, PortName, d.portname) && r.nettype == LastOr(vars, NetType, d.nettype)
            && r.ctcprot == LastOr(vars, CtcProt, d.ctcprot) && r.layer2 == LastOr(vars, Layer2, d.layer2)
            && r.macaddr == LastOr(vars, MacAddr, d.macaddr)
    decreases |vars|
  {
    if vars != [] {
      NetInfoChannel(d, vars[..|vars| - 1]);
    }
  }

  /** readNetInfo's effect on the globals; an absent file changes nothing. */
  function ReadNetInfoSpec(g: Globals, file: Option<seq<string>>): Globals {
    match file
    case None => g
    case Some(lines) =>
      var d := NetInfoVars(NetInfoReset(g.data), NetVars(lines));
      g.(data := d, flags := if d.ipv4.Some? && d.netmask.Some? then g.flags + {HaveCmsConf} else g.flags)
  }

  /**
   * HAVE_CMSCONF is raised exactly when the file has both an IPADDR and a
   * NETMASK line; the address settings come from the file alone.
   */
  lemma CmsConfFromFile(g: Globals, lines: seq<string>)
    ensures var r := ReadNetInfoSpec(g, Some(lines));
            && (HaveCmsConf in r.flags <==>
                HaveCmsConf in g.flags || ((exists i :: 0 <= i < |lines| && Assigns(NetVar(lines[i]), IpAddr))
                                           && (exists i :: 0 <= i < |lines| && Assigns(NetVar(lines[i]), Netmask))))
            && r.flags - {HaveCmsConf} == g.flags - {HaveCmsConf}
            && r.data.ipv4 == Last(NetVars(lines), IpAddr) && r.data.netmask == Last(NetVars(lines), Netmask)
            && r.data.gateway == Last(NetVars(lines), Gateway) && r.data.dns == Last(NetVars(lines), Dns)
  {
    var vars := NetVars(lines);
    NetInfoFields(NetInfoReset(g.data), vars);
    LastNone(vars, IpAddr);
    LastNone(vars, Netmask);
  }

  /* ---------------------------------------------------------------- */
  /* The loader's state                                                */

  /** The loader's global state: loaderData, flags and the static extraArgs buffer. */
  class Loader2 {
    var data: LoaderData
    var flags: set<Flag>
    var blacklist: seq<string>
    var display: Option<string>
    var numLinkChecks: int
    var postLinkSleep: int
    var vncPassword: Option<string>
    const extraArgs: array<Option<string>>

    /** The buffer has MAX_EXTRA_ARGS slots and its last one is never filled. */
    ghost predicate Valid()
      reads this, extraArgs
    {
      extraArgs.Length == MaxExtraArgs && extraArgs[MaxExtraArgs - 1].None?
    }

    function Snapshot(): Globals
      reads this
    {
      Globals(data, flags, blacklist, display, numLinkChecks, postLinkSleep, vncPassword)
    }

    /** Program start: flags hold only SELINUX, five link checks, no post-link sleep. */
    constructor (d: LoaderData)
      ensures Valid() && fresh(extraArgs)
      ensures Snapshot() == Globals(d, {Selinux}, [], None, 5, 0, None)
      ensures LoaderCmdline.ArgsBeforeNull(extraArgs[..]) == []
    {
      data := d;
      flags := {Selinux};
      blacklist := [];
      display := None;
      numLinkChecks := 5;
      postLinkSleep := 0;
      vncPassword := None;
      extraArgs := new Option<string>[MaxExtraArgs](_ => None);
    }

    method SetGlobals(g: Globals)
      modifies this
      ensures Snapshot() == g
    {
      data := g.data;
      flags := g.flags;
      blacklist := g.blacklist;
      display := g.display;
      numLinkChecks := g.numLinkChecks;
      postLinkSleep := g.postLinkSleep;
      vncPassword := g.vncPassword;
    }

    /** The extras branch of one loop iteration, with `numExtraArgs` entries stored and room for another. */
    method PassOn(a: string, numExtraArgs: nat, ghost stored: seq<string>)
      returns (n: nat, ghost stored2: seq<string>)
      requires Valid() && numExtraArgs == |stored| < MaxExtraArgs - 1
      requires forall j :: 0 <= j < numExtraArgs ==> extraArgs[j] == Some(stored[j])
      modifies this, extraArgs
      ensures Valid() && n == |stored2| <= MaxExtraArgs - 1
      ensures forall j :: 0 <= j < n ==> extraArgs[j] == Some(stored2[j])
      ensures ParseState(Snapshot(), stored2) == ApplyExtra(ParseState(old(Snapshot()), stored), a)
    {
      n, stored2 := numExtraArgs, stored;
      var la := ToLower(a);
      if StartsWith(la, "vncpassword=") {
        if Testing !in flags {
          vncPassword := Some(a[12..]);
        }
      } else if IsExtraArg(la) {
        if StartsWith(la, "vnc") {
          flags := flags + {Graphical};
        }
        extraArgs[n] := Some(ExtraText(a));
        stored2 := stored2 + [ExtraText(a)];
        n := n + 1;
      }
    }

    /**
     * readNetInfo: with a /tmp/netinfo file (its lines as fgets returns
     * them), the address fields are cleared, each line is applied in
     * turn, and HAVE_CMSCONF is raised when an address and a netmask were
     * read; without one nothing changes.
     */
    method ReadNetInfo(file: Option<seq<string>>)
      modifies this
      ensures Snapshot() == ReadNetInfoSpec(old(Snapshot()), file)
    {
      if file.None? {
        return;
      }
      var lines := file.value;
      data := NetInfoReset(data);
      ghost var start := data;
      ghost var vars := NetVars(lines);
      var i := 0;
      while i < |lines|
        invariant 0 <= i <= |lines|
        invariant data == NetInfoVars(start, vars[..i])
        invariant Snapshot() == old(Snapshot()).(data := data)
      {
        var nv := NetVar(lines[i]);
        data := ApplyNetVar(data, nv);
        assert vars[..i + 1][..i] == vars[..i];
        i := i + 1;
      }
      assert vars[..|lines|] == vars;
      if data.ipv4.Some? && data.netmask.Some? {
        flags := flags + {HaveCmsConf};
      }
    }

    /**
     * parseCmdLineFlags: graphical mode by default; with no command line
     * (unreadable, empty or unparsable) nothing else changes; otherwise the
     * globals become the result of the loop followed by readNetInfo, and
     * extraArgs holds exactly the loop's extras, NULL-terminated.
     */
    method ParseCmdLineFlags(cmdline: Option<seq<string>>, netinfo: Option<seq<string>>, env: Env)
      requires Valid()
      modifies this, extraArgs
      ensures Valid()
      ensures cmdline.None? ==>
        Snapshot() == old(Snapshot()).(flags := old(flags) + {Graphical}) && extraArgs[..] == old(extraArgs[..])
      ensures cmdline.Some? ==>
        var r := ParseAll(ParseState(old(Snapshot()).(flags := old(flags) + {Graphical}), []), cmdline.value, env);
        && Snapshot() == ReadNetInfoSpec(r.g, netinfo)
        && LoaderCmdline.ArgsBeforeNull(extraArgs[..]) == r.extras
    {
      flags := flags + {Graphical};
      if cmdline.None? {
        return;
      }
      var args := cmdline.value;
      ghost var init := ParseState(Snapshot(), []);
      ghost var stored: seq<string> := [];
      var numExtraArgs := 0;
      var i := 0;
      while i < |args|
        invariant 0 <= i <= |args|
        invariant Valid()
        invariant numExtraArgs == |stored| <= MaxExtraArgs - 1
        invariant forall j :: 0 <= j < numExtraArgs ==> extraArgs[j] == Some(stored[j])
        invariant ParseAll(ParseState(Snapshot(), stored), args[i..], env) == ParseAll(init, args, env)
      {
        ParseAllStep(ParseState(Snapshot(), stored), args, i, env);
        numExtraArgs, stored := ParseWord(args[i], numExtraArgs, stored, env);
        i := i + 1;
      }
      ghost var result := ParseState(Snapshot(), stored);
      assert result == ParseAll(init, args, env);
      ReadNetInfo(netinfo);
      extraArgs[numExtraArgs] := None;
      LoaderCmdline.ArgsBeforeNullPrefix(extraArgs[..], stored);
    }

    /** One iteration of parseCmdLineFlags's loop: the keyword chain, else the extras branch while there is room. */
    method ParseWord(a: string, numExtraArgs: nat, ghost stored: seq<string>, env: Env)
      returns (n: nat, ghost stored2: seq<string>)
      requires Valid() && numExtraArgs == |stored| <= MaxExtraArgs - 1
      requires forall j :: 0 <= j < numExtraArgs ==> extraArgs[j] == Some(stored[j])
      modifies this, extraArgs
      ensures Valid() && n == |stored2| <= MaxExtraArgs - 1
      ensures forall j :: 0 <= j < n ==> extraArgs[j] == Some(stored2[j])
      ensures ParseState(Snapshot(), stored2) == ParseStep(ParseState(old(Snapshot()), stored), a, env)
    {
      n, stored2 := numExtraArgs, stored;
      var r := Keyword(Snapshot(), a, env);
      if r.Some? {
        SetGlobals(r.value);
      } else if numExtraArgs < MaxExtraArgs - 1 {
        n, stored2 := PassOn(a, numExtraArgs, stored);
      }
    }

    /** hasGraphicalOverride: $DISPLAY is set or an extra argument starts with `--vnc`. */
    method HasGraphicalOverride() returns (b: bool)
      requires Valid()
      ensures b == LoaderCmdline.GraphicalOverride(display, LoaderCmdline.ArgsBeforeNull(extraArgs[..]))
    {
      if display.Some? {
        return true;
      }
      var i := 0;
      ghost var seen: seq<string> := [];
      while i < extraArgs.Length && extraArgs[i].Some?
        invariant 0 <= i <= extraArgs.Length
        invariant LoaderCmdline.ArgsBeforeNull(extraArgs[..]) == seen + LoaderCmdline.ArgsBeforeNull(extraArgs[i..])
        invariant forall s :: s in seen ==> !StartsWithIgnoreCase(s, "--vnc")
      {
        assert extraArgs[i..][1..] == extraArgs[i + 1..];
        if StartsWithIgnoreCase(extraArgs[i].value, "--vnc") {
          assert extraArgs[i].value in LoaderCmdline.ArgsBeforeNull(extraArgs[..]);
          return true;
        }
        seen := seen + [extraArgs[i].value];
        i := i + 1;
      }
      return false;
    }
  }
}
