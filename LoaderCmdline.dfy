/**
 * Kernel command-line parsing of the first-generation loader
 * (loader/loader.c): the pxelinux `ip=` parser, `ipv6=`, `argToLong`,
 * the keyword chain of `parseCmdLineFlags` with its bounded `extraArgs`
 * buffer, and `hasGraphicalOverride`.
 *
 * The command line arrives as the sequence of (key, value) pairs in the
 * order the hash table hands them out.  Library calls whose code is not
 * part of this model (normalizeLang, the address validators,
 * splitProxyParam, isKickstartFileRemote) are the fields of `Env`.
 */
module LoaderCmdline {
  import opened Wrappers
  import opened Strings

  /** Size of the static `extraArgs` buffer: at most 127 entries and a NULL. */
  const MaxExtraArgs: nat := 128

  const LongMin: int := -0x8000_0000_0000_0000
  const LongMax: int := 0x7fff_ffff_ffff_ffff

  /** The entries of `installMethods[]`, in table order. */
  datatype InstallMethod = MethodCdrom | MethodHd | MethodNfs | MethodUrl

  /** The LOADER_FLAGS_* bits touched by this loader. */
  datatype Flag =
    | Graphical | Text | Cmdline | AskMethod | AskNetwork | NoShell | NoKill
    | MediaCheck | AllowWireless | NoProbe | Updates | ModDisk | Rescue | NoPass
    | Serial | NoIpv4 | NoIpv6 | KickstartSendMac | KickstartSendSerial | Selinux
    | NoEject | EarlyNetworking | NoVerifySsl | AutoModDisk | IpParam | Ipv6Param
    | IsKickstart

  /** The fields of `struct loaderData_s` this loader reads or writes. */
  datatype LoaderData = LoaderData(
    lang: Option<string>, langSet: bool,
    kbd: Option<string>, kbdSet: bool,
    instMethod: InstallMethod, instRepo: Option<string>,
    netDev: Option<string>, netDevSet: bool,
    bootIf: Option<string>, bootIfSet: bool,
    netCls: Option<string>, netClsSet: bool,
    ipv4: Option<string>, ipv6: Option<string>,
    ipinfoSet: bool, ipv6infoSet: bool,
    netmask: Option<string>, gateway: Option<string>, gateway6: Option<string>,
    dns: Option<string>, hostname: Option<string>, ethtool: Option<string>,
    essid: Option<string>, mtu: int, wepkey: Option<string>, wpakey: Option<string>,
    dhcpTimeout: int, gdbServer: Option<string>,
    proxy: Option<string>, proxyUser: Option<string>, proxyPassword: Option<string>,
    updatessrc: Option<string>, ddsrc: Option<string>, ksFile: Option<string>,
    logLevel: Option<string>)

  /** One command-line entry: `key` or `key=value`. */
  datatype Arg = Arg(key: string, value: Option<string>)

  /** What splitProxyParam writes through its three out-parameters. */
  datatype ProxyParts = ProxyParts(user: Option<string>, password: Option<string>, host: Option<string>)

  /** Helpers from other loader files, given as functions. */
  datatype Env = Env(
    normalizeLang: string -> string,
    isValidIPv4: string -> bool,
    isValidIPv6: string -> bool,
    splitProxy: string -> ProxyParts,
    isKickstartFileRemote: Option<string> -> bool)

  /**
   * Everything else parseCmdLineFlags updates: loaderData, the global
   * flags, the module blacklist, $DISPLAY, the link-check globals and the
   * VNC password file.
   */
  datatype Globals = Globals(
    data: LoaderData, flags: set<Flag>, blacklist: seq<string>,
    display: Option<string>, numLinkChecks: int, postLinkSleep: int,
    vncPassword: Option<string>)

  /** The globals together with the extra arguments stored so far. */
  datatype ParseState = ParseState(g: Globals, extras: seq<string>)

  /* ---------------------------------------------------------------- */
  /* argToLong                                                         */

  /** The value strtol(s, NULL, 10) reads before any range check: leading
      white space, an optional sign, then the longest run of digits (none: 0). */
  function StrToLongValue(s: string): int {
    var t := TrimLeft(s);
    var neg := t != [] && t[0] == '-';
    var body := if t != [] && (t[0] == '-' || t[0] == '+') then t[1..] else t;
    var mag := DigitsValue(body[..DigitRun(body)]) as int;
    if neg then -mag else mag
  }

  /** argToLong: strtol, aborting the loader (None) when the value does not
      fit in a 64-bit long. */
  function ArgToLong(s: string): (r: Option<int>)
    ensures r.Some? ==> LongMin <= r.value <= LongMax
    ensures r.None? <==> !(LongMin <= StrToLongValue(s) <= LongMax)
  {
    var n := StrToLongValue(s);
    if LongMin <= n <= LongMax then Some(n) else None
  }

  /** A plain digit string within range is read as its decimal value. */
  lemma ArgToLongDigits(s: string)
    requires s != [] && AllDigits(s) && DigitsValue(s) <= LongMax
    ensures ArgToLong(s) == Some(DigitsValue(s) as int)
  {
    var t := TrimLeft(s);
    assert !IsSpace(s[0]);
    assert t == s;
    assert t[0] != '-' && t[0] != '+';
    DigitRunAll(s);
    assert s[..DigitRun(s)] == s;
    assert StrToLongValue(s) == DigitsValue(s) as int;
  }

  lemma {:induction false} DigitRunAll(s: string)
    requires AllDigits(s)
    ensures DigitRun(s) == |s|
    decreases |s|
  {
    if s != [] {
      assert AllDigits(s[1..]);
      DigitRunAll(s[1..]);
    }
  }

  /** Text without leading digits (after white space and sign) is read as 0. */
  lemma ArgToLongNoDigits(s: string)
    requires var t := TrimLeft(s); t == [] || (!IsDigit(t[0]) && t[0] != '-' && t[0] != '+')
    ensures ArgToLong(s) == Some(0)
  {
  }

  /* ---------------------------------------------------------------- */
  /* parseCmdLineIp / parseCmdLineIpv6                                 */

  /**
   * What parseCmdLineIp writes: `ipv4` (and `ipinfo_set`) always, the
   * gateway and netmask when present (None: left as they were), and
   * whether IP_PARAM is raised.
   */
  datatype IpUpdate = IpUpdate(ipv4: string, gateway: Option<string>, netmask: Option<string>, ipParam: bool)

  /**
   * parseCmdLineIp.  The `end + 1 == '\0'` tests in the source compare a
   * pointer with zero and never hold, so they are left out.  The early
   * returns after one or two colons skip the IP_PARAM update at the end.
   */
  function ParseCmdLineIp(v: string): (r: IpUpdate)
    ensures r.netmask.Some? ==> r.gateway.Some? && r.ipParam
  {
    match FindChar(v, ':')
    case None => IpUpdate(v, None, None, true)
    case Some(e1) =>
      var bootServer := v[e1 + 1..];
      match FindChar(bootServer, ':')
      case None => IpUpdate(v[..e1], None, None, false)
      case Some(e2) => IpUpdateAfter(v[..e1], bootServer[e2 + 1..], FindChar(bootServer[e2 + 1..], ':'))
  }

  function ApplyIp(d: LoaderData, flags: set<Flag>, u: IpUpdate): (r: (LoaderData, set<Flag>))
  {
    var d1 := d.(ipv4 := Some(u.ipv4), ipinfoSet := true);
    var d2 := if u.gateway.Some? then d1.(gateway := u.gateway) else d1;
    var d3 := if u.netmask.Some? then d2.(netmask := u.netmask) else d2;
    (d3, if u.ipParam then flags + {IpParam} else flags)
  }

  /**
   * In terms of the colon-separated fields of `v`: `ipv4` is the first
   * field, `gateway` the third, `netmask` everything after the third colon;
   * IP_PARAM is raised exactly when there is no colon or at least three.
   */
  lemma IpFields(v: string)
    ensures var r := ParseCmdLineIp(v);
            var f := Split(v, ':');
            && r.ipv4 == f[0]
            && (|f| == 1 ==> r.ipv4 == v)
            && (r.gateway.Some? <==> |f| >= 3)
            && (|f| >= 3 ==> r.gateway == Some(f[2]))
            && (r.netmask.Some? <==> |f| >= 4)
            && (|f| >= 4 ==> r.netmask == Some(Join(f[3..], [':'])))
            && (r.ipParam <==> |f| == 1 || |f| >= 4)
  {
    var r := ParseCmdLineIp(v);
    var f := Split(v, ':');
    match FindChar(v, ':')
    case None =>
      SplitNone(v, ':');
      IpFieldsOf(v, r, f);
    case Some(e1) =>
      IpFieldsAfterColon(v, e1);
      IpFieldsOf(v, r, f);
  }

  /** With at least one colon: the field requirements of IpFieldsOf hold. */
  lemma IpFieldsAfterColon(v: string, e1: nat)
    requires FindChar(v, ':') == Some(e1)
    ensures var r := ParseCmdLineIp(v);
            var f := Split(v, ':');
            && |f| >= 2 && r.ipv4 == f[0]
            && r.gateway == (if |f| >= 3 then Some(f[2]) else None)
            && r.netmask == (if |f| >= 4 then Some(Join(f[3..], [':'])) else None)
            && r.ipParam == (|f| >= 4)
  {
    var s1 := v[e1 + 1..];
    match FindChar(s1, ':')
    case None =>
      SplitAt(v, ':', e1);
      SplitNone(s1, ':');
    case Some(e2) =>
      IpFieldsAfterTwoColons(v, e1, s1, e2);
  }

  lemma IpFieldsAfterTwoColons(v: string, e1: nat, s1: string, e2: nat)
    requires FindChar(v, ':') == Some(e1) && s1 == v[e1 + 1..]
    requires FindChar(s1, ':') == Some(e2)
    ensures var r := ParseCmdLineIp(v);
            var f := Split(v, ':');
            && |f| >= 3 && r.ipv4 == f[0] && r.gateway == Some(f[2])
            && r.netmask == (if |f| >= 4 then Some(Join(f[3..], [':'])) else None)
            && r.ipParam == (|f| >= 4)
  {
    var s2 := s1[e2 + 1..];
    var r := IpTwoColons(v, e1, s1, e2, s2);
    var f := Split(v, ':');
    match FindChar(s2, ':')
    case None =>
      IpThreeFields(v, e1, s1, e2, s2);
      IpResultFields(r, f, v[..e1], s2, None);
    case Some(e3) =>
      IpNetmaskFields(v, e1, s1, e2, s2, e3);
      IpResultFields(r, f, v[..e1], s2[..e3], Some(s2[e3 + 1..]));
  }

  /** After two colons the update is settled by whether the rest holds a third. */
  lemma IpTwoColons(v: string, e1: nat, s1: string, e2: nat, s2: string) returns (r: IpUpdate)
    requires FindChar(v, ':') == Some(e1) && s1 == v[e1 + 1..]
    requires FindChar(s1, ':') == Some(e2) && s2 == s1[e2 + 1..]
    ensures r == ParseCmdLineIp(v)
    ensures FindChar(s2, ':').None? ==> r == IpUpdate(v[..e1], Some(s2), None, false)
    ensures FindChar(s2, ':').Some? ==>
      var e3 := FindChar(s2, ':').value;
      r == IpUpdate(v[..e1], Some(s2[..e3]), Some(s2[e3 + 1..]), true)
  {
    r := IpUpdateAfter(v[..e1], s2, FindChar(s2, ':'));
  }

  /** The update ParseCmdLineIp builds from the address and the part after the second colon. */
  function IpUpdateAfter(ip: string, gw: string, third: Option<nat>): IpUpdate
    requires third.Some? ==> third.value < |gw|
  {
    match third
    case None => IpUpdate(ip, Some(gw), None, false)
    case Some(e3) => IpUpdate(ip, Some(gw[..e3]), Some(gw[e3 + 1..]), true)
  }

  /** Without a third colon the value splits into exactly three fields. */
  lemma IpThreeFields(v: string, e1: nat, s1: string, e2: nat, s2: string)
    requires FindChar(v, ':') == Some(e1) && s1 == v[e1 + 1..]
    requires FindChar(s1, ':') == Some(e2) && s2 == s1[e2 + 1..]
    requires FindChar(s2, ':') == None
    ensures var f := Split(v, ':');
            |f| == 3 && f[0] == v[..e1] && f[2] == s2
  {
    SplitAt(v, ':', e1);
    SplitAt(s1, ':', e2);
    SplitNone(s2, ':');
    ExactlyThree(Split(v, ':'), v[..e1], s1[..e2], s2);
  }

  /** An update built from the fields it was read from, as plain values. */
  lemma IpResultFields(r: IpUpdate, f: seq<string>, ip: string, gw: string, mask: Option<string>)
    requires r == IpUpdate(ip, Some(gw), mask, mask.Some?)
    requires |f| >= 3 && f[0] == ip && f[2] == gw
    requires mask.None? ==> |f| == 3
    requires mask.Some? ==> |f| >= 4 && Join(f[3..], [':']) == mask.value
    ensures && r.ipv4 == f[0] && r.gateway == Some(f[2])
            && r.netmask == (if |f| >= 4 then Some(Join(f[3..], [':'])) else None)
            && r.ipParam == (|f| >= 4)
  {
  }

  lemma ExactlyThree<T>(f: seq<T>, a: T, b: T, c: T)
    requires f == [a] + ([b] + [c])
    ensures |f| == 3 && f[0] == a && f[2] == c
  {
  }

  lemma IpNetmaskFields(v: string, e1: nat, s1: string, e2: nat, s2: string, e3: nat)
    requires FindChar(v, ':') == Some(e1) && s1 == v[e1 + 1..]
    requires FindChar(s1, ':') == Some(e2) && s2 == s1[e2 + 1..]
    requires FindChar(s2, ':') == Some(e3)
    ensures var f := Split(v, ':');
            |f| >= 4 && f[0] == v[..e1] && f[2] == s2[..e3] && Join(f[3..], [':']) == s2[e3 + 1..]
  {
    var s3 := s2[e3 + 1..];
    SplitAt(v, ':', e1);
    SplitAt(s1, ':', e2);
    SplitAt(s2, ':', e3);
    DropThree(Split(v, ':'), v[..e1], s1[..e2], s2[..e3], Split(s3, ':'));
    SplitJoin(s3, ':');
  }

  /** The field facts of IpFields for an update `r` and a list of fields `f`, as plain values. */
  lemma IpFieldsOf(v: string, r: IpUpdate, f: seq<string>)
    requires |f| >= 1 && r.ipv4 == f[0] && (|f| == 1 ==> f[0] == v)
    requires r.gateway == (if |f| >= 3 then Some(f[2]) else None)
    requires r.netmask == (if |f| >= 4 then Some(Join(f[3..], [':'])) else None)
    requires r.ipParam == (|f| == 1 || |f| >= 4)
    ensures && r.ipv4 == f[0]
            && (|f| == 1 ==> r.ipv4 == v)
            && (r.gateway.Some? <==> |f| >= 3)
            && (|f| >= 3 ==> r.gateway == Some(f[2]))
            && (r.netmask.Some? <==> |f| >= 4)
            && (|f| >= 4 ==> r.netmask == Some(Join(f[3..], [':'])))
            && (r.ipParam <==> |f| == 1 || |f| >= 4)
  {
  }

  lemma DropThree<T>(f: seq<T>, a: T, b: T, c: T, t: seq<T>)
    requires f == [a] + ([b] + ([c] + t))
    ensures |f| == 3 + |t| && f[0] == a && f[2] == c && f[3..] == t
  {
  }

  /** parseCmdLineIpv6 stores the text verbatim and raises IPV6_PARAM. */
  function ParseCmdLineIpv6(d: LoaderData, flags: set<Flag>, v: string): (r: (LoaderData, set<Flag>))
    ensures r.0.ipv6 == Some(v) && r.0.ipv6infoSet && r.1 == flags + {Ipv6Param}
    ensures r.0.(ipv6 := d.ipv6, ipv6infoSet := d.ipv6infoSet) == d
  {
    (d.(ipv6 := Some(v), ipv6infoSet := true), flags + {Ipv6Param})
  }

  /* ---------------------------------------------------------------- */
  /* parseCmdLineFlags: the keyword chain                              */

  /** BOOTIF without a leading `01-` and with every `-` turned into `:`. */
  function BootIfValue(v: string): (r: string)
    ensures '-' !in r
    ensures |r| == if StartsWith(v, "01-") then |v| - 3 else |v|
  {
    var src := if StartsWith(v, "01-") then v[3..] else v;
    var r := ReplaceChar(src, '-', ':');
    assert forall i :: 0 <= i < |r| ==> r[i] != '-';
    r
  }

  /** `--key=value` or `--key`, as handed on to the second stage. */
  function RenderExtra(k: string, v: Option<string>): string {
    "--" + k + (if v.Some? then "=" + v.value else "")
  }

  /** The keys passed on to the second stage through extraArgs. */
  predicate IsExtraKey(k: string) {
    ToLower(k) in {"resolution", "nomount", "vnc", "vncconnect", "headless", "usefbx",
                   "mpath", "nompath", "dmraid", "nodmraid", "xdriver", "syslog"}
  }

  /** The name=value keys whose value is read with argToLong. */
  function ApplyLongKey(st: Globals, lk: string, v: string): (r: Option<Globals>)
    requires lk in {"mtu", "linksleep", "nicdelay", "dhcptimeout"}
    ensures r.Some? <==> ArgToLong(v).Some?
  {
    match ArgToLong(v)
    case None => None
    case Some(n) =>
      if lk == "mtu" then Some(st.(data := st.data.(mtu := n)))
      else if lk == "linksleep" then Some(st.(numLinkChecks := n))
      else if lk == "nicdelay" then Some(st.(postLinkSleep := n))
      else Some(st.(data := st.data.(dhcpTimeout := n)))
  }

  /** The `name=value` block of the chain (reached only when a value is present). */
  function ApplyValueKey(st: Globals, k: string, v: string, env: Env): (r: Option<Globals>)
    ensures r.None? ==> ToLower(k) in {"mtu", "linksleep", "nicdelay", "dhcptimeout"}
  {
    var lk := ToLower(k);
    var d := st.data;
    var lv := ToLower(v);
    if lk == "dlabel" then
      if lv == "on" then Some(st.(flags := st.flags + {AutoModDisk}))
      else if lv == "off" then Some(st.(flags := st.flags - {AutoModDisk}))
      else Some(st)
    else if lk == "loglevel" then
      if lv in {"debug", "info", "warning", "error", "critical"}
      then Some(st.(data := d.(logLevel := Some(v))))
      else Some(st)
    else if lk == "ksdevice" then Some(st.(data := d.(netDev := Some(v), netDevSet := true)))
    else if k == "BOOTIF" then Some(st.(data := d.(bootIf := Some(BootIfValue(v)), bootIfSet := true)))
    else if lk == "dhcpclass" then Some(st.(data := d.(netCls := Some(v), netClsSet := true)))
    else if lk == "display" then Some(st.(display := Some(v)))
    else if lk == "lang" then Some(st.(data := d.(lang := Some(env.normalizeLang(v)), langSet := true)))
    else if lk == "keymap" then Some(st.(data := d.(kbd := Some(v), kbdSet := true)))
    else if lk == "method" then Some(st.(data := d.(instRepo := Some(v))))
    else if lk == "stage2" then Some(st.(flags := st.flags + {AskMethod}))
    else if lk == "repo" then Some(st.(data := d.(instRepo := Some(v), instMethod := RepoMethod(v, d.instMethod))))
    else if lk == "hostname" then Some(st.(data := d.(hostname := Some(v))))
    else if lk == "ip" then
      var (d', f') := ApplyIp(d, st.flags, ParseCmdLineIp(v));
      Some(st.(data := d', flags := f'))
    else if lk == "ipv6" then
      var (d', f') := ParseCmdLineIpv6(d, st.flags, v);
      Some(st.(data := d', flags := f'))
    else if lk == "netmask" then Some(st.(data := d.(netmask := Some(v))))
    else if lk == "gateway" then
      if env.isValidIPv4(v) then Some(st.(data := d.(gateway := Some(v))))
      else if env.isValidIPv6(v) then Some(st.(data := d.(gateway6 := Some(v))))
      else Some(st)
    else if lk == "dns" then Some(st.(data := d.(dns := Some(v))))
    else if lk == "ethtool" then Some(st.(data := d.(ethtool := Some(v))))
    else if lk == "essid" then Some(st.(data := d.(essid := Some(v))))
    else if lk == "wepkey" then Some(st.(data := d.(wepkey := Some(v))))
    else if lk == "wpakey" then Some(st.(data := d.(wpakey := Some(v))))
    else if lk in {"mtu", "linksleep", "nicdelay", "dhcptimeout"} then ApplyLongKey(st, lk, v)
    else if lk == "gdb" then Some(st.(data := d.(gdbServer := Some(v))))
    else if lk == "proxy" then
      var p := env.splitProxy(v);
      Some(st.(data := d.(proxyUser := p.user, proxyPassword := p.password, proxy := p.host)))
    else Some(st)
  }

  /**
   * The keyword chain of parseCmdLineFlags for one entry; None means the
   * loader aborted (argToLong out of range). The flag keywords come first
   * and are distinct, so testing membership before the chain keeps its order.
   */
  function ApplyKey(st: Globals, k: string, v: Option<string>, env: Env): (r: Option<Globals>)
    ensures r.None? ==> v.Some? && ToLower(k) in {"mtu", "linksleep", "nicdelay", "dhcptimeout"}
  {
    var lk := ToLower(k);
    if lk in FlagKeys then Some(ApplyFlagKey(st, lk, v))
    else if v.Some? then ApplyValueKey(st, k, v.value, env)
    else Some(st)
  }

  /** The keys ApplyKey settles before handing a `key=value` word to ApplyValueKey. */
  const FlagKeys: set<string> := {
    "askmethod", "asknetwork", "noshell", "nokill", "mediacheck", "allowwireless", "noprobe",
    "text", "graphical", "cmdline", "updates", "dd", "driverdisk", "rescue", "nopass", "serial",
    "noipv4", "noipv6", "kssendmac", "kssendsn", "nousb", "nofirewire", "ks", "selinux",
    "noeject", "sshd", "noverifyssl"}

  /** The part of the chain for the keys of FlagKeys, on the lower-cased key. */
  function ApplyFlagKey(st: Globals, lk: string, v: Option<string>): Globals {
    var f := st.flags;
    if lk == "askmethod" then st.(flags := f + {AskMethod})
    else if lk == "asknetwork" then st.(flags := f + {AskNetwork})
    else if lk == "noshell" then st.(flags := f + {NoShell})
    else if lk == "nokill" then st.(flags := f + {NoKill})
    else if lk == "mediacheck" then st.(flags := f + {MediaCheck})
    else if lk == "allowwireless" then st.(flags := f + {AllowWireless})
    else if lk == "noprobe" then st.(flags := f + {NoProbe})
    else if lk == "text" then st.(flags := f + {Text} - {Graphical})
    else if lk == "graphical" then st.(flags := f + {Graphical})
    else if lk == "cmdline" then st.(flags := f + {Cmdline})
    else if lk == "updates" then
      if v.Some? then st.(data := st.data.(updatessrc := v))
      else st.(flags := f + {Updates})
    else if lk == "dd" || lk == "driverdisk" then
      if v.Some? then st.(data := st.data.(ddsrc := v))
      else st.(flags := f + {ModDisk})
    else if lk == "rescue" then st.(flags := f + {Rescue})
    else if lk == "nopass" then st.(flags := f + {NoPass})
    else if lk == "serial" then st.(flags := f + {Serial})
    else if lk == "noipv4" then st.(flags := f + {NoIpv4})
    else if lk == "noipv6" then st.(flags := f + {NoIpv6})
    else if lk == "kssendmac" then st.(flags := f + {KickstartSendMac})
    else if lk == "kssendsn" then st.(flags := f + {KickstartSendSerial})
    else if lk == "nousb" then st.(blacklist := st.blacklist + ["ehci-hcd", "ohci-hcd", "uhci-hcd"])
    else if lk == "nofirewire" then st.(blacklist := st.blacklist + ["firewire-ohci"])
    else if lk == "ks" then st.(data := st.data.(ksFile := Some("ks" + (if v.Some? then "=" + v.value else ""))))
    else if lk == "selinux" then
      if v.Some? && ToLower(v.value) == "0" then st.(flags := f - {Selinux})
      else st.(flags := f + {Selinux})
    else if lk == "noeject" then st.(flags := f + {NoEject})
    else if lk == "sshd" then st.(flags := f + {EarlyNetworking})
    else st.(flags := f + {NoVerifySsl})
  }

  /** `repo=` records the repository and picks NFS, HD or CD-ROM from its prefix. */
  lemma RepoSetsMethod(g: Globals, k: string, v: string, env: Env)
    requires ToLower(k) == "repo"
    ensures var r := ApplyKey(g, k, Some(v), env);
            && r.Some? && r.value.data.instRepo == Some(v)
            && (StartsWith(v, "nfs:") ==> r.value.data.instMethod == MethodNfs)
            && (StartsWith(v, "hd:") ==> r.value.data.instMethod == MethodHd)
            && (StartsWith(v, "cd:") ==> r.value.data.instMethod == MethodCdrom)
            && (!StartsWith(v, "nfs:") && !StartsWith(v, "hd:") && !StartsWith(v, "cd:")
                ==> r.value.data.instMethod == g.data.instMethod)
            && r.value.flags == g.flags
  {
    RepoKey(g, k, v, env);
    if StartsWith(v, "hd:") {
      assert v[0] == 'h';
      assert !StartsWith(v, "nfs:");
    }
    if StartsWith(v, "cd:") {
      assert v[0] == 'c';
      assert !StartsWith(v, "nfs:") && !StartsWith(v, "hd:");
    }
  }

  lemma RepoKey(g: Globals, k: string, v: string, env: Env)
    requires ToLower(k) == "repo"
    ensures ApplyKey(g, k, Some(v), env)
            == Some(g.(data := g.data.(instRepo := Some(v), instMethod := RepoMethod(v, g.data.instMethod))))
  {
    assert "repo" !in FlagKeys;
  }

  /** The install method a repository location selects by its prefix; otherwise the one already set. */
  function RepoMethod(v: string, dflt: InstallMethod): InstallMethod {
    if StartsWith(v, "nfs:") then MethodNfs
    else if StartsWith(v, "hd:") then MethodHd
    else if StartsWith(v, "cd:") then MethodCdrom
    else dflt
  }

  /** `BOOTIF=` is matched case-sensitively and stored with `01-` cut and `-` turned into `:`. */
  lemma BootIfStored(g: Globals, v: string, env: Env)
    ensures var r := ApplyKey(g, "BOOTIF", Some(v), env);
            && r.Some? && r.value.data.bootIfSet
            && r.value.data.bootIf == Some(ReplaceChar(if StartsWith(v, "01-") then v[3..] else v, '-', ':'))
  {
    BootIfKey(g, v, env);
    assert BootIfValue(v) == ReplaceChar(if StartsWith(v, "01-") then v[3..] else v, '-', ':');
  }

  lemma BootIfKey(g: Globals, v: string, env: Env)
    ensures ApplyKey(g, "BOOTIF", Some(v), env) == Some(g.(data := g.data.(bootIf := Some(BootIfValue(v)), bootIfSet := true)))
  {
    assert ToLower("BOOTIF") == "bootif";
    assert "bootif" !in FlagKeys;
  }


  /** `text` forces text mode and drops graphical mode; `selinux=0` drops SELinux, any other form sets it. */
  lemma TextAndSelinux(g: Globals, k: string, v: Option<string>, env: Env)
    ensures ToLower(k) == "text" ==> ApplyKey(g, k, v, env) == Some(g.(flags := g.flags + {Text} - {Graphical}))
    ensures ToLower(k) == "selinux" ==>
      var r := ApplyKey(g, k, v, env);
      r.Some? && (Selinux in r.value.flags <==> !(v.Some? && ToLower(v.value) == "0"))
  {
    if ToLower(k) == "text" {
      TextKey(g, k, v, env);
    } else if ToLower(k) == "selinux" {
      SelinuxKey(g, k, v, env);
    }
  }

  lemma TextKey(g: Globals, k: string, v: Option<string>, env: Env)
    requires ToLower(k) == "text"
    ensures ApplyKey(g, k, v, env) == Some(g.(flags := g.flags + {Text} - {Graphical}))
  {
  }

  lemma SelinuxKey(g: Globals, k: string, v: Option<string>, env: Env)
    requires ToLower(k) == "selinux"
    ensures var r := ApplyKey(g, k, v, env);
            r.Some? && (Selinux in r.value.flags <==> !(v.Some? && ToLower(v.value) == "0"))
  {
  }

  /**
   * The extraArgs part of one iteration, run only while fewer than 127
   * entries are stored: `vncpassword=` goes to the password file, the
   * pass-through keys are appended (vnc forcing graphical mode, vnc,
   * syslog and a remote kickstart file requiring early networking).
   */
  function ApplyExtra(st: ParseState, k: string, v: Option<string>, env: Env): (r: ParseState)
    ensures r.g.data == st.g.data
    ensures r.extras == st.extras + (if IsExtraKey(k) then [RenderExtra(k, v)] else [])
  {
    var g := st.g;
    if ToLower(k) == "vncpassword" && v.Some? then st.(g := g.(vncPassword := v))
    else if IsExtraKey(k) then
      var lk := ToLower(k);
      var f1 := if lk == "vnc" then g.flags + {Graphical} else g.flags;
      var f2 := if lk == "syslog" || lk == "vnc" then f1 + {EarlyNetworking} else f1;
      var f3 := if env.isKickstartFileRemote(g.data.ksFile) then f2 + {EarlyNetworking} else f2;
      ParseState(g.(flags := f3), st.extras + [RenderExtra(k, v)])
    else st
  }

  /** One iteration of the parseCmdLineFlags loop. */
  function ParseStep(st: ParseState, a: Arg, env: Env): (r: Option<ParseState>)
    ensures r.Some? ==>
      r.value.extras == st.extras + (if |st.extras| < MaxExtraArgs - 1 && IsExtraKey(a.key)
                                     then [RenderExtra(a.key, a.value)] else [])
  {
    match ApplyKey(st.g, a.key, a.value, env)
    case None => None
    case Some(g1) =>
      if |st.extras| < MaxExtraArgs - 1 then Some(ApplyExtra(ParseState(g1, st.extras), a.key, a.value, env))
      else Some(ParseState(g1, st.extras))
  }

  /** The whole loop over the command line; None when the loader aborts. */
  function ParseAll(st: ParseState, args: seq<Arg>, env: Env): Option<ParseState>
    decreases |args|
  {
    if args == [] then Some(st)
    else match ParseStep(st, args[0], env)
      case None => None
      case Some(st1) => ParseAll(st1, args[1..], env)
  }

  /** The renderings of the pass-through entries, in the order the hash table hands the entries out. */
  function PassedOn(args: seq<Arg>): (r: seq<string>)
    ensures |r| <= |args|
  {
    if args == [] then []
    else (if IsExtraKey(args[0].key) then [RenderExtra(args[0].key, args[0].value)] else [])
         + PassedOn(args[1..])
  }

  function Take(s: seq<string>, n: nat): (r: seq<string>)
    ensures |r| == if |s| <= n then |s| else n
    ensures r == s[..|r|]
  {
    if |s| <= n then s else s[..n]
  }

  /**
   * The stored extra arguments are the first ones passed on, up to
   * MAX_EXTRA_ARGS - 1 in all; the rest are dropped.
   */
  lemma {:induction false} ExtrasAreFirstPassedOn(st: ParseState, args: seq<Arg>, env: Env)
    requires |st.extras| <= MaxExtraArgs - 1
    requires ParseAll(st, args, env).Some?
    ensures var r := ParseAll(st, args, env).value;
            r.extras == st.extras + Take(PassedOn(args), MaxExtraArgs - 1 - |st.extras|)
    decreases |args|
  {
    if args != [] {
      var a := args[0];
      var st2 := ParseStep(st, a, env).value;
      assert ParseAll(st, args, env) == ParseAll(st2, args[1..], env);
      var head := if IsExtraKey(a.key) then [RenderExtra(a.key, a.value)] else [];
      assert PassedOn(args) == head + PassedOn(args[1..]);
      assert st2.extras == if |st.extras| < MaxExtraArgs - 1 then st.extras + head else st.extras;
      ExtrasAreFirstPassedOn(st2, args[1..], env);
      ExtrasJoin(st.extras, st2.extras, head, PassedOn(args[1..]));
    }
  }

  /** One step of the bounded append, in the shape the inductions over the command line need. */
  lemma ExtrasJoin(e: seq<string>, e2: seq<string>, head: seq<string>, tail: seq<string>)
    requires |e| <= MaxExtraArgs - 1 && |head| <= 1
    requires e2 == if |e| < MaxExtraArgs - 1 then e + head else e
    ensures e2 + Take(tail, MaxExtraArgs - 1 - |e2|) == e + Take(head + tail, MaxExtraArgs - 1 - |e|)
  {
    TakeStep(e, head, tail);
  }

  /** However long the command line, at most MAX_EXTRA_ARGS - 1 extras are stored. */
  lemma ExtrasBounded(st: ParseState, args: seq<Arg>, env: Env)
    requires |st.extras| <= MaxExtraArgs - 1
    requires ParseAll(st, args, env).Some?
    ensures |ParseAll(st, args, env).value.extras| <= MaxExtraArgs - 1
  {
    ExtrasAreFirstPassedOn(st, args, env);
  }

  /** Storing one more entry while there is room is the same as taking one more. */
  lemma TakeStep(e: seq<string>, head: seq<string>, tail: seq<string>)
    requires |e| <= MaxExtraArgs - 1 && |head| <= 1
    ensures var e2 := if |e| < MaxExtraArgs - 1 then e + head else e;
            e2 + Take(tail, MaxExtraArgs - 1 - |e2|) == e + Take(head + tail, MaxExtraArgs - 1 - |e|)
  {
  }

  /* ---------------------------------------------------------------- */
  /* The extraArgs buffer                                              */

  /** The strings of a NULL-terminated pointer array, up to the first NULL. */
  function ArgsBeforeNull(a: seq<Option<string>>): (r: seq<string>)
    ensures |r| <= |a|
  {
    if a == [] || a[0].None? then [] else [a[0].value] + ArgsBeforeNull(a[1..])
  }

  lemma {:induction false} ArgsBeforeNullPrefix(a: seq<Option<string>>, e: seq<string>)
    requires |e| < |a| && a[|e|].None?
    requires forall j :: 0 <= j < |e| ==> a[j] == Some(e[j])
    ensures ArgsBeforeNull(a) == e
    decreases |e|
  {
    if e != [] {
      ArgsBeforeNullPrefix(a[1..], e[1..]);
    }
  }

  /** hasGraphicalOverride's answer for a given $DISPLAY and argument list. */
  predicate GraphicalOverride(display: Option<string>, extras: seq<string>) {
    display.Some? || exists s :: s in extras && StartsWithIgnoreCase(s, "--vnc")
  }

  /** The loader's global state: loaderData, flags and the static extraArgs buffer. */
  class Loader {
    var data: LoaderData
    var flags: set<Flag>
    var blacklist: seq<string>
    var display: Option<string>
    var numLinkChecks: int
    var postLinkSleep: int
    var vncPassword: Option<string>
    const extraArgs: array<Option<string>>

    /** The buffer has MAX_EXTRA_ARGS slots and its last one is never filled. */
    ghost predicate Valid()
      reads this, extraArgs
    {
      extraArgs.Length == MaxExtraArgs && extraArgs[MaxExtraArgs - 1].None?
    }

    function Snapshot(): Globals
      reads this
    {
      Globals(data, flags, blacklist, display, numLinkChecks, postLinkSleep, vncPassword)
    }

    /** Program start: flags hold only SELINUX, five link checks, no post-link sleep. */
    constructor (d: LoaderData)
      ensures Valid() && fresh(extraArgs)
      ensures Snapshot() == Globals(d, {Selinux}, [], None, 5, 0, None)
      ensures ArgsBeforeNull(extraArgs[..]) == []
    {
      data := d;
      flags := {Selinux};
      blacklist := [];
      display := None;
      numLinkChecks := 5;
      postLinkSleep := 0;
      vncPassword := None;
      extraArgs := new Option<string>[MaxExtraArgs](_ => None);
    }

    method SetGlobals(g: Globals)
      modifies this
      ensures Snapshot() == g
    {
      data := g.data;
      flags := g.flags;
      blacklist := g.blacklist;
      display := g.display;
      numLinkChecks := g.numLinkChecks;
      postLinkSleep := g.postLinkSleep;
      vncPassword := g.vncPassword;
    }

    /**
     * The extraArgs part of one loop iteration, with `numExtraArgs`
     * entries stored so far and room for another.
     */
    method PassOn(k: string, v: Option<string>, env: Env, numExtraArgs: nat, ghost stored: seq<string>)
      returns (n: nat, ghost stored2: seq<string>)
      requires Valid() && numExtraArgs == |stored| < MaxExtraArgs - 1
      requires forall j :: 0 <= j < numExtraArgs ==> extraArgs[j] == Some(stored[j])
      modifies this, extraArgs
      ensures Valid() && n == |stored2| <= MaxExtraArgs - 1
      ensures forall j :: 0 <= j < n ==> extraArgs[j] == Some(stored2[j])
      ensures ParseState(Snapshot(), stored2) == ApplyExtra(ParseState(old(Snapshot()), stored), k, v, env)
    {
      n, stored2 := numExtraArgs, stored;
      if ToLower(k) == "vncpassword" && v.Some? {
        vncPassword := v;
      } else if IsExtraKey(k) {
        var lk := ToLower(k);
        if lk == "vnc" {
          flags := flags + {Graphical};
        }
        if lk == "syslog" || lk == "vnc" {
          flags := flags + {EarlyNetworking};
        }
        if env.isKickstartFileRemote(data.ksFile) {
          flags := flags + {EarlyNetworking};
        }
        extraArgs[n] := Some(RenderExtra(k, v));
        stored2 := stored2 + [RenderExtra(k, v)];
        n := n + 1;
      }
    }

    /**
     * parseCmdLineFlags: graphical mode by default; an absent command line
     * changes nothing else; otherwise the globals become the result of the
     * loop and extraArgs holds exactly its extras, NULL-terminated.
     */
    method ParseCmdLineFlags(cmdline: Option<seq<Arg>>, env: Env) returns (aborted: bool)
      requires Valid()
      modifies this, extraArgs
      ensures Valid()
      ensures cmdline.None? ==>
        !aborted && Snapshot() == old(Snapshot()).(flags := old(flags) + {Graphical})
        && extraArgs[..] == old(extraArgs[..])
      ensures cmdline.Some? ==>
        var r := ParseAll(ParseState(old(Snapshot()).(flags := old(flags) + {Graphical}), []), cmdline.value, env);
        && aborted == r.None?
        && (r.Some? ==> Snapshot() == r.value.g && ArgsBeforeNull(extraArgs[..]) == r.value.extras)
    {
      flags := flags + {Graphical};
      if cmdline.None? {
        return false;
      }
      var args := cmdline.value;
      ghost var init := ParseState(Snapshot(), []);
      ghost var stored: seq<string> := [];
      var numExtraArgs := 0;
      var i := 0;
      while i < |args|
        invariant 0 <= i <= |args|
        invariant Valid()
        invariant numExtraArgs == |stored| <= MaxExtraArgs - 1
        invariant forall j :: 0 <= j < numExtraArgs ==> extraArgs[j] == Some(stored[j])
        invariant ParseAll(ParseState(Snapshot(), stored), args[i..], env) == ParseAll(init, args, env)
      {
        var k := args[i].key;
        var v := args[i].value;
        assert args[i..][1..] == args[i + 1..];
        ghost var before := ParseState(Snapshot(), stored);
        var r := ApplyKey(Snapshot(), k, v, env);
        if r.None? {
          return true;
        }
        SetGlobals(r.value);
        if numExtraArgs < MaxExtraArgs - 1 {
          numExtraArgs, stored := PassOn(k, v, env, numExtraArgs, stored);
        }
        assert ParseStep(before, args[i], env) == Some(ParseState(Snapshot(), stored));
        assert args[i..][0] == args[i];
        assert ParseAll(before, args[i..], env) == ParseAll(ParseState(Snapshot(), stored), args[i + 1..], env);
        i := i + 1;
      }
      extraArgs[numExtraArgs] := None;
      ArgsBeforeNullPrefix(extraArgs[..], stored);
      return false;
    }

    /** hasGraphicalOverride: $DISPLAY is set or an extra argument starts with `--vnc`. */
    method HasGraphicalOverride() returns (b: bool)
      requires Valid()
      ensures b == GraphicalOverride(display, ArgsBeforeNull(extraArgs[..]))
    {
      if display.Some? {
        return true;
      }
      var i := 0;
      ghost var seen: seq<string> := [];
      while i < extraArgs.Length && extraArgs[i].Some?
        invariant 0 <= i <= extraArgs.Length
        invariant ArgsBeforeNull(extraArgs[..]) == seen + ArgsBeforeNull(extraArgs[i..])
        invariant forall s :: s in seen ==> !StartsWithIgnoreCase(s, "--vnc")
      {
        assert extraArgs[i..][1..] == extraArgs[i + 1..];
        if StartsWithIgnoreCase(extraArgs[i].value, "--vnc") {
          assert extraArgs[i].value in ArgsBeforeNull(extraArgs[..]);
          return true;
        }
        seen := seen + [extraArgs[i].value];
        i := i + 1;
      }
      return false;
    }
  }
}
