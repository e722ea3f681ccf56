/**
 * The step machine `doLoaderMain` of the second-generation loader
 * (loader2/loader.c), which ends in STEP_URL by mounting the install
 * source.  As for the first loader, every dialog, probe and mount a pass
 * of the loop consults is an outside answer bundled in a `Reply`, and
 * the passes consume a given sequence of replies in order.
 */
module Loader2Wizard {
  import opened Wrappers
  import opened Loader2Cmdline

  /* Return codes of the step functions (the usual loader.h values). */
  const LoaderOk: int := 0
  const LoaderBack: int := 1
  const LoaderNoop: int := 2
  const LoaderError: int := -1

  datatype Step =
    | StepLang | StepKbd | StepMethod | StepDriver | StepDriverDisk
    | StepNetwork | StepIface | StepIp | StepUrl | StepDone

  /** DEVICE_CDROM, DEVICE_DISK and DEVICE_NETWORK. */
  datatype DeviceClass = DevCdrom | DevDisk | DevNetwork

  /** The `type` column of `installMethods[]`. */
  function MethodClass(m: InstallMethod): (c: DeviceClass)
    ensures c == DevNetwork <==> m == MethodNfs || m == MethodUrl
  {
    match m
    case MethodCdrom => DevCdrom
    case MethodHd => DevDisk
    case MethodNfs => DevNetwork
    case MethodUrl => DevNetwork
  }

  /**
   * The outside answers one pass may consult: the language chosen,
   * whether the preset keymap loads, chooseKeyboard's code, the method
   * menu's button and entry, the device probe for the needed class, the
   * "No driver found" button, loadDriverFromMedia's code, the network
   * device probe, chooseNetworkInterface's code and interface,
   * readNetConfig's code and the configured address (whether there is
   * one, whether it is dynamic, and its text as inet_ntop renders it for
   * IPv4 and IPv6), and the URL the method's mountImage returns.
   */
  datatype Reply = Reply(
    lang: string, keymapLoads: bool, kbdRc: int, menuRc: int, menuChoice: InstallMethod,
    haveDevice: bool, driverRc: int, ddRc: int, haveNetDevice: bool,
    ifaceRc: int, netDev: string, ipRc: int, haveAddr: bool, dynamic: bool,
    ntop4: Option<string>, ntop6: Option<string>, mounted: Option<string>)

  /**
   * The loop's local variables: `step`, `dir`, `url`, `methodNum` (None
   * for -1), `needed` (None for -1), `needsNetwork`, `rhcdfnd`, the
   * interface name, and whether a `return` inside the loop was taken.
   */
  datatype Locals = Locals(
    step: Step, dir: int, url: Option<string>, methodNum: Option<InstallMethod>,
    needed: Option<DeviceClass>, needsNetwork: bool, rhcdfnd: bool, devName: Option<string>,
    returned: bool)

  /** The locals with loaderData and the global flags. */
  datatype Machine = Machine(v: Locals, data: LoaderData, flags: set<Flag>)

  /**
   * Before the loop.  A preselected method pins `methodNum` and forces
   * ASKMETHOD; then, without ASKMETHOD or kickstart, the CD is looked for
   * (`cdUrl` is what findAnacondaCD answers) and, when it has the tree
   * and neither rescue mode nor a graphical override (`go`) holds, its
   * URL is returned at once; otherwise the CD becomes the default method.
   */
  function Start(data: LoaderData, flags: set<Flag>, cdUrl: Option<string>, go: bool): Machine {
    var pre := data.instMethod.Some?;
    var f := if pre then flags + {AskMethod} else flags;
    var v := Locals(StepLang, 1, None, data.instMethod, None, false, false, None, false);
    if AskMethod !in f && Kickstart !in f then
      if cdUrl.Some? && Rescue !in f && !go then Machine(v.(url := cdUrl, returned := true), data, f)
      else Machine(v.(url := cdUrl, rhcdfnd := true, methodNum := Some(MethodCdrom)), data, f)
    else Machine(v, data, f)
  }

  function StepLangCase(m: Machine, r: Reply): Machine {
    var d := m.data;
    var lang := if d.lang.Some? && d.langSet then d.lang else Some(r.lang);
    m.(data := d.(lang := lang), v := m.v.(step := StepKbd, dir := 1))
  }

  function StepKbdCase(m: Machine, r: Reply): Machine {
    var d := m.data;
    if d.kbd.Some? && d.kbdSet && !r.keymapLoads then m.(data := d.(kbd := None, kbdSet := false))
    else
      var rc := if d.kbd.Some? && d.kbdSet then LoaderNoop
                else if Cmdline !in m.flags then r.kbdRc else LoaderNoop;
      if rc == LoaderNoop then m.(v := m.v.(step := if m.v.dir == -1 then StepLang else StepMethod))
      else if rc == LoaderBack then m.(v := m.v.(step := StepLang, dir := -1))
      else m.(v := m.v.(step := StepMethod, dir := 1))
  }

  function StepMethodCase(m: Machine, r: Reply): Machine {
    var v := m.v;
    if v.url.Some? && Rescue in m.flags then m.(v := v.(returned := true))
    else if v.url.Some? && v.rhcdfnd then m.(v := v.(step := StepNetwork, dir := 1))
    else
      var pinned := m.data.instMethod.Some? && v.methodNum.Some?;
      var rc := if pinned then (if v.dir == 1 then 1 else -1) else r.menuRc;
      var num := if pinned then v.methodNum else Some(r.menuChoice);
      if rc != 0 && rc != 1 then m.(v := v.(needed := None, methodNum := num, step := StepKbd, dir := -1))
      else m.(v := v.(needed := Some(MethodClass(num.value)), methodNum := num, step := StepDriver, dir := 1))
  }

  function StepDriverCase(m: Machine, r: Reply): Machine {
    var v := m.v;
    if v.needed.None? || r.haveDevice then m.(v := v.(step := StepNetwork, dir := 1, needed := None))
    else if r.driverRc == 2 then m.(v := v.(step := StepDriverDisk, dir := 1))
    else if r.driverRc == 3 then m.(v := v.(step := StepMethod, dir := -1))
    else m
  }

  function StepDriverDiskCase(m: Machine, r: Reply): Machine {
    if r.ddRc == LoaderBack then m.(v := m.v.(step := StepDriver, dir := -1))
    else m.(v := m.v.(step := StepDriver))
  }

  /** Whether the chosen method needs a network device (a method must have been chosen). */
  predicate NetworkMethod(v: Locals) {
    v.methodNum.Some? && MethodClass(v.methodNum.value) == DevNetwork
  }

  function StepNetworkCase(m: Machine, r: Reply, go: bool): Machine {
    var v := m.v;
    if !NetworkMethod(v) && !go && AskNetwork !in m.flags then
      var v1 := v.(needsNetwork := false);
      if v.dir == 1 then m.(v := v1.(step := StepUrl))
      else if v.dir == -1 then m.(v := v1.(step := StepMethod))
      else m.(v := v1)
    else if !r.haveNetDevice then m.(v := v.(needsNetwork := true, needed := Some(DevNetwork), step := StepDriver))
    else StepIfaceCase(m.(v := v.(needsNetwork := true)), r)
  }

  function StepIfaceCase(m: Machine, r: Reply): Machine {
    var f := if m.data.ksFile.Some? then m.flags + {IsKickstart} else m.flags;
    var cms := HaveCmsConf in f;
    var d := m.data.(ipinfoSet := cms, ipv6infoSet := cms);
    if r.ifaceRc == LoaderBack || r.ifaceRc == LoaderError || (m.v.dir == -1 && r.ifaceRc == LoaderNoop) then
      Machine(m.v.(step := StepMethod, dir := -1), d, f)
    else
      Machine(m.v.(devName := Some(r.netDev), step := StepIp, dir := 1),
              m.data.(ipinfoSet := cms, ipv6infoSet := cms, netDev := Some(r.netDev)), f)
  }

  /** What an address not configured statically is recorded as. */
  const Dhcp: string := "dhcp"
  const Dhcpv6: string := "dhcpv6"

  /** The address STEP_IP records when none was given: `dflt` for a dynamic or absent one. */
  function AddressText(r: Reply, ntop: Option<string>, dflt: string): string {
    if r.dynamic || !r.haveAddr || ntop.None? then dflt else ntop.value
  }

  /** STEP_IP's IPv4 settings: noipv4 clears the flag, otherwise it is set and a missing address filled in. */
  function Ipv4Data(d: LoaderData, f: set<Flag>, r: Reply): LoaderData {
    if NoIpv4 in f then d.(ipinfoSet := false)
    else d.(ipv4 := if d.ipv4.None? then Some(AddressText(r, r.ntop4, Dhcp)) else d.ipv4, ipinfoSet := true)
  }

  /** The same for IPv6. */
  function Ipv6Data(d: LoaderData, f: set<Flag>, r: Reply): LoaderData {
    if NoIpv6 in f then d.(ipv6infoSet := false)
    else d.(ipv6 := if d.ipv6.None? then Some(AddressText(r, r.ntop6, Dhcpv6)) else d.ipv6, ipv6infoSet := true)
  }

  function StepIpCase(m: Machine, r: Reply): Machine {
    var v := m.v;
    if !v.needsNetwork || v.dir == -1 then m.(v := v.(step := StepMethod))
    else
      var d := m.data;
      var cms := HaveCmsConf in m.flags;
      var d1 := d.(ipinfoSet := cms || d.ipinfoSet, ipv6infoSet := cms || d.ipv6infoSet);
      var d3 := Ipv6Data(Ipv4Data(d1, m.flags, r), m.flags, r);
      if r.ipRc == LoaderBack || r.ipRc == LoaderError || (v.dir == -1 && r.ipRc == LoaderNoop) then
        m.(data := d3, v := v.(step := StepIface, dir := -1))
      else m.(data := d3, v := v.(step := StepUrl, dir := 1))
  }

  function StepUrlCase(m: Machine, r: Reply): Machine {
    var v := m.v;
    if v.url.Some? && v.rhcdfnd then m.(v := v.(returned := true))
    else if r.mounted.None? then
      m.(v := v.(url := None, step := StepIp, dir := -1),
         data := m.data.(ipinfoSet := false, ipv6infoSet := false))
    else m.(v := v.(url := r.mounted, step := StepDone, dir := 1))
  }

  /** One pass of the `while (step != STEP_DONE)` loop. */
  function StepOnce(m: Machine, r: Reply, go: bool): Machine {
    match m.v.step
    case StepLang => StepLangCase(m, r)
    case StepKbd => StepKbdCase(m, r)
    case StepMethod => StepMethodCase(m, r)
    case StepDriver => StepDriverCase(m, r)
    case StepDriverDisk => StepDriverDiskCase(m, r)
    case StepNetwork => StepNetworkCase(m, r, go)
    case StepIface => StepIfaceCase(m, r)
    case StepIp => StepIpCase(m, r)
    case StepUrl => StepUrlCase(m, r)
    case StepDone => m
  }

  predicate Stopped(m: Machine) { m.v.step == StepDone || m.v.returned }

  /** The loop on a sequence of replies; it stops at STEP_DONE, at a `return`, or when the replies run out. */
  function Run(m: Machine, rs: seq<Reply>, go: bool): Machine
    decreases |rs|
  {
    if Stopped(m) || rs == [] then m
    else Run(StepOnce(m, rs[0], go), rs[1..], go)
  }

  /* ---------------------------------------------------------------- */
  /* Properties of the start and of single steps                       */

  /**
   * A preselected method pins `methodNum`, forces ASKMETHOD and so
   * disables the CD fast path: the CD is not looked at.
   */
  lemma PreselectedMethod(data: LoaderData, flags: set<Flag>, cdUrl: Option<string>, go: bool)
    requires data.instMethod.Some?
    ensures var m := Start(data, flags, cdUrl, go);
            && AskMethod in m.flags && m.v.methodNum == data.instMethod
            && !m.v.rhcdfnd && m.v.url.None? && !m.v.returned
  {
  }

  /**
   * The CD fast path: when it is taken and finds the tree, its URL is
   * returned at once exactly when neither rescue mode nor a graphical
   * override holds; otherwise the CD is the default method.
   */
  lemma CdFastPath(data: LoaderData, flags: set<Flag>, cdUrl: Option<string>, go: bool)
    requires data.instMethod.None? && AskMethod !in flags && Kickstart !in flags
    ensures var m := Start(data, flags, cdUrl, go);
            && (m.v.returned <==> cdUrl.Some? && Rescue !in flags && !go)
            && (m.v.returned ==> m.v.url == cdUrl)
            && (!m.v.returned ==> m.v.rhcdfnd && m.v.methodNum == Some(MethodCdrom))
  {
  }

  /**
   * STEP_NETWORK for a method that needs no network, without graphical
   * override or asknetwork, goes on to STEP_URL or back to STEP_METHOD
   * by `dir`.
   */
  lemma NetworkNotNeeded(m: Machine, r: Reply, go: bool)
    requires m.v.step == StepNetwork && m.v.methodNum.Some? && MethodClass(m.v.methodNum.value) != DevNetwork
    requires !go && AskNetwork !in m.flags
    ensures var n := StepOnce(m, r, go);
            && !n.v.needsNetwork && n.data == m.data
            && (m.v.dir == 1 ==> n.v.step == StepUrl)
            && (m.v.dir == -1 ==> n.v.step == StepMethod)
  {
  }

  /**
   * STEP_URL: a failed mount returns to STEP_IP backwards with both
   * address flags cleared; a successful one ends the loop with its URL.
   */
  lemma UrlStep(m: Machine, r: Reply, go: bool)
    requires m.v.step == StepUrl && !(m.v.url.Some? && m.v.rhcdfnd)
    ensures var n := StepOnce(m, r, go);
            && (r.mounted.None? ==> n.v.step == StepIp && n.v.dir == -1 && !n.data.ipinfoSet && !n.data.ipv6infoSet)
            && (r.mounted.Some? ==> n.v.step == StepDone && n.v.url == r.mounted)
  {
  }

  /**
   * STEP_IP with a network needed going forward: an address not given
   * beforehand becomes "dhcp" ("dhcpv6") when the configuration is
   * dynamic or has no address, else the address text; each info flag
   * ends up set unless noipv4 (noipv6) is given, and then cleared.
   */
  lemma IpStep(m: Machine, r: Reply, go: bool)
    requires m.v.step == StepIp && m.v.needsNetwork && m.v.dir == 1
    ensures var n := StepOnce(m, r, go);
            && (n.data.ipinfoSet <==> NoIpv4 !in m.flags)
            && (n.data.ipv6infoSet <==> NoIpv6 !in m.flags)
            && (NoIpv4 !in m.flags && m.data.ipv4.None? ==>
                  n.data.ipv4 == Some(if r.dynamic || !r.haveAddr || r.ntop4.None? then Dhcp else r.ntop4.value))
            && (NoIpv4 in m.flags || m.data.ipv4.Some? ==> n.data.ipv4 == m.data.ipv4)
            && (NoIpv6 !in m.flags && m.data.ipv6.None? ==>
                  n.data.ipv6 == Some(if r.dynamic || !r.haveAddr || r.ntop6.None? then Dhcpv6 else r.ntop6.value))
            && (NoIpv6 in m.flags || m.data.ipv6.Some? ==> n.data.ipv6 == m.data.ipv6)
            && (n.v.step == StepUrl <==> !(r.ipRc == LoaderBack || r.ipRc == LoaderError))
  {
  }

  /** A preset keymap that fails to load is forgotten and STEP_KBD runs again to ask. */
  lemma KbdPresetFailure(m: Machine, r: Reply, go: bool)
    requires m.v.step == StepKbd && m.data.kbd.Some? && m.data.kbdSet && !r.keymapLoads
    ensures var n := StepOnce(m, r, go);
            n.v.step == StepKbd && n.data.kbd.None? && !n.data.kbdSet
  {
  }

  /* ---------------------------------------------------------------- */
  /* Invariants over whole runs                                        */

  /** The steps that index `installMethods[]` with `methodNum`, or come after one that did. */
  predicate MethodChosenStep(s: Step) {
    s in {StepDriver, StepDriverDisk, StepNetwork, StepIface, StepIp, StepUrl, StepDone}
  }

  /**
   * `dir` is +1 or -1; a method has been chosen whenever the method
   * table is indexed (so `methodNum` is never -1 there); and the loop
   * stops only holding a URL.
   */
  predicate Inv(m: Machine) {
    && (m.v.dir == 1 || m.v.dir == -1)
    && (MethodChosenStep(m.v.step) || m.v.rhcdfnd ==> m.v.methodNum.Some?)
    && (Stopped(m) ==> m.v.url.Some?)
  }

  lemma StartInv(data: LoaderData, flags: set<Flag>, cdUrl: Option<string>, go: bool)
    ensures Inv(Start(data, flags, cdUrl, go))
  {
  }

  lemma StepKeepsInv(m: Machine, r: Reply, go: bool)
    requires Inv(m) && !Stopped(m)
    ensures Inv(StepOnce(m, r, go))
  {
    match m.v.step
    case StepLang =>
    case StepKbd =>
    case StepMethod => MethodKeepsInv(m, r);
    case StepDriver =>
    case StepDriverDisk =>
    case StepNetwork => NetworkKeepsInv(m, r, go);
    case StepIface => IfaceKeepsInv(m, r);
    case StepIp => IpKeepsInv(m, r);
    case StepUrl =>
    case StepDone =>
  }

  lemma MethodKeepsInv(m: Machine, r: Reply)
    requires Inv(m) && !Stopped(m) && m.v.step == StepMethod
    ensures Inv(StepMethodCase(m, r))
  {
  }

  lemma IfaceKeepsInv(m: Machine, r: Reply)
    requires Inv(m) && !Stopped(m) && MethodChosenStep(m.v.step)
    ensures Inv(StepIfaceCase(m, r))
  {
  }

  lemma NetworkKeepsInv(m: Machine, r: Reply, go: bool)
    requires Inv(m) && !Stopped(m) && m.v.step == StepNetwork
    ensures Inv(StepNetworkCase(m, r, go))
  {
    IfaceKeepsInv(m.(v := m.v.(needsNetwork := true)), r);
  }

  lemma IpKeepsInv(m: Machine, r: Reply)
    requires Inv(m) && !Stopped(m) && m.v.step == StepIp
    ensures Inv(StepIpCase(m, r))
  {
  }

  lemma {:induction false} RunKeepsInv(m: Machine, rs: seq<Reply>, go: bool)
    requires Inv(m)
    ensures Inv(Run(m, rs, go))
    decreases |rs|
  {
    if !Stopped(m) && rs != [] {
      StepKeepsInv(m, rs[0], go);
      RunKeepsInv(StepOnce(m, rs[0], go), rs[1..], go);
    }
  }

  /** Every way doLoaderMain returns, it returns a URL. */
  lemma ReturnsUrl(data: LoaderData, flags: set<Flag>, cdUrl: Option<string>, rs: seq<Reply>, go: bool)
    ensures var m := Run(Start(data, flags, cdUrl, go), rs, go);
            Stopped(m) ==> m.v.url.Some?
  {
    StartInv(data, flags, cdUrl, go);
    RunKeepsInv(Start(data, flags, cdUrl, go), rs, go);
  }

  /* ---------------------------------------------------------------- */
  /* The loop                                                          */

  /** The result of doLoaderMain: the URL it returns, or the replies ran out first. */
  datatype Outcome = Url(url: string) | OutOfReplies

  function OutcomeOf(m: Machine): Outcome {
    if Stopped(m) && m.v.url.Some? then Url(m.v.url.value) else OutOfReplies
  }

  /**
   * doLoaderMain over the loader's state: loaderData and the flags are
   * updated in place and end as the step machine leaves them, and the
   * result is the URL it ends with.
   */
  method DoLoaderMain(l: Loader2, cdUrl: Option<string>, replies: seq<Reply>) returns (outcome: Outcome)
    requires l.Valid()
    modifies l
    ensures var go := LoaderCmdline.GraphicalOverride(old(l.display), LoaderCmdline.ArgsBeforeNull(l.extraArgs[..]));
            var m := Run(Start(old(l.data), old(l.flags), cdUrl, go), replies, go);
            && l.data == m.data && l.flags == m.flags && outcome == OutcomeOf(m)
    ensures l.Snapshot() == old(l.Snapshot()).(data := l.data, flags := l.flags)
  {
    var go := l.HasGraphicalOverride();
    var v := Begin(l, cdUrl, go);
    ghost var m0 := Machine(v, l.data, l.flags);
    var i := 0;
    while v.step != StepDone && !v.returned && i < |replies|
      invariant 0 <= i <= |replies|
      invariant l.Snapshot() == old(l.Snapshot()).(data := l.data, flags := l.flags)
      invariant Run(Machine(v, l.data, l.flags), replies[i..], go) == Run(m0, replies, go)
      decreases |replies| - i
    {
      v := Pass(l, v, replies[i], go);
      assert replies[i..][1..] == replies[i + 1..];
      i := i + 1;
    }
    outcome := if (v.step == StepDone || v.returned) && v.url.Some? then Url(v.url.value) else OutOfReplies;
  }

  /** What doLoaderMain does before its loop. */
  method Begin(l: Loader2, cdUrl: Option<string>, go: bool) returns (v: Locals)
    modifies l
    ensures Machine(v, l.data, l.flags) == Start(old(l.data), old(l.flags), cdUrl, go)
    ensures l.Snapshot() == old(l.Snapshot()).(flags := l.flags)
  {
    v := Locals(StepLang, 1, None, l.data.instMethod, None, false, false, None, false);
    if l.data.instMethod.Some? {
      l.flags := l.flags + {AskMethod};
    }
    if AskMethod !in l.flags && Kickstart !in l.flags {
      v := v.(url := cdUrl);
      if cdUrl.Some? && Rescue !in l.flags && !go {
        v := v.(returned := true);
      } else {
        v := v.(rhcdfnd := true, methodNum := Some(MethodCdrom));
      }
    }
  }

  /** One pass of the loop: the `switch (step)`. */
  method Pass(l: Loader2, v: Locals, r: Reply, go: bool) returns (v': Locals)
    modifies l
    ensures Machine(v', l.data, l.flags) == StepOnce(Machine(v, old(l.data), old(l.flags)), r, go)
    ensures l.Snapshot() == old(l.Snapshot()).(data := l.data, flags := l.flags)
  {
    ghost var before := Machine(v, l.data, l.flags);
    match v.step {
      case StepLang =>
        v' := LangPass(l, before, v, r);
      case StepKbd =>
        v' := KbdPass(l, before, v, r);
      case StepMethod =>
        v' := MethodPass(l, before, v, r);
      case StepDriver =>
        v' := DriverPass(v, r, l.data, l.flags);
      case StepDriverDisk =>
        if r.ddRc == LoaderBack {
          v' := v.(step := StepDriver, dir := -1);
        } else {
          v' := v.(step := StepDriver);
        }
      case StepNetwork =>
        v' := NetworkPass(l, before, v, r, go);
      case StepIface =>
        var d, f;
        v', d, f := IfacePass(v, l.data, l.flags, r);
        l.data, l.flags := d, f;
      case StepIp =>
        var d;
        v', d := IpPass(v, l.data, l.flags, r);
        l.data := d;
      case StepUrl =>
        v' := UrlPass(l, before, v, r);
      case StepDone =>
        v' := v;
    }
  }

  /** STEP_DRIVER: the device check and the "No driver found" question. */
  method DriverPass(v: Locals, r: Reply, ghost d: LoaderData, ghost f: set<Flag>) returns (v': Locals)
    requires v.step == StepDriver
    ensures Machine(v', d, f) == StepDriverCase(Machine(v, d, f), r)
  {
    v' := v;
    if v.needed.None? || r.haveDevice {
      v' := v'.(step := StepNetwork, dir := 1, needed := None);
    } else if r.driverRc == 2 {
      v' := v'.(step := StepDriverDisk, dir := 1);
    } else if r.driverRc == 3 {
      v' := v'.(step := StepMethod, dir := -1);
    }
  }

  /** The loader's state other than loaderData and the flags. */
  function Others(l: Loader2): (seq<string>, Option<string>, int, int, Option<string>)
    reads l
  {
    (l.blacklist, l.display, l.numLinkChecks, l.postLinkSleep, l.vncPassword)
  }

  /** STEP_LANG: a preset language is kept, otherwise the one chosen is recorded. */
  method LangPass(l: Loader2, ghost m: Machine, v: Locals, r: Reply) returns (v': Locals)
    requires m == Machine(v, l.data, l.flags) && v.step == StepLang
    modifies l
    ensures Machine(v', l.data, l.flags) == StepLangCase(m, r)
    ensures l.Snapshot() == old(l.Snapshot()).(data := l.data)
  {
    if !(l.data.lang.Some? && l.data.langSet) {
      l.data := l.data.(lang := Some(r.lang));
    }
    v' := v.(step := StepKbd, dir := 1);
  }

  /** STEP_URL: the CD found earlier, or the method's mountImage. */
  method UrlPass(l: Loader2, ghost m: Machine, v: Locals, r: Reply) returns (v': Locals)
    requires m == Machine(v, l.data, l.flags) && v.step == StepUrl
    modifies l
    ensures Machine(v', l.data, l.flags) == StepUrlCase(m, r)
    ensures l.Snapshot() == old(l.Snapshot()).(data := l.data)
  {
    if v.url.Some? && v.rhcdfnd {
      return v.(returned := true);
    }
    v' := v.(url := r.mounted);
    if r.mounted.None? {
      v' := v'.(step := StepIp, dir := -1);
      l.data := l.data.(ipinfoSet := false, ipv6infoSet := false);
    } else {
      v' := v'.(step := StepDone, dir := 1);
    }
  }

  /** STEP_KBD: the preset keymap or the keyboard question. */
  method KbdPass(l: Loader2, ghost m: Machine, v: Locals, r: Reply) returns (v': Locals)
    requires m == Machine(v, l.data, l.flags) && v.step == StepKbd
    modifies l
    ensures Machine(v', l.data, l.flags) == StepKbdCase(m, r)
    ensures l.Snapshot() == old(l.Snapshot()).(data := l.data)
  {
    v' := v;
    var rc;
    if l.data.kbd.Some? && l.data.kbdSet {
      if !r.keymapLoads {
        l.data := l.data.(kbd := None, kbdSet := false);
        return;
      }
      rc := LoaderNoop;
    } else if Cmdline !in l.flags {
      rc := r.kbdRc;
    } else {
      rc := LoaderNoop;
    }
    if rc == LoaderNoop {
      v' := v'.(step := if v.dir == -1 then StepLang else StepMethod);
    } else if rc == LoaderBack {
      v' := v'.(step := StepLang, dir := -1);
    } else {
      v' := v'.(step := StepMethod, dir := 1);
    }
  }

  /** STEP_METHOD: the CD shortcuts, the pinned method or the method menu. */
  method MethodPass(l: Loader2, ghost m: Machine, v: Locals, r: Reply) returns (v': Locals)
    requires m == Machine(v, l.data, l.flags) && v.step == StepMethod
    modifies l
    ensures Machine(v', l.data, l.flags) == StepMethodCase(m, r)
    ensures l.Snapshot() == old(l.Snapshot())
  {
    v' := v;
    if v.url.Some? {
      if Rescue in l.flags {
        v' := v'.(returned := true);
        return;
      } else if v.rhcdfnd {
        v' := v'.(step := StepNetwork, dir := 1);
        return;
      }
    }
    v' := v'.(needed := None);
    var rc;
    if l.data.instMethod.Some? && v.methodNum.Some? {
      rc := if v.dir == 1 then 1 else -1;
    } else {
      rc := r.menuRc;
      v' := v'.(methodNum := Some(r.menuChoice));
    }
    if rc != 0 && rc != 1 {
      v' := v'.(step := StepKbd, dir := -1);
    } else {
      v' := v'.(needed := Some(MethodClass(v'.methodNum.value)), step := StepDriver, dir := 1);
    }
  }

  /** STEP_NETWORK: whether a network is needed, and the fall-through into STEP_IFACE. */
  method NetworkPass(l: Loader2, ghost m: Machine, v: Locals, r: Reply, go: bool) returns (v': Locals)
    requires m == Machine(v, l.data, l.flags) && v.step == StepNetwork
    modifies l
    ensures Machine(v', l.data, l.flags) == StepNetworkCase(m, r, go)
    ensures l.Snapshot() == old(l.Snapshot()).(data := l.data, flags := l.flags)
  {
    v' := v;
    var network := v.methodNum.Some? && MethodClass(v.methodNum.value) == DevNetwork;
    if !network && !go && AskNetwork !in l.flags {
      v' := v'.(needsNetwork := false);
      if v.dir == 1 {
        v' := v'.(step := StepUrl);
      } else if v.dir == -1 {
        v' := v'.(step := StepMethod);
      }
      return;
    }
    v' := v'.(needsNetwork := true);
    if !r.haveNetDevice {
      v' := v'.(needed := Some(DevNetwork), step := StepDriver);
      return;
    }
    var d, f;
    v', d, f := IfacePass(v', l.data, l.flags, r);
    l.data, l.flags := d, f;
  }

  /** STEP_IFACE: the address flags from the CMS file, then the interface question. */
  method IfacePass(v: Locals, d: LoaderData, f: set<Flag>, r: Reply) returns (v': Locals, d': LoaderData, f': set<Flag>)
    ensures var n := StepIfaceCase(Machine(v, d, f), r); v' == n.v && d' == n.data && f' == n.flags
  {
    f' := f;
    if d.ksFile.Some? {
      f' := f' + {IsKickstart};
    }
    var cms := HaveCmsConf in f';
    var rc := r.ifaceRc;
    if rc == LoaderBack || rc == LoaderError || (v.dir == -1 && rc == LoaderNoop) {
      v' := v.(step := StepMethod, dir := -1);
      d' := d.(ipinfoSet := cms, ipv6infoSet := cms);
      return;
    }
    d' := d.(ipinfoSet := cms, ipv6infoSet := cms, netDev := Some(r.netDev));
    v' := v.(devName := d'.netDev, step := StepIp, dir := 1);
  }

  /** STEP_IP: readNetConfig and the addresses recorded from it. */
  method IpPass(v: Locals, d: LoaderData, f: set<Flag>, r: Reply) returns (v': Locals, d': LoaderData)
    requires v.step == StepIp
    ensures var n := StepIpCase(Machine(v, d, f), r); v' == n.v && d' == n.data && f == n.flags
  {
    v', d' := v, d;
    if !v.needsNetwork || v.dir == -1 {
      v' := v'.(step := StepMethod);
      return;
    }
    if HaveCmsConf in f {
      d' := d'.(ipinfoSet := true, ipv6infoSet := true);
    }
    var rc := r.ipRc;
    d' := Ipv4Pass(d', f, r);
    d' := Ipv6Pass(d', f, r);
    if rc == LoaderBack || rc == LoaderError || (v.dir == -1 && rc == LoaderNoop) {
      v' := v'.(step := StepIface, dir := -1);
    } else {
      v' := v'.(step := StepUrl, dir := 1);
    }
  }

  /**
   * The IPv4 half of STEP_IP.  The address is taken only when the
   * configuration has one and is static; an empty one also marks the
   * configuration dynamic, which the IPv6 half then sees as well.
   */
  method Ipv4Pass(d: LoaderData, f: set<Flag>, r: Reply) returns (d': LoaderData)
    ensures d' == Ipv4Data(d, f, r)
  {
    if NoIpv4 in f {
      d' := d.(ipinfoSet := false);
    } else {
      var addr := d.ipv4;
      if addr.None? {
        var ret, isDynamic := None, r.dynamic;
        if r.haveAddr {
          ret := r.ntop4;
        } else {
          isDynamic := true;
        }
        addr := Some(if isDynamic || ret.None? then Dhcp else ret.value);
      }
      d' := d.(ipv4 := addr, ipinfoSet := true);
    }
  }


  /** The IPv6 half of STEP_IP. */
  method Ipv6Pass(d: LoaderData, f: set<Flag>, r: Reply) returns (d': LoaderData)
    ensures d' == Ipv6Data(d, f, r)
  {
    if NoIpv6 in f {
      d' := d.(ipv6infoSet := false);
    } else {
      var addr := d.ipv6;
      if addr.None? {
        var ret, isDynamic := None, r.dynamic;
        if r.haveAddr {
          ret := r.ntop6;
        } else {
          isDynamic := true;
        }
        addr := Some(if isDynamic || ret.None? then Dhcpv6 else ret.value);
      }
      d' := d.(ipv6 := addr, ipv6infoSet := true);
    }
  }

}
