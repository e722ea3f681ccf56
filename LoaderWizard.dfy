/**
 * The interactive step machine `doLoaderMain` of the first-generation
 * loader (loader/loader.c).  Each pass of its loop consults at most one
 * dialog or probe; every such outside answer for one pass is bundled in a
 * `Reply`, and the passes consume a given sequence of replies in order.
 */
module LoaderWizard {
  import opened Wrappers
  import opened LoaderCmdline

  /* Return codes of the step functions (the usual loader.h values). */
  const LoaderOk: int := 0
  const LoaderBack: int := 1
  const LoaderNoop: int := 2
  const LoaderError: int := -1

  datatype Step =
    | StepLang | StepKbd | StepMethod | StepDriver | StepDriverDisk
    | StepNetwork | StepIface | StepIp | StepExtras | StepDone

  /** The device types of the install methods (DEVICE_CDROM, DEVICE_DISK, DEVICE_NETWORK). */
  datatype DeviceClass = DevCdrom | DevDisk | DevNetwork

  /** The `type` column of `installMethods[]`. */
  function MethodClass(m: InstallMethod): DeviceClass {
    match m
    case MethodCdrom => DevCdrom
    case MethodHd => DevDisk
    case MethodNfs => DevNetwork
    case MethodUrl => DevNetwork
  }

  /**
   * The outside answers for one pass of the loop: whether the preset
   * keymap loads, the return code of this pass's dialog (chooseKeyboard,
   * the method menu, the "No driver found" box, loadDriverFromMedia,
   * chooseNetworkInterface or readNetConfig), the menu entry picked, the
   * method prompt's return code, the language chosen, the device probes,
   * whether iBFT is present and NetworkManager connected, and the
   * interface picked.
   */
  datatype Reply = Reply(
    keymapLoads: bool, rc: int, choice: InstallMethod, promptRc: int, lang: string,
    haveClassDevice: bool, haveNetDevice: bool, ibft: bool, nmConnected: bool, netDev: string)

  /**
   * The loop's variables (`step`, `dir`, `rc`, `needsNetwork`, `class`,
   * `skipLangKbd`), loaderData and the global flags; `exited` records a
   * doExit.
   */
  datatype Machine = Machine(
    step: Step, dir: int, rc: int, needsNetwork: bool, devClass: Option<DeviceClass>,
    skipLangKbd: bool, data: LoaderData, flags: set<Flag>, exited: bool)

  /**
   * Before the loop: without askmethod or a repository, installation media
   * found on a CD (`cdRepo`, the repository findInstallCD records) skips
   * the language and keyboard questions and sets NOPASS.
   */
  function Start(data: LoaderData, flags: set<Flag>, cdRepo: Option<string>): (m: Machine)
    ensures m.step == StepLang && m.dir == 1 && m.rc == LoaderNoop && !m.needsNetwork && m.devClass.None?
    ensures m.skipLangKbd <==> AskMethod !in flags && data.instRepo.None? && cdRepo.Some?
  {
    if AskMethod !in flags && data.instRepo.None? && cdRepo.Some? then
      Machine(StepLang, 1, LoaderNoop, false, None, true, data.(instRepo := cdRepo), flags + {NoPass}, false)
    else
      Machine(StepLang, 1, LoaderNoop, false, None, false, data, flags, false)
  }

  /** STEP_KBD after the keymap question: where the return code leads. */
  function KbdNext(m: Machine): Machine {
    if m.rc == LoaderNoop then m.(step := if m.dir == -1 then StepLang else StepMethod)
    else if m.rc == LoaderBack then m.(step := StepLang, dir := -1)
    else m.(step := StepMethod, dir := 1)
  }

  function StepKbdCase(m: Machine, r: Reply): Machine {
    var d := m.data;
    if d.kbd.Some? && d.kbdSet then
      if !r.keymapLoads then m.(data := d.(kbd := None, kbdSet := false))
      else KbdNext(m.(rc := LoaderNoop))
    else if Rescue in m.flags || !m.skipLangKbd then
      KbdNext(m.(rc := if Cmdline !in m.flags then r.rc else LoaderNoop))
    else
      KbdNext(m.(step := StepMethod, dir := 1))
  }

  function StepMethodCase(m: Machine, r: Reply): Machine {
    if AskMethod !in m.flags then m.(step := if m.dir == -1 then StepKbd else StepDriver)
    else if Cmdline in m.flags then m.(exited := true)
    else
      var m1 := m.(rc := r.rc, data := m.data.(instMethod := r.choice));
      var m2 := if r.rc == 2 then m1.(flags := m1.flags + {AskMethod}) else m1;
      if r.rc != 0 && r.rc != 1 then m2.(step := StepKbd, dir := -1)
      else if r.promptRc == LoaderBack then m2.(rc := r.promptRc)
      else m2.(rc := r.promptRc, devClass := Some(MethodClass(r.choice)), step := StepDriver, dir := 1)
  }

  function StepDriverCase(m: Machine, r: Reply): Machine {
    if (EarlyNetworking in m.flags && r.haveNetDevice) || m.devClass.None? || r.haveClassDevice then
      m.(step := StepNetwork, dir := 1, devClass := None)
    else if m.skipLangKbd then m.(skipLangKbd := false, step := StepKbd)
    else if r.rc == 2 then m.(rc := r.rc, step := StepDriverDisk, dir := 1)
    else if r.rc == 3 then m.(rc := r.rc, step := StepMethod, flags := m.flags + {AskMethod}, dir := -1)
    else m.(rc := r.rc, step := StepDriver)
  }

  function StepDriverDiskCase(m: Machine, r: Reply): Machine {
    if m.skipLangKbd then m.(skipLangKbd := false, step := StepKbd)
    else if r.rc == LoaderBack then m.(rc := r.rc, step := StepDriver, dir := -1)
    else m.(rc := r.rc, step := StepDriver)
  }

  function StepIfaceCase(m: Machine, r: Reply): Machine {
    var f := if m.data.ksFile.Some? then m.flags + {IsKickstart} else m.flags;
    if r.rc == LoaderBack || r.rc == LoaderError || (m.dir == -1 && r.rc == LoaderNoop) then
      m.(flags := f, rc := r.rc, step := StepMethod, dir := -1, data := m.data.(netDevSet := false))
    else
      m.(flags := f, rc := r.rc, data := m.data.(netDev := Some(r.netDev)), step := StepIp, dir := 1)
  }

  /**
   * STEP_NETWORK.  `remote` holds the repository values isURLRemote
   * calls remote (that function is not part of this model).
   */
  function StepNetworkCase(m: Machine, r: Reply, remote: set<Option<string>>): Machine {
    if (m.data.instRepo !in remote && AskNetwork !in m.flags && EarlyNetworking !in m.flags && !r.ibft)
       || r.nmConnected then
      var m1 := m.(needsNetwork := false);
      if m.dir == 1 then m1.(step := StepExtras)
      else if m.dir == -1 then m1.(step := StepMethod)
      else m1
    else if !r.haveNetDevice then m.(needsNetwork := true, devClass := Some(DevNetwork), step := StepDriver)
    else StepIfaceCase(m.(needsNetwork := true), r)
  }

  function StepIpCase(m: Machine, r: Reply): Machine {
    if !m.needsNetwork || m.dir == -1 then m.(step := StepMethod)
    else if r.rc == LoaderBack || (m.dir == -1 && r.rc == LoaderNoop) then
      m.(rc := r.rc, needsNetwork := true, step := StepIface, dir := -1,
         data := m.data.(netDevSet := false, ipinfoSet := false, ipv6infoSet := false))
    else if r.rc == LoaderError then
      m.(rc := r.rc, needsNetwork := true, data := m.data.(ipinfoSet := false, ipv6infoSet := false))
    else m.(rc := r.rc, data := m.data.(netDevSet := true), step := StepExtras, dir := 1)
  }

  /** One pass of the `while (step != STEP_DONE)` loop. */
  function StepOnce(m: Machine, r: Reply, remote: set<Option<string>>): Machine {
    match m.step
    case StepLang =>
      var lang := if m.data.lang.Some? && m.data.langSet then m.data.lang
                  else if Rescue in m.flags || !m.skipLangKbd then Some(r.lang)
                  else m.data.lang;
      m.(data := m.data.(lang := lang), step := StepKbd, dir := 1)
    case StepKbd => StepKbdCase(m, r)
    case StepMethod => StepMethodCase(m, r)
    case StepDriver => StepDriverCase(m, r)
    case StepDriverDisk => StepDriverDiskCase(m, r)
    case StepNetwork => StepNetworkCase(m, r, remote)
    case StepIface => StepIfaceCase(m, r)
    case StepIp => StepIpCase(m, r)
    case StepExtras => m.(step := StepDone)
    case StepDone => m
  }

  predicate Stopped(m: Machine) { m.step == StepDone || m.exited }

  /** The loop run on a sequence of replies; it stops at STEP_DONE, on exit, or when the replies run out. */
  function Run(m: Machine, rs: seq<Reply>, remote: set<Option<string>>): Machine
    decreases |rs|
  {
    if Stopped(m) || rs == [] then m
    else Run(StepOnce(m, rs[0], remote), rs[1..], remote)
  }

  /* ---------------------------------------------------------------- */
  /* Properties of single steps                                        */

  /** A preset keymap that fails to load is forgotten and STEP_KBD runs again to ask. */
  lemma KbdPresetFailure(m: Machine, r: Reply, u: set<Option<string>>)
    requires m.step == StepKbd && m.data.kbd.Some? && m.data.kbdSet && !r.keymapLoads
    ensures var n := StepOnce(m, r, u);
            n.step == StepKbd && n.data.kbd.None? && !n.data.kbdSet
  {
  }

  /**
   * STEP_DRIVER: a suitable device leads to STEP_NETWORK with the class
   * reset; otherwise (once the CD shortcut is spent) "Back" returns to
   * STEP_METHOD with ASKMETHOD, "Use a driver disk" goes to
   * STEP_DRIVERDISK and a manual pick re-enters STEP_DRIVER.
   */
  lemma DriverStep(m: Machine, r: Reply, u: set<Option<string>>)
    requires m.step == StepDriver
    ensures var n := StepOnce(m, r, u);
            var found := (EarlyNetworking in m.flags && r.haveNetDevice) || m.devClass.None? || r.haveClassDevice;
            && (found ==> n.step == StepNetwork && n.dir == 1 && n.devClass.None?)
            && (!found && m.skipLangKbd ==> n.step == StepKbd && !n.skipLangKbd)
            && (!found && !m.skipLangKbd && r.rc == 3 ==>
                  n.step == StepMethod && AskMethod in n.flags && n.dir == -1)
            && (!found && !m.skipLangKbd && r.rc == 2 ==> n.step == StepDriverDisk)
            && (!found && !m.skipLangKbd && r.rc != 2 && r.rc != 3 ==> n.step == StepDriver)
  {
  }

  /** STEP_DRIVERDISK always goes back to STEP_DRIVER, except for the CD shortcut to STEP_KBD. */
  lemma DriverDiskReturns(m: Machine, r: Reply, u: set<Option<string>>)
    requires m.step == StepDriverDisk
    ensures var n := StepOnce(m, r, u);
            (m.skipLangKbd ==> n.step == StepKbd) && (!m.skipLangKbd ==> n.step == StepDriver)
  {
  }

  /**
   * Back edges of the network steps: leaving STEP_IFACE backwards clears
   * netDev_set; Back from STEP_IP clears netDev_set and the address
   * flags and returns to STEP_IFACE; an error in STEP_IP clears the
   * address flags and retries STEP_IP.
   */
  lemma NetworkBackEdges(m: Machine, r: Reply, u: set<Option<string>>)
    ensures var n := StepOnce(m, r, u);
            && (m.step == StepIface && (r.rc == LoaderBack || r.rc == LoaderError) ==>
                  n.step == StepMethod && n.dir == -1 && !n.data.netDevSet)
            && (m.step == StepIp && m.needsNetwork && m.dir != -1 && r.rc == LoaderBack ==>
                  n.step == StepIface && n.dir == -1 && !n.data.netDevSet
                  && !n.data.ipinfoSet && !n.data.ipv6infoSet)
            && (m.step == StepIp && m.needsNetwork && m.dir != -1 && r.rc == LoaderError ==>
                  n.step == StepIp && !n.data.ipinfoSet && !n.data.ipv6infoSet)
  {
  }

  /* ---------------------------------------------------------------- */
  /* Invariants over whole runs                                        */

  /**
   * Whenever the machine is at STEP_EXTRAS or STEP_DONE having needed a
   * network, an interface has been recorded (netDev_set), so the
   * updates and product images are not asked for again; `dir` is always
   * one of +1 and -1.
   */
  ghost predicate Inv(m: Machine) {
    && (m.dir == 1 || m.dir == -1)
    && ((m.step == StepExtras || m.step == StepDone) && m.needsNetwork ==> m.data.netDevSet)
  }

  lemma StepKeepsInv(m: Machine, r: Reply, u: set<Option<string>>)
    requires Inv(m)
    ensures Inv(StepOnce(m, r, u))
  {
    match m.step
    case StepLang =>
    case StepKbd => KbdKeepsInv(m, r);
    case StepMethod => MethodKeepsInv(m, r);
    case StepDriver => DriverKeepsInv(m, r);
    case StepDriverDisk =>
    case StepNetwork => NetworkKeepsInv(m, r, u);
    case StepIface => IfaceKeepsInv(m, r);
    case StepIp => IpKeepsInv(m, r);
    case StepExtras =>
    case StepDone =>
  }

  lemma KbdKeepsInv(m: Machine, r: Reply)
    requires Inv(m) && m.step == StepKbd
    ensures Inv(StepKbdCase(m, r))
  {
  }

  lemma MethodKeepsInv(m: Machine, r: Reply)
    requires Inv(m) && m.step == StepMethod
    ensures Inv(StepMethodCase(m, r))
  {
  }

  lemma DriverKeepsInv(m: Machine, r: Reply)
    requires Inv(m) && m.step == StepDriver
    ensures Inv(StepDriverCase(m, r))
  {
  }

  lemma IfaceKeepsInv(m: Machine, r: Reply)
    requires Inv(m)
    ensures Inv(StepIfaceCase(m, r))
  {
  }

  lemma NetworkKeepsInv(m: Machine, r: Reply, u: set<Option<string>>)
    requires Inv(m) && m.step == StepNetwork
    ensures Inv(StepNetworkCase(m, r, u))
  {
    IfaceKeepsInv(m.(needsNetwork := true), r);
  }

  lemma IpKeepsInv(m: Machine, r: Reply)
    requires Inv(m) && m.step == StepIp
    ensures Inv(StepIpCase(m, r))
  {
  }

  lemma {:induction false} RunKeepsInv(m: Machine, rs: seq<Reply>, u: set<Option<string>>)
    requires Inv(m)
    ensures Inv(Run(m, rs, u))
    decreases |rs|
  {
    if !Stopped(m) && rs != [] {
      StepKeepsInv(m, rs[0], u);
      RunKeepsInv(StepOnce(m, rs[0], u), rs[1..], u);
    }
  }

  /** A finished run with networking needed has netDev_set, starting from any parse result. */
  lemma FinishedRunHasInterface(data: LoaderData, flags: set<Flag>, cdRepo: Option<string>,
                                rs: seq<Reply>, u: set<Option<string>>)
    ensures var m := Run(Start(data, flags, cdRepo), rs, u);
            m.step == StepDone && m.needsNetwork ==> m.data.netDevSet
  {
    RunKeepsInv(Start(data, flags, cdRepo), rs, u);
  }

  /** STEP_DONE is reached only through STEP_EXTRAS: a run that ends there passed it on its last pass. */
  lemma {:induction false} DoneOnlyFromExtras(m: Machine, rs: seq<Reply>, u: set<Option<string>>)
    requires m.step != StepDone
    requires Run(m, rs, u).step == StepDone
    ensures exists k :: 0 <= k < |rs| && Run(m, rs[..k], u).step == StepExtras
    decreases |rs|
  {
    var n := StepOnce(m, rs[0], u);
    assert rs[..1][1..] == [];
    if n.step == StepDone {
      assert m.step == StepExtras;
      assert Run(m, rs[..0], u) == m;
    } else {
      DoneOnlyFromExtras(n, rs[1..], u);
      var k :| 0 <= k < |rs[1..]| && Run(n, rs[1..][..k], u).step == StepExtras;
      assert rs[..k + 1][1..] == rs[1..][..k];
      assert Run(m, rs[..k + 1], u).step == StepExtras;
    }
  }

  /* ---------------------------------------------------------------- */
  /* The loop                                                          */

  /** How doLoaderMain ended. */
  datatype Outcome = Finished | Exited | OutOfReplies

  /**
   * doLoaderMain over the loader's state: the loop works on its local
   * variables and updates loaderData and the flags in place; the final
   * state is the one the step machine reaches.
   */
  method DoLoaderMain(l: Loader, cdRepo: Option<string>, replies: seq<Reply>,
                      remote: set<Option<string>>) returns (outcome: Outcome)
    modifies l
    ensures var m := Run(Start(old(l.data), old(l.flags), cdRepo), replies, remote);
            && l.data == m.data && l.flags == m.flags
            && outcome == (if m.exited then Exited else if m.step == StepDone then Finished else OutOfReplies)
    ensures l.blacklist == old(l.blacklist) && l.display == old(l.display)
  {
    ghost var m0 := Start(l.data, l.flags, cdRepo);
    var step, dir, rc, needsNetwork, devClass: Option<DeviceClass>, skipLangKbd := StepLang, 1, LoaderNoop, false, None, false;
    if AskMethod !in l.flags && l.data.instRepo.None? && cdRepo.Some? {
      l.data := l.data.(instRepo := cdRepo);
      skipLangKbd := true;
      l.flags := l.flags + {NoPass};
    }
    var exited := false;
    var i := 0;
    while step != StepDone && !exited && i < |replies|
      invariant 0 <= i <= |replies|
      invariant l.blacklist == old(l.blacklist) && l.display == old(l.display)
      invariant Run(Machine(step, dir, rc, needsNetwork, devClass, skipLangKbd, l.data, l.flags, exited),
                    replies[i..], remote) == Run(m0, replies, remote)
      decreases |replies| - i
    {
      ghost var before := Machine(step, dir, rc, needsNetwork, devClass, skipLangKbd, l.data, l.flags, exited);
      step, dir, rc, needsNetwork, devClass, skipLangKbd, exited :=
        DoStep(l, before, step, dir, rc, needsNetwork, devClass, skipLangKbd, exited, replies[i], remote);
      assert replies[i..][1..] == replies[i + 1..];
      i := i + 1;
    }
    outcome := if exited then Exited else if step == StepDone then Finished else OutOfReplies;
  }

  /** One pass of doLoaderMain's loop: the step the loop is at, on the reply of its dialog. */
  method DoStep(l: Loader, ghost before: Machine, step0: Step, dir0: int, rc0: int, needsNetwork0: bool,
                devClass0: Option<DeviceClass>, skipLangKbd0: bool, exited0: bool, r: Reply, remote: set<Option<string>>)
    returns (step: Step, dir: int, rc: int, needsNetwork: bool, devClass: Option<DeviceClass>, skipLangKbd: bool, exited: bool)
    requires before == Machine(step0, dir0, rc0, needsNetwork0, devClass0, skipLangKbd0, l.data, l.flags, exited0)
    requires !exited0
    modifies l
    ensures Machine(step, dir, rc, needsNetwork, devClass, skipLangKbd, l.data, l.flags, exited) == StepOnce(before, r, remote)
    ensures l.blacklist == old(l.blacklist) && l.display == old(l.display)
  {
    step, dir, rc, needsNetwork, devClass, skipLangKbd, exited := step0, dir0, rc0, needsNetwork0, devClass0, skipLangKbd0, exited0;
    match step {
      case StepLang =>
        LangPass(l, skipLangKbd, r);
        step, dir := StepKbd, 1;
      case StepKbd =>
        step, dir, rc := KbdPass(l, before, step, dir, rc, skipLangKbd, r);
      case StepMethod =>
        step, dir, rc, devClass, exited := MethodStep(l, before, step, dir, rc, devClass, r);
      case StepDriver =>
        step, dir, rc, devClass, skipLangKbd := DriverPass(l, before, step, dir, rc, devClass, skipLangKbd, r);
      case StepDriverDisk =>
        if skipLangKbd {
          skipLangKbd, step := false, StepKbd;
        } else {
          rc := r.rc;
          if rc == LoaderBack {
            step, dir := StepDriver, -1;
          } else {
            step := StepDriver;
          }
        }
        assert Machine(step, dir, rc, needsNetwork, devClass, skipLangKbd, l.data, l.flags, exited)
               == StepDriverDiskCase(before, r);
      case StepNetwork =>
        step, dir, rc, needsNetwork, devClass := NetworkPass(l, before, step, dir, rc, needsNetwork, devClass, r, remote);
      case StepIface =>
        step, dir, rc := IfaceStep(l, before, dir, r);
      case StepIp =>
        step, dir, rc, needsNetwork := IpPass(l, before, step, dir, rc, needsNetwork, r);
      case StepExtras =>
        step := StepDone;
      case StepDone =>
    }
  }

  /** STEP_LANG: a preset language is kept, otherwise the chosen one is recorded (unless skipped). */
  method LangPass(l: Loader, skipLangKbd: bool, r: Reply)
    modifies l
    ensures l.flags == old(l.flags) && l.blacklist == old(l.blacklist) && l.display == old(l.display)
    ensures l.data == old(l.data).(lang :=
              if old(l.data).lang.Some? && old(l.data).langSet then old(l.data).lang
              else if Rescue in l.flags || !skipLangKbd then Some(r.lang)
              else old(l.data).lang)
  {
    if l.data.lang.Some? && l.data.langSet {
    } else if Rescue in l.flags || !skipLangKbd {
      l.data := l.data.(lang := Some(r.lang));
    }
  }

  /** STEP_KBD: the preset keymap, the keyboard question, or the CD shortcut. */
  method KbdPass(l: Loader, ghost m: Machine, step: Step, dir: int, rc: int, skipLangKbd: bool, r: Reply)
    returns (step': Step, dir': int, rc': int)
    requires m == Machine(step, dir, rc, m.needsNetwork, m.devClass, skipLangKbd, l.data, l.flags, m.exited)
    modifies l
    ensures Machine(step', dir', rc', m.needsNetwork, m.devClass, skipLangKbd, l.data, l.flags, m.exited)
            == StepKbdCase(m, r)
    ensures l.blacklist == old(l.blacklist) && l.display == old(l.display)
  {
    step', dir', rc' := step, dir, rc;
    if l.data.kbd.Some? && l.data.kbdSet {
      if !r.keymapLoads {
        l.data := l.data.(kbd := None, kbdSet := false);
        return;
      }
      rc' := LoaderNoop;
    } else if Rescue in l.flags || !skipLangKbd {
      rc' := if Cmdline !in l.flags then r.rc else LoaderNoop;
    } else {
      step', dir' := StepMethod, 1;
    }
    if rc' == LoaderNoop {
      step' := if dir' == -1 then StepLang else StepMethod;
      return;
    }
    if rc' == LoaderBack {
      step', dir' := StepLang, -1;
    } else {
      step', dir' := StepMethod, 1;
    }
  }

  /** STEP_DRIVER: the device check and the "No driver found" question. */
  method DriverPass(l: Loader, ghost m: Machine, step: Step, dir: int, rc: int, devClass: Option<DeviceClass>,
                    skipLangKbd: bool, r: Reply)
    returns (step': Step, dir': int, rc': int, devClass': Option<DeviceClass>, skipLangKbd': bool)
    requires m == Machine(step, dir, rc, m.needsNetwork, devClass, skipLangKbd, l.data, l.flags, m.exited)
    modifies l
    ensures Machine(step', dir', rc', m.needsNetwork, devClass', skipLangKbd', l.data, l.flags, m.exited)
            == StepDriverCase(m, r)
    ensures l.blacklist == old(l.blacklist) && l.display == old(l.display)
  {
    step', dir', rc', devClass', skipLangKbd' := step, dir, rc, devClass, skipLangKbd;
    if (EarlyNetworking in l.flags && r.haveNetDevice) || devClass.None? || r.haveClassDevice {
      step', dir', devClass' := StepNetwork, 1, None;
      return;
    }
    if skipLangKbd {
      skipLangKbd', step' := false, StepKbd;
      return;
    }
    rc' := r.rc;
    if rc' == 2 {
      step', dir' := StepDriverDisk, 1;
    } else if rc' == 3 {
      step' := StepMethod;
      l.flags := l.flags + {AskMethod};
      dir' := -1;
    } else {
      step' := StepDriver;
    }
  }

  /** STEP_NETWORK: whether a network is needed, and the fall-through into STEP_IFACE. */
  method NetworkPass(l: Loader, ghost m: Machine, step: Step, dir: int, rc: int, needsNetwork: bool,
                     devClass: Option<DeviceClass>, r: Reply, remote: set<Option<string>>)
    returns (step': Step, dir': int, rc': int, needsNetwork': bool, devClass': Option<DeviceClass>)
    requires m == Machine(step, dir, rc, needsNetwork, devClass, m.skipLangKbd, l.data, l.flags, m.exited)
    modifies l
    ensures Machine(step', dir', rc', needsNetwork', devClass', m.skipLangKbd, l.data, l.flags, m.exited)
            == StepNetworkCase(m, r, remote)
    ensures l.blacklist == old(l.blacklist) && l.display == old(l.display)
  {
    step', dir', rc', needsNetwork', devClass' := step, dir, rc, needsNetwork, devClass;
    if (l.data.instRepo !in remote && AskNetwork !in l.flags && EarlyNetworking !in l.flags && !r.ibft)
       || r.nmConnected {
      needsNetwork' := false;
      if dir == 1 {
        step' := StepExtras;
      } else if dir == -1 {
        step' := StepMethod;
      }
      return;
    }
    needsNetwork' := true;
    if !r.haveNetDevice {
      devClass', step' := Some(DevNetwork), StepDriver;
      return;
    }
    step', dir', rc' := IfaceStep(l, m.(needsNetwork := true), dir, r);
  }

  /** STEP_IP: the address configuration and its back and retry edges. */
  method IpPass(l: Loader, ghost m: Machine, step: Step, dir: int, rc: int, needsNetwork: bool, r: Reply)
    returns (step': Step, dir': int, rc': int, needsNetwork': bool)
    requires m == Machine(step, dir, rc, needsNetwork, m.devClass, m.skipLangKbd, l.data, l.flags, m.exited)
    modifies l
    ensures Machine(step', dir', rc', needsNetwork', m.devClass, m.skipLangKbd, l.data, l.flags, m.exited)
            == StepIpCase(m, r)
    ensures l.blacklist == old(l.blacklist) && l.display == old(l.display)
  {
    step', dir', rc', needsNetwork' := step, dir, rc, needsNetwork;
    if !needsNetwork || dir == -1 {
      step' := StepMethod;
      return;
    }
    rc' := r.rc;
    if rc' == LoaderBack || (dir == -1 && rc' == LoaderNoop) {
      needsNetwork', step', dir' := true, StepIface, -1;
      l.data := l.data.(netDevSet := false, ipinfoSet := false, ipv6infoSet := false);
      return;
    }
    if rc' == LoaderError {
      needsNetwork' := true;
      l.data := l.data.(ipinfoSet := false, ipv6infoSet := false);
      return;
    }
    l.data := l.data.(netDevSet := true);
    step', dir' := StepExtras, 1;
  }

  /** STEP_METHOD: the method menu and the method's own prompt. */
  method MethodStep(l: Loader, ghost m: Machine, step: Step, dir: int, rc: int, devClass: Option<DeviceClass>, r: Reply)
    returns (step': Step, dir': int, rc': int, devClass': Option<DeviceClass>, exited: bool)
    requires m == Machine(step, dir, rc, m.needsNetwork, devClass, m.skipLangKbd, l.data, l.flags, m.exited) && !m.exited
    modifies l
    ensures Machine(step', dir', rc', m.needsNetwork, devClass', m.skipLangKbd, l.data, l.flags, exited)
            == StepMethodCase(m, r)
    ensures l.blacklist == old(l.blacklist) && l.display == old(l.display)
  {
    step', dir', rc', devClass', exited := step, dir, rc, devClass, false;
    if AskMethod in l.flags {
      if Cmdline in l.flags {
        exited := true;
        return;
      }
    } else {
      step' := if dir == -1 then StepKbd else StepDriver;
      return;
    }
    rc' := r.rc;
    l.data := l.data.(instMethod := r.choice);
    if rc' == 2 {
      l.flags := l.flags + {AskMethod};
    }
    if rc' != 0 && rc' != 1 {
      step', dir' := StepKbd, -1;
    } else {
      rc' := r.promptRc;
      if rc' == LoaderBack {
        return;
      }
      devClass' := Some(MethodClass(r.choice));
      step', dir' := StepDriver, 1;
    }
  }

  /** STEP_IFACE: the interface question (reached directly or by falling through from STEP_NETWORK). */
  method IfaceStep(l: Loader, ghost m: Machine, dir: int, r: Reply) returns (step': Step, dir': int, rc': int)
    requires m.dir == dir && m.data == l.data && m.flags == l.flags
    modifies l
    ensures var n := StepIfaceCase(m, r);
            && step' == n.step && dir' == n.dir && rc' == n.rc && l.data == n.data && l.flags == n.flags
    ensures l.blacklist == old(l.blacklist) && l.display == old(l.display)
  {
    var flags := if l.data.ksFile.Some? then l.flags + {IsKickstart} else l.flags;
    rc' := r.rc;
    if rc' == LoaderBack || rc' == LoaderError || (dir == -1 && rc' == LoaderNoop) {
      step', dir' := StepMethod, -1;
      l.data, l.flags := l.data.(netDevSet := false), flags;
    } else {
      step', dir' := StepIp, 1;
      l.data, l.flags := l.data.(netDev := Some(r.netDev)), flags;
    }
  }
}
