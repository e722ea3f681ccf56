/**
 * Hardware probing of the second-generation loader (loader2/hardware.c):
 * whether buses can be probed, the filtering of detected devices into
 * a module list, the colon-joined module set `busProbe` loads, the
 * agpgart check for video cards, and the `dasd=` parameter `dasdSetup`
 * takes from the kernel command line.
 *
 * The device probe, the files under /proc and the module loader are
 * given as inputs; what the code asks of the module loader is returned
 * as a sequence of actions.
 */
module Hardware {
  import opened Wrappers
  import opened Strings

  /** The source as written, or with the defect this model found fixed. */
  datatype Variant = AsWritten | Corrected

  /** The device classes the filtering looks at; every other class is Other. */
  datatype DevClass = Socket | Firewire | Usb | Video | Other

  /** A probed device: its class and the driver the probe library names for it. */
  datatype Device = Device(cls: DevClass, driver: string)

  /** The loader flags hardware.c consults (FL_NOPCMCIA, FL_NOIEEE1394, FL_NOUSB, FL_NOPROBE, FL_TESTING). */
  datatype HwFlags = HwFlags(noPcmcia: bool, noIeee1394: bool, noUsb: bool, noProbe: bool, testing: bool)

  /** What hardware.c asks of the module loader and of the rest of the loader. */
  datatype Action =
    | InitPcmcia
    | LoadSet(modules: string)
    | Load(name: string, args: seq<string>)
    | Remove(name: string)
    | Reload(name: string, args: seq<string>)
    | StartPcmcia
    | UpdateKnownDevices
    | Printed(line: string)

  /* ---------------------------------------------------------------- */
  /* canProbeDevices                                                   */

  /**
   * canProbeDevices.  As written it answers 1 on s390 or when none of
   * /proc/bus/pci/devices, /proc/openprom and /proc/iSeries can be read,
   * and 0 when one of them can: the reverse of "whether we can probe
   * devices automatically".  Corrected, a readable bus description is
   * what allows probing.
   */
  function CanProbeDevices(s390: bool, pci: bool, openprom: bool, iSeries: bool, variant: Variant): (can: bool)
    ensures s390 ==> can
    ensures !s390 && variant == AsWritten ==> (can <==> !pci && !openprom && !iSeries)
    ensures !s390 && variant == Corrected ==> (can <==> pci || openprom || iSeries)
  {
    if s390 then true
    else match variant
      case AsWritten => !pci && !openprom && !iSeries
      case Corrected => pci || openprom || iSeries
  }

  /* ---------------------------------------------------------------- */
  /* detectHardware                                                    */

  /** A driver name that does not stand for a module. */
  predicate NoDriver(driver: string) {
    driver == "ignore" || driver == "unknown" || driver == "disabled"
  }

  /** Whether detectHardware keeps a device's driver: its class is not switched off and it names a module. */
  predicate Keeps(d: Device, flags: HwFlags) {
    !(flags.noPcmcia && d.cls == Socket)
    && !(flags.noIeee1394 && d.cls == Firewire)
    && !(flags.noUsb && d.cls == Usb)
    && !NoDriver(d.driver)
  }

  /** The drivers of the devices kept, in probe order. */
  function Detected(devices: seq<Device>, flags: HwFlags): (mods: seq<string>)
    ensures |mods| <= |devices|
    decreases |devices|
  {
    if devices == [] then []
    else
      var n := |devices| - 1;
      Detected(devices[..n], flags) + (if Keeps(devices[n], flags) then [devices[n].driver] else [])
  }

  /** Probing two runs of devices one after the other gives the drivers of each, in order. */
  lemma {:induction false} DetectedAppend(a: seq<Device>, b: seq<Device>, flags: HwFlags)
    ensures Detected(a + b, flags) == Detected(a, flags) + Detected(b, flags)
    decreases |b|
  {
    if b == [] {
      assert a + b == a;
    } else {
      var n := |b| - 1;
      var ab := a + b;
      assert ab[..|ab| - 1] == a + b[..n];
      assert ab[|ab| - 1] == b[n];
      var tail := if Keeps(b[n], flags) then [b[n].driver] else [];
      assert Detected(ab, flags) == Detected(a + b[..n], flags) + tail;
      assert Detected(b, flags) == Detected(b[..n], flags) + tail;
      DetectedAppend(a, b[..n], flags);
    }
  }

  /** A driver is in the list exactly when some device kept has it. */
  lemma {:induction false} DetectedMembers(devices: seq<Device>, flags: HwFlags, m: string)
    ensures m in Detected(devices, flags) <==> exists k :: 0 <= k < |devices| && Keeps(devices[k], flags) && devices[k].driver == m
    decreases |devices|
  {
    if devices != [] {
      var n := |devices| - 1;
      DetectedMembers(devices[..n], flags, m);
      if m in Detected(devices[..n], flags) {
        var k :| 0 <= k < n && Keeps(devices[..n][k], flags) && devices[..n][k].driver == m;
        assert devices[k] == devices[..n][k];
      }
      if exists k :: 0 <= k < |devices| && Keeps(devices[k], flags) && devices[k].driver == m {
        var k :| 0 <= k < |devices| && Keeps(devices[k], flags) && devices[k].driver == m;
        if k < n {
          assert devices[..n][k] == devices[k];
        }
      }
    }
  }

  /**
   * detectHardware: no probe result, or an empty one, gives no list (NULL
   * and LOADER_OK); otherwise the drivers kept.  The code never reports
   * a failure.
   */
  function DetectHardware(probe: Option<seq<Device>>, flags: HwFlags): (mods: Option<seq<string>>)
    ensures probe.None? || probe.value == [] ==> mods.None?
    ensures probe.Some? && probe.value != [] ==> mods == Some(Detected(probe.value, flags))
  {
    if probe.None? || probe.value == [] then None else Some(Detected(probe.value, flags))
  }

  /** detectHardware's loop over the probed devices, filling the module list. */
  method DetectHardwareLoop(probe: Option<seq<Device>>, flags: HwFlags) returns (mods: Option<seq<string>>)
    ensures mods == DetectHardware(probe, flags)
  {
    if probe.None? || |probe.value| == 0 {
      return None;
    }
    var devices := probe.value;
    var list: seq<string> := [];
    var i := 0;
    while i < |devices|
      invariant 0 <= i <= |devices|
      invariant list == Detected(devices[..i], flags)
    {
      assert devices[..i + 1][..i] == devices[..i];
      assert devices[..i + 1][i] == devices[i];
      var d := devices[i];
      if flags.noPcmcia && d.cls == Socket {
      } else if flags.noIeee1394 && d.cls == Firewire {
      } else if flags.noUsb && d.cls == Usb {
      } else if d.driver != "ignore" && d.driver != "unknown" && d.driver != "disabled" {
        list := list + [d.driver];
      }
      i := i + 1;
    }
    assert devices[..i] == devices;
    mods := Some(list);
  }

  /* ---------------------------------------------------------------- */
  /* busProbe                                                          */

  /** The size of busProbe's `modules` buffer. */
  const ModulesBufferSize: nat := 1024

  /** The total length of the pieces. */
  function TotalLength(pieces: seq<string>): nat {
    if pieces == [] then 0 else |pieces[0]| + TotalLength(pieces[1..])
  }

  lemma {:induction false} JoinLength(pieces: seq<string>, sep: string)
    requires pieces != []
    ensures |Join(pieces, sep)| == TotalLength(pieces) + (|pieces| - 1) * |sep|
    decreases |pieces|
  {
    if |pieces| > 1 {
      JoinLength(pieces[1..], sep);
    }
  }

  /** The loop of busProbe building the module set: names joined with `:` in order. */
  method JoinModules(mods: seq<string>) returns (buf: string)
    ensures buf == Join(mods, ":")
  {
    buf := "";
    var i := 0;
    while i < |mods|
      invariant 0 <= i <= |mods|
      invariant buf == Join(mods[..i], ":")
    {
      assert mods[..i + 1] == mods[..i] + [mods[i]];
      if i > 0 {
        JoinSnoc(mods[..i], ":", mods[i]);
        buf := buf + ":";
      } else {
        assert mods[..i + 1] == [mods[i]];
      }
      buf := buf + mods[i];
      i := i + 1;
    }
    assert mods[..i] == mods;
  }

  /** What busProbe does, and whether the module set overran its buffer. */
  datatype ProbeResult = ProbeResult(actions: seq<Action>, overflow: bool)

  /** The probe environment: the /proc files readable, the architecture and the probe's result. */
  datatype ProbeEnv = ProbeEnv(s390: bool, pci: bool, openprom: bool, iSeries: bool, probe: Option<seq<Device>>)

  function PrintAll(mods: seq<string>): (r: seq<Action>)
    ensures |r| == |mods| && forall k :: 0 <= k < |mods| ==> r[k] == Printed(mods[k])
  {
    if mods == [] then [] else [Printed(mods[0])] + PrintAll(mods[1..])
  }

  /**
   * busProbe (always 0): the PCMCIA controller first; nothing more under
   * `noprobe` or when buses cannot be probed; otherwise the drivers
   * detected are printed (just probing) or loaded as one colon-joined set,
   * followed by PCMCIA start-up and a refresh of the known devices.  As
   * written the set is built in a 1024-byte buffer with no bound.
   */
  function BusProbe(env: ProbeEnv, flags: HwFlags, justProbe: bool, variant: Variant): (r: ProbeResult)
    ensures |r.actions| >= 1 && r.actions[0] == InitPcmcia
    ensures flags.noProbe ==> r == ProbeResult([InitPcmcia], false)
    ensures variant == Corrected ==> !r.overflow
    ensures r.overflow ==> variant == AsWritten
  {
    if flags.noProbe || !CanProbeDevices(env.s390, env.pci, env.openprom, env.iSeries, variant) then
      ProbeResult([InitPcmcia], false)
    else match DetectHardware(env.probe, flags)
      case None => ProbeResult([InitPcmcia], false)
      case Some(mods) =>
        if justProbe then ProbeResult([InitPcmcia] + PrintAll(mods), false)
        else
          var joined := Join(mods, ":");
          if variant == AsWritten && |joined| + 1 > ModulesBufferSize then ProbeResult([InitPcmcia], true)
          else ProbeResult([InitPcmcia, LoadSet(joined), StartPcmcia, UpdateKnownDevices], false)
  }

  /** A module set is loaded only when probing, and it is the detected drivers joined with `:`. */
  lemma LoadedSet(env: ProbeEnv, flags: HwFlags, justProbe: bool, variant: Variant)
    ensures var r := BusProbe(env, flags, justProbe, variant);
            forall k :: 0 <= k < |r.actions| && r.actions[k].LoadSet? ==>
              !flags.noProbe && !justProbe && env.probe.Some? && env.probe.value != []
              && r.actions[k].modules == Join(Detected(env.probe.value, flags), ":")
  {
  }

  /** The module loader, splitting the set at `:`, gets back the names joined, when none contains `:`. */
  lemma {:induction false} JoinSplit(mods: seq<string>)
    requires mods != [] && forall k :: 0 <= k < |mods| ==> ':' !in mods[k]
    ensures Split(Join(mods, ":"), ':') == mods
    decreases |mods|
  {
    if |mods| == 1 {
      FindCharNone(mods[0], ':');
    } else {
      var rest := Join(mods[1..], ":");
      assert Join(mods, ":") == mods[0] + [':'] + rest;
      SplitFirst(mods[0], rest, ':');
      assert forall k :: 0 <= k < |mods[1..]| ==> mods[1..][k] == mods[k + 1];
      JoinSplit(mods[1..]);
      assert mods == [mods[0]] + mods[1..];
    }
  }

  /**
   * As written, on a machine that is not s390 and has a readable
   * /proc/bus/pci/devices, busProbe never detects anything; corrected it
   * loads the drivers the probe reports.
   */
  lemma PciMachineNotProbedAsWritten(probe: seq<Device>, flags: HwFlags)
    requires !flags.noProbe && probe != [] && |Join(Detected(probe, flags), ":")| + 1 <= ModulesBufferSize
    ensures var env := ProbeEnv(false, true, false, false, Some(probe));
            BusProbe(env, flags, false, AsWritten).actions == [InitPcmcia]
            && BusProbe(env, flags, false, Corrected).actions
               == [InitPcmcia, LoadSet(Join(Detected(probe, flags), ":")), StartPcmcia, UpdateKnownDevices]
  {
  }

  function Repeat(s: string, n: nat): (r: seq<string>)
    ensures |r| == n && forall k :: 0 <= k < n ==> r[k] == s
  {
    if n == 0 then [] else [s] + Repeat(s, n - 1)
  }

  lemma {:induction false} RepeatLength(s: string, n: nat)
    ensures TotalLength(Repeat(s, n)) == n * |s|
  {
    if n > 0 {
      assert Repeat(s, n)[1..] == Repeat(s, n - 1);
      RepeatLength(s, n - 1);
    }
  }

  /**
   * As written, `n` devices driven by the same module, with
   * n * (length of its name + 1) over 1024, overrun the module-set
   * buffer (here on s390, where probing is always allowed); corrected,
   * the set is loaded.
   */
  lemma ModulesOverflowAsWritten(driver: string, n: nat, flags: HwFlags)
    requires n > 0 && n * (|driver| + 1) > ModulesBufferSize
    requires !flags.noProbe && !flags.noPcmcia && !NoDriver(driver)
    ensures var env := ProbeEnv(true, false, false, false, Some(seq(n, _ => Device(Other, driver))));
            BusProbe(env, flags, false, AsWritten).overflow
            && BusProbe(env, flags, false, Corrected).actions
               == [InitPcmcia, LoadSet(Join(Repeat(driver, n), ":")), StartPcmcia, UpdateKnownDevices]
  {
    var devs := seq(n, _ => Device(Other, driver));
    AllKept(devs, flags, driver);
    JoinLength(Repeat(driver, n), ":");
    RepeatLength(driver, n);
    assert n * (|driver| + 1) == n * |driver| + n;
  }

  lemma {:induction false} AllKept(devs: seq<Device>, flags: HwFlags, driver: string)
    requires forall k :: 0 <= k < |devs| ==> devs[k] == Device(Other, driver)
    requires !NoDriver(driver)
    ensures Detected(devs, flags) == Repeat(driver, |devs|)
    decreases |devs|
  {
    if devs != [] {
      var n := |devs| - 1;
      AllKept(devs[..n], flags, driver);
      assert Repeat(driver, n + 1) == Repeat(driver, n) + [driver] by {
        RepeatSnoc(driver, n);
      }
    }
  }

  lemma {:induction false} RepeatSnoc(s: string, n: nat)
    ensures Repeat(s, n + 1) == Repeat(s, n) + [s]
  {
    if n > 0 {
      RepeatSnoc(s, n - 1);
    }
  }

  /* ---------------------------------------------------------------- */
  /* agpgartInitialize                                                 */

  /** The video cards that need agpgart. */
  predicate NeedsAgpgart(d: Device) {
    d.driver == "Card:Intel 810" || d.driver == "Card:Intel 815"
  }

  /**
   * agpgartInitialize: nothing under testing or when no video card is
   * found; at the first Intel 810/815 card agpgart is loaded (once), and
   * 1 is returned if that fails.
   */
  function Agpgart(testing: bool, cards: Option<seq<Device>>, loadRc: int): (r: (int, seq<Action>))
    ensures r.1 == [] || r.1 == [Load("agpgart", [])]
    ensures r.1 != [] <==> !testing && cards.Some? && exists k :: 0 <= k < |cards.value| && NeedsAgpgart(cards.value[k])
    ensures r.0 == (if r.1 != [] && loadRc != 0 then 1 else 0)
  {
    if testing || cards.None? then (0, [])
    else if exists k :: 0 <= k < |cards.value| && NeedsAgpgart(cards.value[k]) then
      (if loadRc != 0 then 1 else 0, [Load("agpgart", [])])
    else (0, [])
  }

  /** agpgartInitialize's loop over the video cards, stopping at the first that needs agpgart. */
  method AgpgartInitialize(testing: bool, cards: Option<seq<Device>>, loadRc: int) returns (rc: int, actions: seq<Action>)
    ensures (rc, actions) == Agpgart(testing, cards, loadRc)
  {
    if testing || cards.None? {
      return 0, [];
    }
    var devs := cards.value;
    var i := 0;
    while i < |devs|
      invariant 0 <= i <= |devs|
      invariant forall k :: 0 <= k < i ==> !NeedsAgpgart(devs[k])
    {
      if devs[i].driver == "Card:Intel 810" || devs[i].driver == "Card:Intel 815" {
        actions := [Load("agpgart", [])];
        rc := if loadRc != 0 then 1 else 0;
        return;
      }
      i := i + 1;
    }
    return 0, [];
  }

  /* ---------------------------------------------------------------- */
  /* dasdSetup                                                         */

  /** The size fgets is given in dasdSetup, leaving room for the NUL. */
  const LineChunk: nat := 198

  /** The length of the next piece fgets returns: through the first newline, or at most `n` characters. */
  function ChunkLength(s: string, n: nat): (k: nat)
    requires n > 0 && s != []
    ensures 0 < k <= |s| && k <= n
  {
    var m := if |s| < n then |s| else n;
    match FindChar(s[..m], '\n')
    case None => m
    case Some(i) => i + 1
  }

  /** The pieces successive fgets calls return from `s`. */
  function Chunks(s: string, n: nat): (r: seq<string>)
    requires n > 0
    ensures forall k :: 0 <= k < |r| ==> 0 < |r[k]| <= n
    decreases |s|
  {
    if s == [] then [] else
      var k := ChunkLength(s, n);
      [s[..k]] + Chunks(s[k..], n)
  }

  function Concat(pieces: seq<string>): string {
    if pieces == [] then [] else pieces[0] + Concat(pieces[1..])
  }

  /** Read one after the other, the pieces give back the whole file. */
  lemma {:induction false} ChunksConcat(s: string, n: nat)
    requires n > 0
    ensures Concat(Chunks(s, n)) == s
    decreases |s|
  {
    if s != [] {
      var k := ChunkLength(s, n);
      ChunksConcat(s[k..], n);
      assert Chunks(s, n)[1..] == Chunks(s[k..], n);
      assert s == s[..k] + s[k..];
    }
  }

  /** Where the `dasd=` token starts in a line: after the first " dasd=", or else after the first " DASD=". */
  function DasdAt(line: string): (p: Option<nat>)
    ensures p.Some? ==> 1 <= p.value && p.value + 5 <= |line|
    ensures p.Some? ==> line[p.value - 1..p.value + 5] == " dasd=" || line[p.value - 1..p.value + 5] == " DASD="
    ensures p.None? <==> !Contains(line, " dasd=") && !Contains(line, " DASD=")
  {
    match Find(line, " dasd=")
    case Some(i) => Some(i + 1)
    case None =>
      match Find(line, " DASD=")
      case Some(i) => Some(i + 1)
      case None => None
  }

  /** The first white-space character at or after `from`, or the end of the line. */
  function TokenEnd(line: string, from: nat): (e: nat)
    requires from <= |line|
    ensures from <= e <= |line| && (e < |line| ==> IsSpace(line[e]))
    ensures forall j :: from <= j < e ==> !IsSpace(line[j])
    decreases |line| - from
  {
    if from == |line| || IsSpace(line[from]) then from else TokenEnd(line, from + 1)
  }

  predicate NoWhiteSpace(t: string) {
    forall j :: 0 <= j < |t| ==> !IsSpace(t[j])
  }

  /** The parameter taken from a line: `dasd` in lower case followed by the rest of the token. */
  function DasdToken(line: string): (t: Option<string>)
    ensures t.Some? <==> DasdAt(line).Some?
    ensures t.Some? ==> StartsWith(t.value, "dasd=") && NoWhiteSpace(t.value)
  {
    match DasdAt(line)
    case None => None
    case Some(p) =>
      var e := TokenEnd(line, p + 5);
      DasdTokenForm(line, p, e);
      Some("dasd" + line[p + 4..e])
  }

  /** The token from the '=' after the keyword to white space, behind a lower-case "dasd". */
  lemma DasdTokenForm(line: string, p: nat, e: nat)
    requires 1 <= p && p + 5 <= e <= |line|
    requires line[p - 1..p + 5] == " dasd=" || line[p - 1..p + 5] == " DASD="
    requires forall j :: p + 5 <= j < e ==> !IsSpace(line[j])
    ensures StartsWith("dasd" + line[p + 4..e], "dasd=")
    ensures NoWhiteSpace("dasd" + line[p + 4..e])
  {
    var t := "dasd" + line[p + 4..e];
    assert line[p + 4] == '=' by { assert line[p - 1..p + 5][5] == line[p + 4]; }
    assert t[4] == line[p + 4];
    assert t[..5] == "dasd=" by {
      assert t[0] == 'd' && t[1] == 'a' && t[2] == 's' && t[3] == 'd' && t[4] == '=';
    }
    forall j | 0 <= j < |t| ensures !IsSpace(t[j]) {
      if j >= 5 {
        assert t[j] == line[p + j];
      }
    }
  }

  /** The line after dasdSetup's edit: the parameter where the keyword and value were, then a NUL over the white space ending it. */
  function Edited(line: string): (r: string)
    requires DasdAt(line).Some?
  {
    Rebuilt(line, DasdAt(line).value, DasdToken(line).value, TokenEnd(line, DasdAt(line).value + 5))
  }

  /** The NUL written over the white space at `e`, if there is any, and the rest of the line. */
  function Terminated(line: string, e: nat): string
    requires e <= |line|
  {
    if e < |line| then ['\0'] + line[e + 1..] else []
  }

  function Rebuilt(line: string, p: nat, t: string, e: nat): string
    requires p <= e <= |line|
  {
    line[..p] + t + Terminated(line, e)
  }

  lemma RebuiltSlices(line: string, p: nat, t: string, e: nat)
    requires p <= e <= |line| && |t| == e - p
    ensures var r := Rebuilt(line, p, t, e);
            && |r| == |line| && r[..p] == line[..p] && r[p..e] == t
            && (e < |line| ==> r[e] == '\0' && r[e + 1..] == line[e + 1..])
  {
    var r := Rebuilt(line, p, t, e);
    var z := Terminated(line, e);
    assert r == line[..p] + t + z;
    assert r[..p] == line[..p];
    assert r[p..e] == t;
    assert r[e..] == z;
    if e < |line| {
      assert r[e + 1..] == z[1..];
    }
  }

  /** The edited line holds the parameter, NUL-terminated, where the keyword was; the rest of the line is unchanged. */
  lemma EditedHoldsToken(line: string)
    requires DasdAt(line).Some?
    ensures var p := DasdAt(line).value;
            var e := TokenEnd(line, p + 5);
            && |Edited(line)| == |line|
            && Edited(line)[p..e] == DasdToken(line).value
            && (e < |line| ==> Edited(line)[e] == '\0' && Edited(line)[e + 1..] == line[e + 1..])
            && Edited(line)[..p] == line[..p]
  {
    var p := DasdAt(line).value;
    var e := TokenEnd(line, p + 5);
    RebuiltSlices(line, p, DasdToken(line).value, e);
  }

  /** `dasd` written over the four characters at `p`. */
  function Overwritten(s: string, p: nat): (r: string)
    requires p + 4 <= |s|
  {
    s[p := 'd'][p + 1 := 'a'][p + 2 := 's'][p + 3 := 'd']
  }

  /** The edit as the single-character writes the code makes. */
  lemma RebuiltByWrites(line: string, p: nat, e: nat)
    requires p + 5 <= e <= |line|
    ensures var t := "dasd" + line[p + 4..e];
            Rebuilt(line, p, t, e) == if e < |line| then Overwritten(line, p)[e := '\0'] else Overwritten(line, p)
  {
    var t := "dasd" + line[p + 4..e];
    var r := Rebuilt(line, p, t, e);
    var w := if e < |line| then Overwritten(line, p)[e := '\0'] else Overwritten(line, p);
    RebuiltSlices(line, p, t, e);
    forall j | 0 <= j < |line| ensures r[j] == w[j] {
      if j < p {
        assert r[j] == r[..p][j];
      } else if j < e {
        assert r[j] == r[p..e][j - p];
        if j >= p + 4 {
          assert t[j - p] == line[p + 4..e][j - p - 4];
        }
      } else if j > e {
        assert r[j] == r[e + 1..][j - e - 1];
      }
    }
  }

  /** The parameter is `dasd` followed by the rest of the token, from its `=` on. */
  lemma DasdTokenIs(line: string)
    requires DasdAt(line).Some?
    ensures var p := DasdAt(line).value;
            DasdToken(line).value == "dasd" + line[p + 4..TokenEnd(line, p + 5)]
  {
  }

  /**
   * dasdSetup's edit of one line read from /proc/cmdline, in place: it
   * reports where the parameter lies, and the line is edited as Edited
   * says; a line without the keyword is left as it is.
   */
  method EditDasdLine(line: array<char>) returns (found: bool, start: nat, end: nat)
    modifies line
    ensures found <==> DasdAt(old(line[..])).Some?
    ensures !found ==> line[..] == old(line[..])
    ensures found ==> start == DasdAt(old(line[..])).value && end == TokenEnd(old(line[..]), start + 5)
    ensures found ==> line[..] == Edited(old(line[..])) && end <= line.Length && start <= end
  {
    ghost var s := line[..];
    var p := DasdAt(line[..]);
    if p.None? {
      return false, 0, 0;
    }
    start := p.value;
    WriteKeyword(line, start);
    end := ScanToken(line, start, s);
    if end < line.Length {
      line[end] := '\0';
    }
    DasdTokenIs(s);
    RebuiltByWrites(s, start, end);
    found := true;
  }

  /** The four writes of `dasd` over the keyword as found. */
  method WriteKeyword(line: array<char>, p: nat)
    requires p + 4 <= line.Length
    modifies line
    ensures line[..] == Overwritten(old(line[..]), p)
  {
    line[p] := 'd';
    line[p + 1] := 'a';
    line[p + 2] := 's';
    line[p + 3] := 'd';
  }

  /** The walk from the value to the white space ending the token; the writes made so far do not reach it. */
  method ScanToken(line: array<char>, p: nat, ghost s: string) returns (end: nat)
    requires p + 5 <= |s| == line.Length && line[..] == Overwritten(s, p)
    ensures end == TokenEnd(s, p + 5)
  {
    end := p + 5;
    while end < line.Length && !IsSpace(line[end])
      invariant p + 5 <= end <= line.Length
      invariant forall j :: p + 5 <= j < end ==> !IsSpace(s[j])
    {
      assert line[end] == line[..][end];
      end := end + 1;
    }
    if end < line.Length {
      assert line[end] == line[..][end];
    }
    TokenEndIs(s, p + 5, end);
  }

  lemma {:induction false} TokenEndIs(line: string, from: nat, e: nat)
    requires from <= e <= |line| && (forall j :: from <= j < e ==> !IsSpace(line[j])) && (e < |line| ==> IsSpace(line[e]))
    ensures TokenEnd(line, from) == e
    decreases e - from
  {
    if from < e {
      TokenEndIs(line, from + 1, e);
    }
  }

  /** The parameter of the first piece of the command line that has one. */
  function DasdParms(chunks: seq<string>): (r: Option<string>)
    ensures r.Some? ==> StartsWith(r.value, "dasd=") && forall j :: 0 <= j < |r.value| ==> !IsSpace(r.value[j])
    ensures r.None? <==> forall k :: 0 <= k < |chunks| ==> DasdAt(chunks[k]).None?
  {
    if chunks == [] then None
    else if DasdAt(chunks[0]).Some? then DasdToken(chunks[0])
    else
      assert forall k :: 0 < k < |chunks| ==> chunks[k] == chunks[1..][k - 1];
      DasdParms(chunks[1..])
  }

  /** dasdSetup's loop over the lines read, stopping at the first that holds the parameter. */
  method ReadDasdParms(chunks: seq<string>) returns (parms: Option<string>)
    ensures parms == DasdParms(chunks)
  {
    var i := 0;
    while i < |chunks|
      invariant 0 <= i <= |chunks|
      invariant DasdParms(chunks) == DasdParms(chunks[i..])
    {
      DasdParmsStep(chunks, i);
      var t := ReadChunk(chunks[i]);
      if t.Some? {
        return t;
      }
      i := i + 1;
    }
    return None;
  }

  lemma DasdParmsStep(chunks: seq<string>, i: nat)
    requires i < |chunks|
    ensures DasdParms(chunks[i..]) == if DasdAt(chunks[i]).Some? then DasdToken(chunks[i]) else DasdParms(chunks[i + 1..])
  {
    assert chunks[i..][0] == chunks[i] && chunks[i..][1..] == chunks[i + 1..];
  }

  /** One line: copied into a buffer, edited in place, and the token cut out of the buffer. */
  method ReadChunk(c: string) returns (t: Option<string>)
    ensures t == if DasdAt(c).Some? then DasdToken(c) else None
  {
    var line := new char[|c|](j requires 0 <= j < |c| => c[j]);
    assert line[..] == c;
    var found, start, end := EditDasdLine(line);
    if found {
      EditedHoldsToken(c);
      return Some(line[start..end]);
    }
    return None;
  }

  const DasdModules: string := "dasd_mod:dasd_diag_mod:dasd_fba_mod:dasd_eckd_mod"
  const DasdDisciplines: string := "dasd_diag_mod:dasd_fba_mod:dasd_eckd_mod"

  /** The parameter dasdSetup finds: none when /proc/cmdline cannot be opened. */
  function CmdlineParms(cmdline: Option<string>): (r: Option<string>)
    ensures r.Some? ==> StartsWith(r.value, "dasd=")
  {
    if cmdline.None? then None else DasdParms(Chunks(cmdline.value, LineChunk))
  }

  /**
   * What dasdSetup asks of the module loader for a parameter: one with a
   * value is given to dasd_mod before the disciplines are loaded; without
   * one (or with an empty value) all DASD modules are loaded, and when the
   * active ports can be read they are unloaded and dasd_mod and
   * dasd_eckd_mod reloaded with `dasd=<ports>`.
   */
  function DasdActions(parms: Option<string>, ports: Option<string>): (acts: seq<Action>)
    requires parms.Some? ==> StartsWith(parms.value, "dasd=")
    ensures parms.Some? && |parms.value| > 5 ==> acts == [Load("dasd_mod", [parms.value]), LoadSet(DasdDisciplines)]
    ensures parms.None? || |parms.value| == 5 ==> |acts| >= 1 && acts[0] == LoadSet(DasdModules)
    ensures forall k :: 0 <= k < |acts| && acts[k].Load? ==> parms.Some? && acts[k].args == [parms.value] && |parms.value| > 5
  {
    if parms.None? || |parms.value| == 5 then
      [LoadSet(DasdModules)]
      + (if ports.None? then []
         else [Remove("dasd_eckd_mod"), Remove("dasd_fba_mod"), Remove("dasd_diag_mod"), Remove("dasd_mod"),
               Reload("dasd_mod", ["dasd=" + ports.value]), Reload("dasd_eckd_mod", [])])
    else [Load("dasd_mod", [parms.value]), LoadSet(DasdDisciplines)]
  }

  /** dasdSetup: nothing off s390. */
  function DasdSetup(s390: bool, cmdline: Option<string>, ports: Option<string>): (acts: seq<Action>)
    ensures !s390 ==> acts == []
    ensures s390 ==> acts == DasdActions(CmdlineParms(cmdline), ports)
  {
    if !s390 then [] else DasdActions(CmdlineParms(cmdline), ports)
  }

  /** An empty `dasd=` is treated as no parameter at all, and a non-empty one is never dropped. */
  lemma EmptyDasdIsAbsent(parms: Option<string>, ports: Option<string>)
    requires parms.Some? ==> StartsWith(parms.value, "dasd=")
    ensures DasdActions(parms, ports) == DasdActions(None, ports) <==> parms.None? || parms.value == "dasd="
  {
    if parms.Some? && parms.value != "dasd=" {
      assert |parms.value| > 5;
      assert DasdActions(parms, ports)[0] != DasdActions(None, ports)[0];
    }
  }

  /** A ` DASD=` keyword is read as `dasd=`, with the value that follows it copied unchanged. */
  lemma UpperCaseNormalised(line: string)
    requires DasdAt(line).Some?
    ensures var p := DasdAt(line).value;
            DasdToken(line).value == "dasd=" + line[p + 5..TokenEnd(line, p + 5)]
  {
    var p := DasdAt(line).value;
    assert line[p + 4] == '=' by { assert line[p - 1..p + 5][5] == line[p + 4]; }
    assert line[p + 4..TokenEnd(line, p + 5)] == "=" + line[p + 5..TokenEnd(line, p + 5)];
  }
}
