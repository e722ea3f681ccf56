/**
 * NFS installs of the second-generation loader (loader2/nfsinstall.c):
 * the server and directory prompt, the `mountNfsImage` stage machine
 * (interface, network configuration, server prompt, mount), the
 * kickstart `nfs` command and the location of a kickstart file on an NFS
 * server.
 *
 * Dialog answers, the network configuration, mounts and the checks of
 * the mounted tree are given, one record per pass of the stage loop.
 */
module NfsInstall {
  import opened Wrappers
  import opened Strings
  import opened Mounts

  /** The results of the loader's dialogs (LOADER_OK, LOADER_BACK, LOADER_NOOP, LOADER_ERROR). */
  const LoaderOk: int := 0
  const LoaderBack: int := 1
  const LoaderNoop: int := 2
  const LoaderError: int := -1

  /* ---------------------------------------------------------------- */
  /* nfsGetSetup                                                       */

  /**
   * nfsGetSetup: the entries start from the current server and directory;
   * Back (button 2) keeps both and returns LOADER_BACK, anything else
   * replaces both with what was typed and returns 0.
   */
  function NfsGetSetup(host: Option<string>, directory: Option<string>, rc: int, newHost: string, newDir: string)
    : (r: (int, Option<string>, Option<string>))
    ensures rc == 2 <==> r.0 == LoaderBack
    ensures r.0 == LoaderBack ==> r.1 == host && r.2 == directory
    ensures r.0 != LoaderBack ==> r.0 == 0 && r.1 == Some(newHost) && r.2 == Some(newDir)
  {
    if rc == 2 then (LoaderBack, host, directory) else (0, Some(newHost), Some(newDir))
  }

  /* ---------------------------------------------------------------- */
  /* Kickstart data                                                    */

  /**
   * A `char *` of the kickstart data: NULL, a string, or never
   * initialised (whatever the stack held).
   */
  datatype Ptr = Null | Str(s: string) | Garbage

  /** The `nfs` kickstart command's data. */
  datatype NfsData = NfsData(host: Ptr, directory: Ptr)

  /** The `--server` and `--dir` options after parsing (popt errors leave loaderData unchanged). */
  datatype NfsOptions = NfsOptions(parseOk: bool, server: Option<string>, dir: Option<string>)

  /** The method fields of loaderData. */
  datatype MethodData = MethodData(instMethod: Option<string>, nfs: Option<NfsData>)

  /** The source as written, or with the defect this model found fixed. */
  datatype Variant = AsWritten | Corrected

  /**
   * setKickstartNfs.  As written `host` and `dir` are not initialised,
   * so an option left out stores an indeterminate pointer; corrected,
   * they start as NULL like setKickstartHD's.
   */
  function SetKickstartNfs(m: MethodData, o: NfsOptions, variant: Variant): (r: MethodData)
    ensures !o.parseOk ==> r == m
    ensures o.parseOk ==> r.instMethod == Some("nfs") && r.nfs.Some?
    ensures o.parseOk && o.server.Some? ==> r.nfs.value.host == Str(o.server.value)
    ensures o.parseOk && o.dir.Some? ==> r.nfs.value.directory == Str(o.dir.value)
  {
    var unset := if variant == AsWritten then Garbage else Null;
    if !o.parseOk then m
    else
      var host := if o.server.Some? then Str(o.server.value) else unset;
      var dir := if o.dir.Some? then Str(o.dir.value) else unset;
      MethodData(Some("nfs"), Some(NfsData(host, dir)))
  }

  /** No pointer of the data is indeterminate. */
  predicate Determinate(d: MethodData) {
    d.nfs.Some? ==> d.nfs.value.host != Garbage && d.nfs.value.directory != Garbage
  }

  /** Corrected, an option left out is NULL, so the data is never indeterminate. */
  lemma SetKickstartNfsDeterminate(m: MethodData, o: NfsOptions)
    requires Determinate(m)
    ensures Determinate(SetKickstartNfs(m, o, Corrected))
    ensures o.parseOk && o.server.None? ==> SetKickstartNfs(m, o, Corrected).nfs.value.host == Null
  {
  }

  /* ---------------------------------------------------------------- */
  /* mountNfsImage                                                     */

  datatype Stage = NfsIface | NfsIp | NfsNfs | NfsMount | NfsDone

  /** The messages shown when a directory does not work. */
  datatype Message = TreeMismatch | NoTree | MountFailed

  /**
   * The answers for one pass of the stage loop: the interface choice,
   * the network configuration, the server prompt, and what mounting the
   * directory finds — whether the NFS mount worked, whether the tree's
   * stage2.img is readable and what mounting it gives (-1: the tree does
   * not match the boot media), the ISO image found and its loop mount,
   * and what mounting stage 2 from the ISO gives.
   */
  datatype NfsReply = NfsReply(ifaceRc: int, ipRc: int, setupRc: int, newHost: string, newDir: string,
                               mountOk: bool, stage2Readable: bool, directRc: int,
                               isoPath: Option<string>, loopRc: int, isoRc: int)

  /**
   * The loop's state: the stage, the direction of travel, the server and
   * directory, the method fields, the URL, the mounts, the messages
   * shown, whether NULL was returned, and whether an indeterminate
   * pointer was used.
   */
  datatype Nfs = Nfs(stage: Stage, dir: int, host: Ptr, directory: Ptr, data: MethodData,
                     url: Option<string>, log: seq<MountEvent>, messages: seq<Message>,
                     returned: bool, fault: bool)

  function Start(data: MethodData): Nfs {
    Nfs(NfsIface, 1, Null, Null, data, None, [], [], false, false)
  }

  const Source: string := "/mnt/source"
  const Source2: string := "/mnt/source2"
  const DirectUrl: string := "nfs://mnt/source/."
  const IsoUrl: string := "nfsiso:/mnt/source"

  /** A dialog result that leaves the stage backwards: Back, an error, or "nothing to do" while going back. */
  predicate GoesBack(rc: int, dir: int) {
    rc == LoaderBack || rc == LoaderError || (dir == -1 && rc == LoaderNoop)
  }

  /** Whether loaderData holds `nfs` kickstart data. */
  predicate HasNfsKickstart(d: MethodData) {
    d.instMethod.Some? && StartsWith(d.instMethod.value, "nfs") && d.nfs.Some?
  }

  /** NFS_STAGE_NFS: the kickstart data, or the server prompt. */
  function NfsStage(u: Nfs, r: NfsReply): (n: Nfs)
    requires u.stage == NfsNfs
    ensures n.stage == NfsMount ==> n.host.Str? || n.host.Garbage?
    ensures n.stage == NfsMount ==> n.directory.Str? || n.directory.Garbage?
    ensures n.stage in {NfsNfs, NfsIp, NfsMount}
  {
    if HasNfsKickstart(u.data) then
      var d := u.data.nfs.value;
      if d.host == Null || d.directory == Null then
        u.(host := d.host, directory := d.directory, data := u.data.(instMethod := None))
      else u.(stage := NfsMount, dir := 1, host := d.host, directory := d.directory)
    else
      var host := if u.host.Str? then Some(u.host.s) else None;
      var directory := if u.directory.Str? then Some(u.directory.s) else None;
      var (rc, h, dd) := NfsGetSetup(host, directory, r.setupRc, r.newHost, r.newDir);
      if rc == LoaderBack then u.(stage := NfsIp, dir := -1)
      else u.(stage := NfsMount, dir := 1, host := Str(h.value), directory := Str(dd.value))
  }

  /**
   * After the NFS mount worked: the stage-2 image of the tree itself,
   * then an ISO image in the directory; otherwise the directory is
   * unmounted and a message says whether a tree was there but did not
   * match the boot media.  As written the kickstart method survives
   * that; corrected, it is cleared as it is when the mount fails.
   */
  function MountedTree(u: Nfs, fullPath: string, r: NfsReply, variant: Variant): (n: Nfs)
  {
    var log := u.log + [Mount(fullPath, Source)];
    var invalid1 := r.stage2Readable && r.directRc == -1;
    if r.stage2Readable && r.directRc == 0 then
      u.(stage := NfsDone, url := Some(DirectUrl), log := log)
    else if r.isoPath.Some? && r.loopRc == 0 && r.isoRc == 0 then
      u.(stage := NfsDone, url := Some(IsoUrl), log := log + [Mount(r.isoPath.value, Source2)])
    else
      var isoLog := if r.isoPath.Some? && r.loopRc == 0 then [Mount(r.isoPath.value, Source2), Umount(Source2)] else [];
      var invalid := invalid1 || (r.isoPath.Some? && r.loopRc == 0 && r.isoRc == -1);
      var data := if variant == Corrected then u.data.(instMethod := None) else u.data;
      u.(stage := NfsNfs, log := log + isoLog + [Umount(Source)], data := data,
         messages := u.messages + [if invalid then TreeMismatch else NoTree])
  }

  /** NFS_STAGE_MOUNT: mount `host:directory` on /mnt/source (only pretend to in test mode). */
  function MountStage(u: Nfs, r: NfsReply, testing: bool, variant: Variant): (n: Nfs)
    requires u.host != Null && u.directory != Null
  {
    if u.host.Garbage? || u.directory.Garbage? then u.(fault := true)
    else
      var fullPath := u.host.s + ":" + u.directory.s;
      if testing then u.(stage := NfsDone, dir := 1)
      else if r.mountOk then MountedTree(u, fullPath, r, variant)
      else u.(stage := NfsNfs, messages := u.messages + [MountFailed], data := u.data.(instMethod := None))
  }

  /** What the loop guarantees between passes: the mount stage has a server and directory. */
  predicate Valid(u: Nfs) {
    u.stage == NfsMount ==> u.host != Null && u.directory != Null
  }

  /** The loop has ended. */
  predicate Stopped(u: Nfs) { u.stage == NfsDone || u.returned || u.fault }

  /** One pass of `while (stage != NFS_STAGE_DONE)`. */
  function Step(u: Nfs, r: NfsReply, testing: bool, variant: Variant): (n: Nfs)
    requires Valid(u)
    ensures Valid(n)
  {
    match u.stage
    case NfsIface =>
      if GoesBack(r.ifaceRc, u.dir) then u.(returned := true)
      else u.(stage := NfsIp, dir := 1)
    case NfsIp =>
      if GoesBack(r.ipRc, u.dir) then u.(stage := NfsIface, dir := -1)
      else u.(stage := NfsNfs)
    case NfsNfs => NfsStage(u, r)
    case NfsMount => MountStage(u, r, testing, variant)
    case NfsDone => u
  }

  /** The loop over the answers, until it ends or the answers run out. */
  function Run(u: Nfs, rs: seq<NfsReply>, testing: bool, variant: Variant): (n: Nfs)
    requires Valid(u)
    ensures Valid(n)
    decreases |rs|
  {
    if Stopped(u) || rs == [] then u
    else Run(Step(u, rs[0], testing, variant), rs[1..], testing, variant)
  }

  /** NULL is returned from the interface stage only: Back, an error, or nothing to do while going back. */
  lemma IfaceReturns(u: Nfs, r: NfsReply, testing: bool, variant: Variant)
    requires Valid(u) && u.stage == NfsIface && !u.returned
    ensures Step(u, r, testing, variant).returned <==> GoesBack(r.ifaceRc, u.dir)
    ensures !GoesBack(r.ifaceRc, u.dir) ==> Step(u, r, testing, variant).stage == NfsIp && Step(u, r, testing, variant).dir == 1
  {
  }

  /** Back or an error while configuring the network goes back to the interface, travelling backwards. */
  lemma IpBack(u: Nfs, r: NfsReply, testing: bool, variant: Variant)
    requires Valid(u) && u.stage == NfsIp && !u.returned
    ensures var n := Step(u, r, testing, variant);
            (GoesBack(r.ipRc, u.dir) ==> n.stage == NfsIface && n.dir == -1)
            && (!GoesBack(r.ipRc, u.dir) ==> n.stage == NfsNfs && n.dir == u.dir)
            && !n.returned
  {
  }

  /**
   * Kickstart data without a server or a directory clears the method, so
   * the next pass prompts; without kickstart data, Back at the prompt
   * goes to the network configuration and OK to the mount.
   */
  lemma NfsStageChoices(u: Nfs, r: NfsReply)
    requires Valid(u) && u.stage == NfsNfs
    ensures var n := NfsStage(u, r);
            && (HasNfsKickstart(u.data) && (u.data.nfs.value.host == Null || u.data.nfs.value.directory == Null) ==>
                  n.stage == NfsNfs && n.data.instMethod.None? && !HasNfsKickstart(n.data))
            && (!HasNfsKickstart(u.data) && r.setupRc == 2 ==> n.stage == NfsIp && n.dir == -1 && n.host == u.host)
            && (!HasNfsKickstart(u.data) && r.setupRc != 2 ==>
                  n.stage == NfsMount && n.host == Str(r.newHost) && n.directory == Str(r.newDir))
  {
  }

  /**
   * The mount: the source is `host:directory`; test mode finishes without
   * mounting; a failed mount shows its message, clears the method and
   * goes back to the prompt.
   */
  lemma MountStageFacts(u: Nfs, r: NfsReply, testing: bool, variant: Variant)
    requires Valid(u) && u.host.Str? && u.directory.Str?
    ensures var n := MountStage(u, r, testing, variant);
            && (testing ==> n.stage == NfsDone && n.log == u.log && n.url == u.url)
            && (!testing && r.mountOk ==> n.log[|u.log|] == Mount(u.host.s + ":" + u.directory.s, Source))
            && (!testing && !r.mountOk ==>
                  n.stage == NfsNfs && n.data.instMethod.None? && n.messages == u.messages + [MountFailed])
  {
  }

  /**
   * A URL names the tree (when its own stage2.img mounted) or the ISO
   * image; the directory is left mounted for it (and the ISO image as
   * well); otherwise both are unmounted before the prompt comes back,
   * with the message telling a mismatched tree from a missing one.
   */
  lemma MountOutcome(u: Nfs, fullPath: string, r: NfsReply, variant: Variant)
    requires Source !in Mounted(u.log) && Source2 !in Mounted(u.log) && u.url.None?
    ensures var n := MountedTree(u, fullPath, r, variant);
            && (n.url == Some(DirectUrl) <==> r.stage2Readable && r.directRc == 0)
            && (n.url == Some(DirectUrl) ==> Mounted(n.log) == Mounted(u.log) + {Source})
            && (n.url == Some(IsoUrl) ==> Mounted(n.log) == Mounted(u.log) + {Source, Source2})
            && (n.stage == NfsNfs ==> Mounted(n.log) == Mounted(u.log)
                                        && n.messages[|u.messages|] == (if (r.stage2Readable && r.directRc == -1)
                                                                         || (r.isoPath.Some? && r.loopRc == 0 && r.isoRc == -1)
                                                                       then TreeMismatch else NoTree))
  {
    var log := u.log + [Mount(fullPath, Source)];
    MountedMount(u.log, fullPath, Source);
    if r.stage2Readable && r.directRc == 0 {
    } else if r.isoPath.Some? && r.loopRc == 0 && r.isoRc == 0 {
      MountedMount(log, r.isoPath.value, Source2);
    } else if r.isoPath.Some? && r.loopRc == 0 {
      TreeUnmounted(u.log, fullPath, [Mount(r.isoPath.value, Source2), Umount(Source2)]);
    } else {
      TreeUnmounted(u.log, fullPath, []);
    }
  }

  /** A tree that is given up: the ISO image, if it was mounted, and the directory come off again. */
  lemma TreeUnmounted(base: seq<MountEvent>, fullPath: string, isoLog: seq<MountEvent>)
    requires Source !in Mounted(base) && Source2 !in Mounted(base)
    requires isoLog == [] || (|isoLog| == 2 && isoLog[0].Mount? && isoLog[0].point == Source2 && isoLog[1] == Umount(Source2))
    ensures Mounted(base + [Mount(fullPath, Source)] + isoLog + [Umount(Source)]) == Mounted(base)
  {
    var log := base + [Mount(fullPath, Source)];
    MountedMount(base, fullPath, Source);
    if isoLog == [] {
      assert log + isoLog == log;
    } else {
      MountedMount(log, isoLog[0].source, Source2);
      assert log + [isoLog[0]] == log + [Mount(isoLog[0].source, Source2)];
      MountedUmount(log + [isoLog[0]], Source2);
      assert log + isoLog == log + [isoLog[0]] + [Umount(Source2)];
    }
    MountedUmount(log + isoLog, Source);
  }

  /* ---------------------------------------------------------------- */
  /* The kickstart loop                                                */

  /** A server whose directory mounts but holds neither a usable tree nor a usable ISO image. */
  predicate UselessTree(r: NfsReply) {
    r.mountOk && !(r.stage2Readable && r.directRc == 0) && !(r.isoPath.Some? && r.loopRc == 0 && r.isoRc == 0)
  }

  /**
   * As written, kickstart data naming a directory that mounts but holds
   * no usable tree keeps its method: the prompt stage reuses the same
   * data and the mount stage fails again, pass after pass, whatever the
   * user would answer, so the loop never ends and the user is never
   * asked for another directory.
   */
  lemma {:induction false} KickstartLoopsAsWritten(u: Nfs, rs: seq<NfsReply>)
    requires Valid(u) && u.stage == NfsNfs && !u.returned && !u.fault && u.url.None?
    requires HasNfsKickstart(u.data) && u.data.nfs.value.host.Str? && u.data.nfs.value.directory.Str?
    requires forall k :: 0 <= k < |rs| ==> UselessTree(rs[k])
    ensures var n := Run(u, rs, false, AsWritten);
            n.url.None? && !n.returned && !n.fault && n.stage in {NfsNfs, NfsMount} && n.data == u.data
    decreases |rs|
  {
    if rs != [] {
      var m := Step(u, rs[0], false, AsWritten);
      assert m.stage == NfsMount && m.data == u.data && !m.fault && m.url.None?;
      if |rs| > 1 {
        var m2 := Step(m, rs[1], false, AsWritten);
        assert UselessTree(rs[1]);
        assert m2.stage == NfsNfs && m2.data == u.data && !m2.returned && !m2.fault && m2.url.None?;
        assert rs[1..][1..] == rs[2..];
        assert Run(u, rs, false, AsWritten) == Run(m2, rs[2..], false, AsWritten);
        KickstartLoopsAsWritten(m2, rs[2..]);
      }
    }
  }

  /**
   * Corrected, the failed kickstart directory clears the method, so the
   * pass after it is the server prompt: Back there reaches the network
   * configuration.
   */
  lemma KickstartFallsBackCorrected(u: Nfs, r1: NfsReply, r2: NfsReply, r3: NfsReply)
    requires Valid(u) && u.stage == NfsNfs && !u.returned && !u.fault
    requires HasNfsKickstart(u.data) && u.data.nfs.value.host.Str? && u.data.nfs.value.directory.Str?
    requires UselessTree(r2) && r3.setupRc == 2
    ensures var n := Run(u, [r1, r2, r3], false, Corrected);
            n.stage == NfsIp && n.dir == -1 && n.data.instMethod.None?
  {
    var m := Step(u, r1, false, Corrected);
    var m2 := Step(m, r2, false, Corrected);
    assert m2.stage == NfsNfs && m2.data.instMethod.None? && !Stopped(m2);
    var m3 := Step(m2, r3, false, Corrected);
    assert !HasNfsKickstart(m2.data);
    assert m3.stage == NfsIp && m3.dir == -1 && m3.data.instMethod.None?;
    assert [r1, r2, r3][1..] == [r2, r3];
    assert [r2, r3][1..] == [r3];
    assert Run(u, [r1, r2, r3], false, Corrected) == Run(m, [r2, r3], false, Corrected);
    assert Run(m, [r2, r3], false, Corrected) == Run(m2, [r3], false, Corrected);
    assert Run(m2, [r3], false, Corrected) == Run(m3, [], false, Corrected);
  }

  /* ---------------------------------------------------------------- */
  /* Whole runs                                                        */

  /** Between passes nothing is mounted; at the end only what the URL names. */
  predicate MountsKept(u: Nfs) {
    && (u.stage != NfsDone ==> Mounted(u.log) == {})
    && (u.url == Some(DirectUrl) ==> Mounted(u.log) == {Source})
    && (u.url == Some(IsoUrl) ==> Mounted(u.log) == {Source, Source2})
    && (u.url.Some? ==> u.stage == NfsDone && u.url.value in {DirectUrl, IsoUrl})
  }

  lemma StepKeepsMounts(u: Nfs, r: NfsReply, testing: bool, variant: Variant)
    requires Valid(u) && MountsKept(u) && !Stopped(u)
    ensures MountsKept(Step(u, r, testing, variant))
  {
    if u.stage == NfsMount && u.host.Str? && u.directory.Str? && !testing && r.mountOk {
      MountOutcome(u, u.host.s + ":" + u.directory.s, r, variant);
    }
  }

  /**
   * Over a whole run: a URL is one of the two forms, the NFS directory
   * (and for an ISO install the image) stays mounted for it, and every
   * other ending leaves nothing mounted.
   */
  lemma {:induction false} RunKeepsMounts(u: Nfs, rs: seq<NfsReply>, testing: bool, variant: Variant)
    requires Valid(u) && MountsKept(u)
    ensures MountsKept(Run(u, rs, testing, variant))
    decreases |rs|
  {
    if !Stopped(u) && rs != [] {
      StepKeepsMounts(u, rs[0], testing, variant);
      RunKeepsMounts(Step(u, rs[0], testing, variant), rs[1..], testing, variant);
    }
  }

  /** With determinate kickstart data, no indeterminate pointer is ever used. */
  predicate NoGarbage(u: Nfs) {
    Determinate(u.data) && u.host != Garbage && u.directory != Garbage && !u.fault
  }

  lemma {:induction false} DeterminateNeverFaults(u: Nfs, rs: seq<NfsReply>, testing: bool, variant: Variant)
    requires Valid(u) && NoGarbage(u)
    ensures NoGarbage(Run(u, rs, testing, variant))
    decreases |rs|
  {
    if !Stopped(u) && rs != [] {
      var n := Step(u, rs[0], testing, variant);
      assert NoGarbage(n);
      DeterminateNeverFaults(n, rs[1..], testing, variant);
    }
  }

  /**
   * As written, a kickstart `nfs` command without `--server` reaches the
   * mount with an indeterminate server name: the missing-server test
   * only catches NULL.
   */
  lemma MissingServerAsWritten(dir: string, r1: NfsReply)
    ensures var data := SetKickstartNfs(MethodData(None, None), NfsOptions(true, None, Some(dir)), AsWritten);
            var u := Start(data).(stage := NfsNfs);
            var n := Run(u, [r1, r1], false, AsWritten);
            n.fault
  {
    var data := SetKickstartNfs(MethodData(None, None), NfsOptions(true, None, Some(dir)), AsWritten);
    assert StartsWith("nfs", "nfs");
    var u := Start(data).(stage := NfsNfs);
    var m := Step(u, r1, false, AsWritten);
    assert m.stage == NfsMount && m.host == Garbage;
    assert [r1, r1][1..] == [r1];
    assert Run(u, [r1, r1], false, AsWritten) == Run(m, [r1], false, AsWritten);
    var f := Step(m, r1, false, AsWritten);
    assert f.fault;
    assert [r1][1..] == [];
    assert Run(m, [r1], false, AsWritten) == Run(f, [], false, AsWritten) == f;
  }

  /** Corrected, the same command clears the method and the next pass prompts for the server. */
  lemma MissingServerCorrected(dir: string, r1: NfsReply)
    ensures var data := SetKickstartNfs(MethodData(None, None), NfsOptions(true, None, Some(dir)), Corrected);
            var u := Start(data).(stage := NfsNfs);
            var n := Step(u, r1, false, Corrected);
            n.stage == NfsNfs && n.data.instMethod.None? && !n.fault
  {
    var data := SetKickstartNfs(MethodData(None, None), NfsOptions(true, None, Some(dir)), Corrected);
    assert StartsWith("nfs", "nfs");
    assert HasNfsKickstart(data) && data.nfs.value.host == Null;
  }

  /* ---------------------------------------------------------------- */
  /* The loop as the source runs it                                    */

  /**
   * mountNfsImage: the stage loop, as written or with the fixes above, one
   * pass per answer; the URL, the method fields, the mounts and the
   * messages it ends with.  Data without indeterminate pointers (always
   * the case once setKickstartNfs is corrected) never reaches the faulting
   * mount.
   */
  method MountNfsImage(data: MethodData, replies: seq<NfsReply>, testing: bool, variant: Variant)
    returns (url: Option<string>, data': MethodData, log: seq<MountEvent>, messages: seq<Message>, fault: bool)
    ensures var f := Run(Start(data), replies, testing, variant);
            url == f.url && data' == f.data && log == f.log && messages == f.messages && fault == f.fault
    ensures Determinate(data) ==> !fault
    ensures url.Some? ==> url.value in {DirectUrl, IsoUrl} && Source in Mounted(log)
  {
    var u := Start(data);
    RunKeepsMounts(u, replies, testing, variant);
    if Determinate(data) {
      DeterminateNeverFaults(u, replies, testing, variant);
    }
    var i := 0;
    while i < |replies| && !Stopped(u)
      invariant 0 <= i <= |replies|
      invariant Valid(u)
      invariant Run(u, replies[i..], testing, variant) == Run(Start(data), replies, testing, variant)
      decreases |replies| - i
    {
      assert replies[i..][1..] == replies[i + 1..];
      u := Pass(u, replies[i], testing, variant);
      i := i + 1;
    }
    url, data', log, messages, fault := u.url, u.data, u.log, u.messages, u.fault;
  }

  /** One pass of the loop: the `switch (stage)`. */
  method Pass(u: Nfs, r: NfsReply, testing: bool, variant: Variant) returns (n: Nfs)
    requires Valid(u) && !Stopped(u)
    ensures n == Step(u, r, testing, variant)
  {
    n := u;
    match u.stage {
      case NfsIface =>
        if GoesBack(r.ifaceRc, u.dir) {
          n := u.(returned := true);
        } else {
          n := u.(stage := NfsIp, dir := 1);
        }
      case NfsIp =>
        if GoesBack(r.ipRc, u.dir) {
          n := u.(stage := NfsIface, dir := -1);
        } else {
          n := u.(stage := NfsNfs);
        }
      case NfsNfs =>
        n := NfsStage(u, r);
      case NfsMount =>
        n := MountStage(u, r, testing, variant);
      case NfsDone =>
    }
  }

  /* ---------------------------------------------------------------- */
  /* kickstartFromNfs                                                  */

  /**
   * kickstartFromNfs's split of the server path: the file is the text
   * after the last `/` and the directory before it joins the host; a path
   * without `/` is the file itself and the host is mounted as it is.
   */
  function KickstartNfsLocation(host: string, path: string): (r: (string, string))
    ensures RFindChar(path, '/').None? ==> r == (host, path)
  {
    match RFindChar(path, '/')
    case None => (host, path)
    case Some(i) => (host + "/" + path[..i], path[i + 1..])
  }

  /** A path `<dir>/<file>` with no `/` in the file name splits back into the two. */
  lemma KickstartNfsLocationSplit(host: string, dir: string, file: string)
    requires '/' !in file
    ensures KickstartNfsLocation(host, dir + "/" + file) == (host + "/" + dir, file)
  {
    var p := dir + "/" + file;
    assert p[|dir| + 1..] == file;
    RFindCharAt(p, '/', |dir|);
    assert p[..|dir|] == dir;
  }

  /**
   * kickstartFromNfs: 1 when the network does not come up, when no URL
   * was given and DHCP named no boot server, when the mount fails or the
   * file cannot be copied; 0 otherwise.  Without a URL the boot server
   * and its boot file (or /kickstart/) make one.
   */
  function KickstartFromNfs(netOk: bool, url: Option<string>, nextServer: Option<string>, bootFile: Option<string>,
                            mountOk: string -> bool, copyOk: string -> bool,
                            hostAndPath: string -> (string, string)): (rc: int)
    ensures rc == 0 <==> netOk && (url.Some? || nextServer.Some?)
                         && var u := if url.Some? then url.value else nextServer.value + ":" + bootFile.GetOr("/kickstart/");
                            var (host, file) := KickstartNfsLocation(hostAndPath(u).0, hostAndPath(u).1);
                            mountOk(host) && copyOk("/tmp/ks/" + file)
  {
    if !netOk then 1
    else if url.None? && nextServer.None? then 1
    else
      var u := if url.Some? then url.value else nextServer.value + ":" + bootFile.GetOr("/kickstart/");
      var (host, file) := KickstartNfsLocation(hostAndPath(u).0, hostAndPath(u).1);
      if mountOk(host) && copyOk("/tmp/ks/" + file) then 0 else 1
  }
}
