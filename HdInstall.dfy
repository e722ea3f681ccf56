/**
 * Hard-drive installs of the second-generation loader (loader2/hdinstall.c):
 * finding and loading the stage-2 image from an ISO tree, mounting the
 * partition that holds the ISO images, the interactive partition and
 * directory loop, and the kickstart `harddrive` and `ks=hd:`/`ks=bd:`
 * sources.
 *
 * The file system, the mounts, the dialogs and the BIOS disk table are
 * outside answers.  Mounts and unmounts are recorded in a log so that
 * what is left mounted can be stated.
 */
module HdInstall {
  import opened Wrappers
  import opened Strings
  import opened Mounts

  /* ---------------------------------------------------------------- */
  /* loadHDImages                                                      */

  /** The stage-2 image names, in the order they are looked for. */
  const Stage2List: seq<string> := ["stage2.img", "hdstg2.img"]

  /** Below this much memory (in KB) the search starts at the second, smaller image. */
  const LowMemoryKb: int := 128000

  /**
   * What loadHDImages consults: the memory size, which paths exist
   * (access F_OK) and which can be opened, the product path, the result
   * of copying the image to RAM and loop-mounting it, and whether the
   * mounted tree's stamp matches the boot media.
   */
  datatype LoadEnv = LoadEnv(memoryKb: int, present: set<string>, readable: set<string>,
                             productPath: string, copyRc: int, stampOk: bool)

  /** A file that can be opened exists. */
  predicate Consistent(env: LoadEnv) { env.readable <= env.present }

  /** `<prefix>/<dir>/<product path>/base/<name>`, with an empty directory when none is given. */
  function BasePath(prefix: string, dir: Option<string>, productPath: string, name: string): string {
    prefix + "/" + dir.GetOr("") + "/" + productPath + "/base/" + name
  }

  /** Where the candidate search starts. */
  function Stage2Start(memoryKb: int): (r: nat)
    ensures r < |Stage2List|
    ensures r == 1 <==> memoryKb < LowMemoryKb
  {
    if memoryKb < LowMemoryKb then 1 else 0
  }

  /** The index of the first candidate from `from` on whose path exists, or |names| when none does. */
  function FirstExisting(paths: seq<string>, from: nat, present: set<string>): (r: nat)
    requires from <= |paths|
    ensures from <= r <= |paths|
    ensures forall k :: from <= k < r ==> paths[k] !in present
    ensures r < |paths| ==> paths[r] in present
    decreases |paths| - from
  {
    if from == |paths| then from
    else if paths[from] in present then from
    else FirstExisting(paths, from + 1, present)
  }

  function Stage2Paths(prefix: string, dir: Option<string>, productPath: string): (r: seq<string>)
    ensures |r| == |Stage2List|
  {
    [BasePath(prefix, dir, productPath, Stage2List[0]), BasePath(prefix, dir, productPath, Stage2List[1])]
  }

  /**
   * The candidate loop: the index it stops at and the candidate `target`
   * points to afterwards, which stays at the last one tried when none
   * exists.
   */
  method SearchStage2(prefix: string, dir: Option<string>, env: LoadEnv) returns (idx: nat, target: string)
    ensures var paths := Stage2Paths(prefix, dir, env.productPath);
            idx == FirstExisting(paths, Stage2Start(env.memoryKb), env.present)
    ensures target == Stage2List[if idx < |Stage2List| then idx else |Stage2List| - 1]
  {
    ghost var paths := Stage2Paths(prefix, dir, env.productPath);
    idx := if env.memoryKb < LowMemoryKb then 1 else 0;
    target := Stage2List[idx];
    while idx < |Stage2List|
      invariant Stage2Start(env.memoryKb) <= idx <= |Stage2List|
      invariant FirstExisting(paths, idx, env.present) == FirstExisting(paths, Stage2Start(env.memoryKb), env.present)
      invariant target == Stage2List[if idx == Stage2Start(env.memoryKb) then idx else idx - 1]
    {
      target := Stage2List[idx];
      var path := BasePath(prefix, dir, env.productPath, target);
      assert path == paths[idx];
      if path in env.present {
        break;
      }
      idx := idx + 1;
    }
  }

  /**
   * The outcome of loadHDImages: its return code, the stage-2 file it
   * opened, the updates and product images it copied and the loopback
   * mounts and unmounts at `mntpoint`.
   */
  datatype LoadOutcome = LoadOutcome(rc: int, stage2: Option<string>, images: seq<string>, log: seq<MountEvent>)

  /**
   * loadHDImages.  The test `!(*target)` is on the first character of a
   * candidate name and never holds, so a search that finds nothing goes
   * on to open the last candidate.
   */
  function LoadHDImages(prefix: string, dir: Option<string>, mntpoint: string, env: LoadEnv): (r: LoadOutcome)
    ensures r.stage2.None? ==> r.rc == 1 && r.log == []
    ensures !env.stampOk ==> r.rc == 1 && mntpoint !in Mounted(r.log)
    ensures r.rc == 0 ==> mntpoint in Mounted(r.log)
  {
    var paths := Stage2Paths(prefix, dir, env.productPath);
    var idx := FirstExisting(paths, Stage2Start(env.memoryKb), env.present);
    var path := paths[if idx < |paths| then idx else |paths| - 1];
    if path !in env.readable then LoadOutcome(1, None, [], [])
    else
      var images := [BasePath(prefix, dir, env.productPath, "updates.img"),
                     BasePath(prefix, dir, env.productPath, "product.img")];
      var target := Stage2List[if idx < |paths| then idx else |paths| - 1];
      var mounted := if env.copyRc == 0 then [Mount("/tmp/ramfs/" + target, mntpoint)] else [];
      if !env.stampOk then
        LoadOutcome(1, Some(path), images, mounted + [Umount(mntpoint)])
      else LoadOutcome(env.copyRc, Some(path), images, mounted)
  }

  /**
   * The stage-2 image used is the first candidate that exists, starting
   * at hdstg2.img when memory is below 128000 KB; when no candidate
   * exists (and only existing files can be opened) nothing is loaded and
   * 1 is returned, so the dead test costs nothing.
   */
  lemma Stage2Choice(prefix: string, dir: Option<string>, mntpoint: string, env: LoadEnv)
    requires Consistent(env)
    ensures var r := LoadHDImages(prefix, dir, mntpoint, env);
            var paths := Stage2Paths(prefix, dir, env.productPath);
            var start := Stage2Start(env.memoryKb);
            && (r.stage2.Some? ==> exists k :: start <= k < |paths| && r.stage2.value == paths[k]
                                    && forall j :: start <= j < k ==> paths[j] !in env.present)
            && ((forall k :: start <= k < |paths| ==> paths[k] !in env.present) ==> r.stage2.None? && r.rc == 1)
  {
  }

  /* ---------------------------------------------------------------- */
  /* setupIsoImages                                                    */

  /** The file systems the partition is tried as, in order. */
  const TypeTry: seq<string> := ["ext2", "vfat"]

  /**
   * What setupIsoImages consults besides loadHDImages: test mode, the
   * file systems the partition mounts as, the ISO image found in the
   * directory (validIsoImages), the result of loop-mounting it, and the
   * environment of the stage-2 load.
   */
  datatype SetupEnv = SetupEnv(testing: bool, mountable: set<string>, isoPath: Option<string>,
                               loopRc: int, load: LoadEnv)

  /** The `typetry` loop: the index of the first type that mounts, or |TypeTry| (the NULL entry). */
  function FirstType(mountable: set<string>): (r: nat)
    ensures r <= |TypeTry|
    ensures r < |TypeTry| ==> TypeTry[r] in mountable
    ensures forall k :: 0 <= k < r ==> TypeTry[k] !in mountable
  {
    if TypeTry[0] in mountable then 0 else if TypeTry[1] in mountable then 1 else 2
  }

  method TryTypes(mountable: set<string>) returns (t: nat)
    ensures t == FirstType(mountable)
  {
    t := 0;
    while t < |TypeTry|
      invariant t <= |TypeTry|
      invariant forall k :: 0 <= k < t ==> TypeTry[k] !in mountable
    {
      if TypeTry[t] in mountable {
        return;
      }
      t := t + 1;
    }
  }

  /** The source as written, or with its defects (the mount failure test, the bd: buffer size) fixed. */
  datatype Variant = AsWritten | Corrected

  datatype SetupOutcome = SetupOutcome(url: Option<string>, log: seq<MountEvent>)

  /** The name `%s` prints for the type: the NULL entry prints as "(null)". */
  function TypeName(t: nat): string {
    if t < |TypeTry| then TypeTry[t] else "(null)"
  }

  function HdUrl(device: string, fsType: string, dirName: string): string {
    "hd://" + device + ":" + fsType + "/" + dirName
  }

  /** The partition's device node is mounted on /tmp/hdimage, the ISO image on /tmp/loopimage. */
  const HdDev: string := "/tmp/hddev"
  const HdImage: string := "/tmp/hdimage"
  const LoopImage: string := "/tmp/loopimage"
  const Runtime: string := "/mnt/runtime"

  /** The stage-2 load from the loop-mounted ISO image. */
  function IsoLoad(env: SetupEnv): LoadOutcome {
    LoadHDImages(LoopImage, Some("/"), Runtime, env.load)
  }

  /** The result code once the partition is mounted: 1 without ISO images, else the loop mount's or the load's. */
  function IsoRc(env: SetupEnv): (rc: int)
    ensures rc == 0 <==> env.isoPath.Some? && env.loopRc == 0 && IsoLoad(env).rc == 0
  {
    if env.isoPath.None? then 1 else if env.loopRc != 0 then env.loopRc else IsoLoad(env).rc
  }

  /** The ISO image's loop mount and the stage-2 load inside it. */
  function LoopLog(env: SetupEnv): seq<MountEvent> {
    if env.isoPath.Some? && env.loopRc == 0 then [Mount(env.isoPath.value, LoopImage)] + IsoLoad(env).log else []
  }

  /** umountLoopback runs whenever an ISO image was found, whether or not it mounted. */
  function LoopUmount(env: SetupEnv): seq<MountEvent> {
    if env.isoPath.Some? then [Umount(LoopImage)] else []
  }

  /**
   * setupIsoImages.  As written the test `!type` is on the loop pointer,
   * which never becomes NULL: a partition that mounts as neither type is
   * still searched for ISO images.  Corrected, it gives up there.
   */
  function SetupIsoImages(device: string, dirName: string, env: SetupEnv, variant: Variant): (r: SetupOutcome)
    ensures r.url.Some? && !env.testing ==> IsoRc(env) == 0
    ensures r.url.None? ==> !env.testing
  {
    if env.testing then SetupOutcome(Some(HdUrl(device, TypeTry[0], dirName)), [])
    else
      var t := FirstType(env.mountable);
      if t == |TypeTry| && variant == Corrected then SetupOutcome(None, [])
      else
        var mounted := if t < |TypeTry| then [Mount(HdDev, HdImage)] else [];
        var log := mounted + LoopLog(env) + LoopUmount(env) + [Umount(HdImage)];
        if IsoRc(env) != 0 then SetupOutcome(None, log)
        else SetupOutcome(Some(HdUrl(device, TypeName(t), dirName)), log)
  }

  /**
   * Whatever happens, the partition and the ISO image are unmounted
   * before setupIsoImages returns; when it returns a URL, stage 2 stays
   * loop-mounted on /mnt/runtime.
   */
  lemma SetupLeavesNothingMounted(device: string, dirName: string, env: SetupEnv, variant: Variant)
    requires !env.testing
    ensures var r := SetupIsoImages(device, dirName, env, variant);
            HdImage !in Mounted(r.log) && LoopImage !in Mounted(r.log)
            && (r.url.Some? ==> Runtime in Mounted(r.log))
  {
    var t := FirstType(env.mountable);
    if !(t == |TypeTry| && variant == Corrected) {
      var mounted := if t < |TypeTry| then [Mount(HdDev, HdImage)] else [];
      MountedPartition(mounted);
      IsoImageLog(mounted, env);
    } else {
      MountedEmpty();
    }
  }

  /** What the partition mount leaves: at most the partition itself. */
  lemma MountedPartition(mounted: seq<MountEvent>)
    requires mounted == [] || mounted == [Mount(HdDev, HdImage)]
    ensures Mounted(mounted) <= {HdImage}
  {
    MountedEmpty();
    if mounted != [] {
      assert mounted == [] + [Mount(HdDev, HdImage)];
      MountedMount([], HdDev, HdImage);
    }
  }

  /** The ISO image's part of the log, behind the partition mount and ahead of its unmount. */
  lemma IsoImageLog(mounted: seq<MountEvent>, env: SetupEnv)
    requires Mounted(mounted) <= {HdImage}
    ensures var log := mounted + LoopLog(env) + LoopUmount(env) + [Umount(HdImage)];
            HdImage !in Mounted(log) && LoopImage !in Mounted(log)
            && (IsoRc(env) == 0 ==> Runtime in Mounted(log))
  {
    var pre := mounted + LoopLog(env);
    MountedUmount(pre + LoopUmount(env), HdImage);
    if env.isoPath.Some? {
      assert pre + LoopUmount(env) == pre + [Umount(LoopImage)];
      MountedUmount(pre, LoopImage);
      if IsoRc(env) == 0 {
        MountedAppend(mounted + [Mount(env.isoPath.value, LoopImage)], IsoLoad(env).log);
        assert pre == mounted + [Mount(env.isoPath.value, LoopImage)] + IsoLoad(env).log;
      }
    } else {
      assert pre + LoopUmount(env) == mounted;
    }
  }

  /**
   * A URL names the device, the directory and the first file system the
   * partition mounted as; as written, when it mounted as none of them, the
   * type "(null)" instead.
   */
  lemma SetupUrl(device: string, dirName: string, env: SetupEnv, variant: Variant)
    requires !env.testing
    ensures var r := SetupIsoImages(device, dirName, env, variant);
            r.url.Some? ==>
              || (exists t :: t in TypeTry && t in env.mountable && r.url.value == HdUrl(device, t, dirName))
              || (variant == AsWritten && (forall t :: t in TypeTry ==> t !in env.mountable)
                  && r.url.value == HdUrl(device, "(null)", dirName))
  {
    var t := FirstType(env.mountable);
    if t < |TypeTry| {
      assert TypeTry[t] in TypeTry;
    }
  }

  /**
   * As written, a partition that mounts as neither ext2 nor vfat is still
   * searched (on the bare mount point) and, if images turn up there, a URL
   * naming the type "(null)" is returned; corrected, nothing is searched.
   */
  lemma UnmountedPartitionSearchedAsWritten(device: string, dirName: string, env: SetupEnv)
    requires !env.testing && "ext2" !in env.mountable && "vfat" !in env.mountable
    requires IsoRc(env) == 0
    ensures SetupIsoImages(device, dirName, env, AsWritten).url == Some(HdUrl(device, "(null)", dirName))
    ensures SetupIsoImages(device, dirName, env, Corrected).url.None?
  {
  }

  /* ---------------------------------------------------------------- */
  /* mountHardDrive                                                    */

  /** The kickstart `harddrive` data: partition and directory, each possibly missing. */
  datatype HdData = HdData(partition: Option<string>, directory: Option<string>)

  /** The method fields of loaderData. */
  datatype MethodData = MethodData(instMethod: Option<string>, hd: Option<HdData>)

  /** How the partition form was left: the Back button, the F2 hot key, or anything else (OK, F12, Enter). */
  datatype FormExit = FormBack | FormF2 | FormAccept

  /**
   * The answers for one pass of the partition loop: the partitions found,
   * the button of the "no hard drives" question, the result of loading a
   * driver, how the form was left, the partition selected, the directory
   * typed and what setupIsoImages will find.
   */
  datatype HdReply = HdReply(parts: seq<string>, noDiskRc: int, driverRc: int, exit: FormExit,
                             selection: nat, dirText: string, setup: SetupEnv)

  /** The selection is one of the partitions listed, each named /dev/<name>. */
  predicate HdWellFormed(r: HdReply) {
    && (|r.parts| > 0 ==> r.selection < |r.parts|)
    && forall k :: 0 <= k < |r.parts| ==> |r.parts[k]| >= 5
  }

  predicate AllHdWellFormed(rs: seq<HdReply>) {
    forall k :: 0 <= k < |rs| ==> HdWellFormed(rs[k])
  }

  /** LOADER_BACK. */
  const LoaderBack: int := 1

  /** The result of one pass: return with a URL or NULL, or go round again. */
  datatype PassResult = Return(url: Option<string>, log: seq<MountEvent>) | Again(log: seq<MountEvent>)

  /** One pass of `while (!done)`. */
  function HdPass(r: HdReply, variant: Variant): (p: PassResult)
    requires HdWellFormed(r)
  {
    if |r.parts| == 0 then
      if r.noDiskRc == 2 || r.driverRc == LoaderBack then Return(None, []) else Again([])
    else if r.exit == FormBack then Return(None, [])
    else if r.exit == FormF2 then
      if r.driverRc == LoaderBack then Return(None, []) else Again([])
    else
      var s := SetupIsoImages(r.parts[r.selection][5..], r.dirText, r.setup, variant);
      if s.url.None? then Again(s.log)
      else Return(s.url, s.log + [Umount(HdImage)])
  }

  datatype HdOutcome = HdOutcome(url: Option<string>, finished: bool, log: seq<MountEvent>)

  /** The partition loop over the answers; `finished` is false when the answers ran out first. */
  function HdLoop(rs: seq<HdReply>, variant: Variant): (o: HdOutcome)
    requires AllHdWellFormed(rs)
    decreases |rs|
  {
    if rs == [] then HdOutcome(None, false, [])
    else
      assert HdWellFormed(rs[0]);
      match HdPass(rs[0], variant)
      case Return(u, log) => HdOutcome(u, true, log)
      case Again(log) =>
        assert AllHdWellFormed(rs[1..]) by {
          forall k | 0 <= k < |rs[1..]| ensures HdWellFormed(rs[1..][k]) { assert rs[1..][k] == rs[k + 1]; }
        }
        var o := HdLoop(rs[1..], variant);
        o.(log := log + o.log)
  }

  /** A kickstart partition loses a leading /dev/. */
  function StripDev(p: string): (r: string)
    ensures StartsWith(p, "/dev/") ==> p == "/dev/" + r
    ensures !StartsWith(p, "/dev/") ==> r == p
  {
    if StartsWith(p, "/dev/") then p[5..] else p
  }

  /** Whether loaderData holds `harddrive` kickstart data. */
  predicate HasHdKickstart(m: MethodData) {
    m.instMethod.Some? && StartsWith(m.instMethod.value, "hd") && m.hd.Some?
  }

  /** The kickstart attempt: the URL when it works, and the method fields afterwards. */
  function KickstartHd(m: MethodData, env: SetupEnv, variant: Variant): (r: (Option<string>, MethodData, seq<MountEvent>))
    requires HasHdKickstart(m)
    ensures r.0.None? ==> r.1 == m.(instMethod := None)
    ensures r.0.Some? ==> r.1 == m
  {
    var d := m.hd.value;
    if d.partition.None? || d.directory.None? then (None, m.(instMethod := None), [])
    else
      var s := SetupIsoImages(StripDev(d.partition.value), d.directory.value, env, variant);
      if s.url.None? then (None, m.(instMethod := None), s.log) else (s.url, m, s.log)
  }

  /** mountHardDrive: the kickstart data first, then the interactive loop. */
  function MountHardDrive(m: MethodData, ksEnv: SetupEnv, rs: seq<HdReply>, variant: Variant): (r: (HdOutcome, MethodData))
    requires AllHdWellFormed(rs)
  {
    if HasHdKickstart(m) then
      var (u, m', log) := KickstartHd(m, ksEnv, variant);
      if u.Some? then (HdOutcome(u, true, log), m')
      else
        var o := HdLoop(rs, variant);
        (o.(log := log + o.log), m')
    else (HdLoop(rs, variant), m)
  }

  /**
   * Kickstart data missing the partition or the directory, or whose
   * images cannot be set up, clears the method and falls back to the
   * interactive loop; good data returns its URL without a dialog.
   */
  lemma KickstartFallback(m: MethodData, ksEnv: SetupEnv, rs: seq<HdReply>, variant: Variant)
    requires AllHdWellFormed(rs) && HasHdKickstart(m)
    ensures var (o, m') := MountHardDrive(m, ksEnv, rs, variant);
            var d := m.hd.value;
            && (d.partition.None? || d.directory.None? ==> m'.instMethod.None? && o.url == HdLoop(rs, variant).url)
            && (d.partition.Some? && d.directory.Some? && !ksEnv.testing ==>
                  var s := SetupIsoImages(StripDev(d.partition.value), d.directory.value, ksEnv, variant);
                  (s.url.Some? ==> o.url == s.url && m' == m)
                  && (s.url.None? ==> m'.instMethod.None? && o.url == HdLoop(rs, variant).url))
  {
  }

  /**
   * With no partitions, Back at the question returns NULL and a driver
   * disk that loads makes the loop list the partitions again.
   */
  lemma NoPartitions(r: HdReply, variant: Variant)
    requires HdWellFormed(r) && |r.parts| == 0
    ensures r.noDiskRc == 2 ==> HdPass(r, variant) == Return(None, [])
    ensures r.noDiskRc != 2 && r.driverRc != LoaderBack ==> HdPass(r, variant) == Again([])
  {
  }

  /** The partition names a URL may start with: hd://<name>: for a listed /dev/<name>. */
  predicate UrlForListed(url: string, parts: seq<string>) {
    exists p :: p in parts && |p| >= 5 && StartsWith(url, "hd://" + p[5..] + ":")
  }

  /** The partition and the ISO image are not left mounted. */
  predicate Clean(log: seq<MountEvent>) {
    HdImage !in Mounted(log) && LoopImage !in Mounted(log)
  }

  lemma CleanAppend(a: seq<MountEvent>, b: seq<MountEvent>)
    requires Clean(a) && Clean(b)
    ensures Clean(a + b)
  {
    MountedAppend(a, b);
  }

  /** One pass: a URL is for the partition selected, and nothing is left mounted but stage 2. */
  lemma PassFacts(r: HdReply, variant: Variant)
    requires HdWellFormed(r)
    ensures Clean(HdPass(r, variant).log)
    ensures HdPass(r, variant).Return? && HdPass(r, variant).url.Some? ==> UrlForListed(HdPass(r, variant).url.value, r.parts)
  {
    if |r.parts| > 0 && r.exit == FormAccept {
      var p := r.parts[r.selection];
      AcceptedSetup(p[5..], r.dirText, r.setup, variant);
      assert p in r.parts;
    } else {
      assert Mounted([]) == {};
    }
  }

  /**
   * The images set up for an accepted form: a URL names the device (and,
   * as written, possibly the type "(null)"), and nothing is left mounted.
   */
  lemma AcceptedSetup(device: string, dirName: string, env: SetupEnv, variant: Variant)
    ensures var s := SetupIsoImages(device, dirName, env, variant);
            && Clean(s.log) && Clean(s.log + [Umount(HdImage)])
            && (s.url.Some? ==> StartsWith(s.url.value, "hd://" + device + ":"))
  {
    var s := SetupIsoImages(device, dirName, env, variant);
    if env.testing {
      assert Mounted([]) == {};
      MountedUmount([], HdImage);
      assert s.log + [Umount(HdImage)] == [] + [Umount(HdImage)];
      PrefixStartsWith("hd://" + device + ":", TypeTry[0] + "/" + dirName);
      assert s.url.value == ("hd://" + device + ":") + (TypeTry[0] + "/" + dirName);
    } else {
      SetupLeavesNothingMounted(device, dirName, env, variant);
      MountedUmount(s.log, HdImage);
      if s.url.Some? {
        var t := TypeName(FirstType(env.mountable));
        assert s.url.value == HdUrl(device, t, dirName);
        PrefixStartsWith("hd://" + device + ":", t + "/" + dirName);
        assert s.url.value == ("hd://" + device + ":") + (t + "/" + dirName);
      }
    }
  }

  lemma AllHdWellFormedTail(rs: seq<HdReply>)
    requires AllHdWellFormed(rs) && rs != []
    ensures HdWellFormed(rs[0]) && AllHdWellFormed(rs[1..])
  {
    assert HdWellFormed(rs[0]);
    forall k | 0 <= k < |rs[1..]| ensures HdWellFormed(rs[1..][k]) { assert rs[1..][k] == rs[k + 1]; }
  }

  /**
   * A URL from the loop is an hd:// URL for one of the partitions listed
   * in some pass (without its /dev/), and neither the partition nor the
   * ISO image is left mounted.
   */
  lemma {:induction false} LoopUrl(rs: seq<HdReply>, variant: Variant)
    requires AllHdWellFormed(rs)
    ensures var o := HdLoop(rs, variant);
            o.url.Some? ==> exists k :: 0 <= k < |rs| && UrlForListed(o.url.value, rs[k].parts)
    ensures Clean(HdLoop(rs, variant).log)
    decreases |rs|
  {
    if rs == [] {
      assert Mounted([]) == {};
    } else {
      AllHdWellFormedTail(rs);
      PassFacts(rs[0], variant);
      match HdPass(rs[0], variant)
      case Return(u, log) =>
      case Again(log) =>
        LoopUrl(rs[1..], variant);
        var o1 := HdLoop(rs[1..], variant);
        CleanAppend(log, o1.log);
        if o1.url.Some? {
          var k :| 0 <= k < |rs[1..]| && UrlForListed(o1.url.value, rs[1..][k].parts);
          assert rs[1..][k] == rs[k + 1];
        }
    }
  }

  /** The outcome of the remaining loop behind the log written so far. */
  function After(log: seq<MountEvent>, o: HdOutcome): HdOutcome {
    o.(log := log + o.log)
  }

  /** One pass of the loop unfolded. */
  lemma HdLoopStep(rs: seq<HdReply>, variant: Variant)
    requires AllHdWellFormed(rs) && rs != []
    ensures HdWellFormed(rs[0]) && AllHdWellFormed(rs[1..])
    ensures HdPass(rs[0], variant).Return? ==> HdLoop(rs, variant) == HdOutcome(HdPass(rs[0], variant).url, true, HdPass(rs[0], variant).log)
    ensures HdPass(rs[0], variant).Again? ==> HdLoop(rs, variant) == After(HdPass(rs[0], variant).log, HdLoop(rs[1..], variant))
  {
    AllHdWellFormedTail(rs);
  }

  /** The loop as the source runs it: one pass per answer until a pass returns. */
  method MountHardDriveLoop(rs: seq<HdReply>, variant: Variant) returns (url: Option<string>, finished: bool, log: seq<MountEvent>)
    requires AllHdWellFormed(rs)
    ensures HdOutcome(url, finished, log) == HdLoop(rs, variant)
  {
    var i := 0;
    url, finished, log := None, false, [];
    while i < |rs|
      invariant 0 <= i <= |rs|
      invariant AllHdWellFormed(rs[i..])
      invariant HdLoop(rs, variant) == After(log, HdLoop(rs[i..], variant))
    {
      HdLoopStep(rs[i..], variant);
      assert rs[i..][0] == rs[i];
      assert rs[i..][1..] == rs[i + 1..];
      var p := HdPass(rs[i], variant);
      if p.Return? {
        url, finished, log := p.url, true, log + p.log;
        return;
      }
      ghost var rest := HdLoop(rs[i + 1..], variant);
      assert log + (p.log + rest.log) == (log + p.log) + rest.log;
      log := log + p.log;
      i := i + 1;
    }
    assert rs[i..] == [];
  }

  /* ---------------------------------------------------------------- */
  /* setKickstartHD                                                    */

  /** The `harddrive` command's options after parsing (popt errors leave everything unchanged). */
  datatype HdOptions = HdOptions(parseOk: bool, biospart: Option<string>, partition: Option<string>, dir: Option<string>)

  /**
   * setKickstartHD: `--biospart=<bios disk>p<partition>` names the
   * partition through the BIOS disk table (and wins over `--partition`);
   * a `--biospart` without `p`, or naming an unknown disk, leaves the
   * method unset.
   */
  function SetKickstartHd(m: MethodData, o: HdOptions, biosDisk: string -> Option<string>): (r: MethodData)
  {
    if !o.parseOk then m
    else
      var part: Option<Option<string>> :=
        if o.biospart.None? then Some(o.partition)
        else match FindChar(o.biospart.value, 'p')
          case None => None
          case Some(i) =>
            match biosDisk(o.biospart.value[..i])
            case None => None
            case Some(dev) => Some(Some(dev + o.biospart.value[i + 1..]));
      if part.None? then m
      else MethodData(Some("hd"), Some(HdData(part.value, o.dir)))
  }

  /** `--biospart=80p3` on BIOS disk 80 = sda names sda3; the directory is kept. */
  lemma BiosPartition(m: MethodData, disk: string, suffix: string, dev: string, dir: Option<string>,
                      partition: Option<string>, biosDisk: string -> Option<string>)
    requires 'p' !in disk && biosDisk(disk) == Some(dev)
    ensures SetKickstartHd(m, HdOptions(true, Some(disk + "p" + suffix), partition, dir), biosDisk)
            == MethodData(Some("hd"), Some(HdData(Some(dev + suffix), dir)))
  {
    var b := disk + "p" + suffix;
    assert b[..|disk|] == disk;
    FindCharAt(b, 'p', |disk|);
    assert b[|disk| + 1..] == suffix;
  }

  /** A malformed or unknown `--biospart` leaves loaderData untouched. */
  lemma BadBiosPartition(m: MethodData, o: HdOptions, biosDisk: string -> Option<string>)
    requires o.biospart.Some?
    requires 'p' !in o.biospart.value || biosDisk(o.biospart.value[..FindChar(o.biospart.value, 'p').GetOr(0)]).None?
    ensures SetKickstartHd(m, o, biosDisk) == m
  {
  }

  /* ---------------------------------------------------------------- */
  /* ks=hd: and ks=bd:                                                 */

  /**
   * kickstartFromHD's split of `hd:<device>:<path>`: the device runs to
   * the second `:`, or, in the old format, to the first `/` after the
   * first `:`.  The source dereferences past a NULL when there is no `:`
   * at all; its callers pass the text after `ks=`, which starts `hd:`.
   */
  function HdSource(kssrc: string): (r: Option<(string, string)>)
    requires ':' in kssrc
  {
    var p := FindChar(kssrc, ':').value;
    var rest := kssrc[p + 1..];
    var q := match FindChar(rest, ':')
             case Some(j) => Some(j)
             case None => FindChar(rest, '/');
    match q
    case None => None
    case Some(j) => Some((rest[..j], rest[j + 1..]))
  }

  /** The new format splits back into its device and path. */
  lemma HdSourceRoundTrip(dev: string, path: string)
    requires ':' !in dev
    ensures HdSource("hd:" + dev + ":" + path) == Some((dev, path))
  {
    var s := "hd:" + dev + ":" + path;
    FindCharAt(s, ':', 2);
    var rest := s[3..];
    assert rest == dev + ":" + path;
    assert rest[..|dev|] == dev;
    FindCharAt(rest, ':', |dev|);
    assert rest[|dev| + 1..] == path;
  }

  /** The old format `hd:<device>/<path>` splits at the first `/` when the path has no `:`. */
  lemma HdSourceOldFormat(dev: string, path: string)
    requires ':' !in dev && '/' !in dev && ':' !in path
    ensures HdSource("hd:" + dev + "/" + path) == Some((dev, path))
  {
    var s := "hd:" + dev + "/" + path;
    FindCharAt(s, ':', 2);
    var rest := s[3..];
    assert rest == dev + "/" + path;
    FindCharNone(rest, ':');
    assert rest[..|dev|] == dev;
    FindCharAt(rest, '/', |dev|);
    assert rest[|dev| + 1..] == path;
  }

  /** kickstartFromHD: 1 for a malformed source or a failed read, 0 when the file was fetched. */
  function KickstartFromHd(kssrc: string, fetchRc: (string, string) -> int): (rc: int)
    requires ':' in kssrc
    ensures rc == 0 <==> HdSource(kssrc).Some? && fetchRc(HdSource(kssrc).value.0, HdSource(kssrc).value.1) == 0
  {
    match HdSource(kssrc)
    case None => 1
    case Some((dev, path)) => if fetchRc(dev, path) != 0 then 1 else 0
  }

  /**
   * kickstartFromBD's split of `bd:<bios disk>p<partition>:<path>`: the
   * BIOS disk and partition come from the text between the two colons.
   */
  function BdSource(kssrc: string): (r: Option<(string, string, string)>)
  {
    match FindChar(kssrc, ':')
    case None => None
    case Some(p) =>
      var rest := kssrc[p + 1..];
      match FindChar(rest, ':')
      case None => None
      case Some(q) =>
        var spec := rest[..q];
        match FindChar(spec, 'p')
        case None => None
        case Some(i) => Some((spec[..i], spec[i + 1..], rest[q + 1..]))
  }

  /** The `bd:` form splits back into BIOS disk, partition and path. */
  lemma BdSourceRoundTrip(disk: string, part: string, path: string)
    requires ':' !in disk && 'p' !in disk && ':' !in part
    ensures BdSource("bd:" + disk + "p" + part + ":" + path) == Some((disk, part, path))
  {
    var s := "bd:" + disk + "p" + part + ":" + path;
    FindCharAt(s, ':', 2);
    var rest := s[3..];
    assert rest == disk + "p" + part + ":" + path;
    var at := |disk| + 1 + |part|;
    var spec := rest[..at];
    assert spec == disk + "p" + part;
    FindCharAt(rest, ':', at);
    assert spec[..|disk|] == disk;
    FindCharAt(spec, 'p', |disk|);
    assert spec[|disk| + 1..] == part && rest[at + 1..] == path;
  }

  /** The bytes kickstartFromBD allocates for the device name: the BIOS disk's device and three more. */
  function BdBufferAsWritten(dev: string, part: string): nat { |dev| + 3 }

  /** The size setKickstartHD allocates for the same name: both pieces and two more. */
  function BdBuffer(dev: string, part: string): nat { |dev| + |part| + 2 }

  /** sprintf into `size` bytes: the text, or None when it and its NUL do not fit. */
  function FormatInto(size: nat, s: string): (r: Option<string>)
    ensures r.Some? <==> |s| + 1 <= size
    ensures r.Some? ==> r.value == s
  {
    if |s| + 1 <= size then Some(s) else None
  }

  /**
   * kickstartFromBD: 1 for a malformed source, an unknown BIOS disk or a
   * failed read, 0 when the file was read from `<device><partition>`;
   * None when the device name overruns its buffer.
   */
  function KickstartFromBd(kssrc: string, biosDisk: string -> Option<string>, fetchRc: (string, string) -> int,
                           variant: Variant): (r: Option<int>)
    ensures variant == Corrected ==> r.Some?
    ensures r == Some(0) <==>
              && BdSource(kssrc).Some? && biosDisk(BdSource(kssrc).value.0).Some?
              && (variant == Corrected || |BdSource(kssrc).value.1| <= 2)
              && fetchRc(biosDisk(BdSource(kssrc).value.0).value + BdSource(kssrc).value.1,
                         BdSource(kssrc).value.2) == 0
  {
    if BdSource(kssrc).None? then Some(1)
    else
      var disk, part, path := BdSource(kssrc).value.0, BdSource(kssrc).value.1, BdSource(kssrc).value.2;
      if biosDisk(disk).None? then Some(1)
      else
        var dev := biosDisk(disk).value;
        var size := if variant == AsWritten then BdBufferAsWritten(dev, part) else BdBuffer(dev, part);
        var ksdev := FormatInto(size, dev + part);
        if ksdev.None? then None
        else if fetchRc(ksdev.value, path) != 0 then Some(1)
        else
          assert ksdev.value == dev + part;
          assert variant == Corrected || |part| <= 2;
          Some(0)
  }

  /**
   * As written, `bd:<disk>p100:<path>` (a partition number of three
   * digits) on a known BIOS disk writes one byte past the device name's
   * buffer; corrected, the name fits and the file is fetched.
   */
  lemma BdOverflowAsWritten(disk: string, path: string, biosDisk: string -> Option<string>,
                            fetchRc: (string, string) -> int)
    requires ':' !in disk && 'p' !in disk && biosDisk(disk).Some?
    ensures KickstartFromBd("bd:" + disk + "p" + "100" + ":" + path, biosDisk, fetchRc, AsWritten).None?
    ensures KickstartFromBd("bd:" + disk + "p" + "100" + ":" + path, biosDisk, fetchRc, Corrected).Some?
  {
    assert ':' !in "100" by {
      assert "100"[0] == '1' && "100"[1] == '0' && "100"[2] == '0';
    }
    BdSourceRoundTrip(disk, "100", path);
  }
}
