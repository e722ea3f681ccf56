/**
 * `loadUpdates` of the second-generation loader (loader2/loader.c): the
 * stage loop that picks a removable device and a partition, asks for the
 * updates disk, tries to mount it as ext2, vfat and then iso9660, copies
 * it to /tmp/updates and unmounts it.
 *
 * The function keeps two heap strings, `device` and `part`, which it
 * allocates with strdup, frees and aliases.  The model makes that memory
 * explicit: a heap is a sequence of blocks, a pointer is a block index,
 * and freeing a dead block or reading one is recorded as a fault that
 * stops the loop.  The stage machine is given twice over one definition:
 * as written, and with the partition pointer cleared after it is freed
 * and a fresh copy of the device name taken instead of an alias.
 *
 * Device and partition enumeration, the menus, the prompt, the mounts and
 * the copy are outside answers; all the answers one pass of the loop may
 * consult are bundled in a `Reply`.
 */
module Loader2Updates {
  import opened Wrappers

  datatype Stage = UpdDevice | UpdPart | UpdLoad | UpdDone

  /** The file systems the disk is tried as, in the order they are tried. */
  datatype Fs = Ext2 | Vfat | Iso9660

  const MountOrder: seq<Fs> := [Ext2, Vfat, Iso9660]

  /**
   * The answers for one pass: the removable devices found, the device
   * menu's button and pick, the partitions of the chosen device, the
   * partition menu's button and pick, the prompt's button, the file
   * systems the disk mounts as, and whether the copy succeeds.  Button 2
   * is the second button ("Cancel" or "Back").
   */
  datatype Reply = Reply(
    devices: seq<string>, devMenuRc: int, devPick: nat,
    parts: seq<string>, partMenuRc: int, partPick: nat,
    promptRc: int, mountable: set<Fs>, copyOk: bool)

  /** A menu pick is an index into the list it was shown (the newt menu's contract). */
  predicate WellFormed(r: Reply) {
    && (|r.devices| >= 2 ==> r.devPick < |r.devices|)
    && (|r.parts| >= 1 ==> r.partPick < |r.parts|)
  }

  predicate AllWellFormed(rs: seq<Reply>) {
    forall k :: 0 <= k < |rs| ==> WellFormed(rs[k])
  }

  lemma AllWellFormedTail(rs: seq<Reply>)
    requires AllWellFormed(rs) && rs != []
    ensures WellFormed(rs[0]) && AllWellFormed(rs[1..])
  {
    assert WellFormed(rs[0]);
    forall k | 0 <= k < |rs[1..]| ensures WellFormed(rs[1..][k]) {
      assert rs[1..][k] == rs[k + 1];
    }
  }

  /* ---------------------------------------------------------------- */
  /* The heap                                                          */

  /** A heap string: its text and whether it is still allocated. */
  datatype Block = Block(text: string, live: bool)

  type Heap = seq<Block>

  /** A pointer that may be read or freed. */
  predicate Live(h: Heap, p: Option<nat>) {
    p.Some? && p.value < |h| && h[p.value].live
  }

  /** strdup: a new live block at the end of the heap. */
  function Dup(h: Heap, s: string): (r: (Heap, nat))
    ensures r.1 == |h| && r.0 == h + [Block(s, true)]
    ensures Live(r.0, Some(r.1)) && r.0[r.1].text == s
  {
    (h + [Block(s, true)], |h|)
  }

  /** free: the block is no longer allocated; nothing else changes. */
  function Kill(h: Heap, p: nat): (r: Heap)
    requires p < |h|
    ensures |r| == |h| && !r[p].live && r[p].text == h[p].text
    ensures forall q :: 0 <= q < |h| && q != p ==> r[q] == h[q]
  {
    h[p := h[p].(live := false)]
  }

  datatype Fault = DoubleFree | UseAfterFree

  /** Mounting the chosen partition on /tmp/update-disk as `fs`, and unmounting it. */
  datatype MountEvent = Mount(dev: string, fs: Fs) | Umount

  /**
   * The loop's state: stage, direction, the `device` and `part` pointers,
   * the heap they point into, the mounts and unmounts done so far, whether
   * the function returned early, and the memory fault that ended it, if
   * any.
   */
  datatype Upd = Upd(stage: Stage, dir: int, device: Option<nat>, part: Option<nat>, heap: Heap,
                     log: seq<MountEvent>, returned: bool, fault: Option<Fault>)

  const Start := Upd(UpdDevice, 1, None, None, [], [], false, None)

  /** The loop as written, or with the two pointer defects of UPD_PART repaired. */
  datatype Variant = AsWritten | Corrected

  /** A device is chosen before UPD_PART is reached, and a device and a partition before UPD_LOAD. */
  predicate Valid(u: Upd) {
    && (u.stage == UpdPart ==> u.device.Some?)
    && (u.stage == UpdLoad ==> u.device.Some? && u.part.Some?)
  }

  /* ---------------------------------------------------------------- */
  /* One pass                                                          */

  /** The first file system of ext2, vfat, iso9660 the disk mounts as. */
  function FirstMountable(s: set<Fs>): (r: Option<Fs>)
    ensures r.Some? ==> r.value in s
    ensures r.Some? ==> forall k :: 0 <= k < |MountOrder| && MountOrder[k] == r.value ==>
                          forall j :: 0 <= j < k ==> MountOrder[j] !in s
    ensures r.None? <==> s == {}
  {
    if Ext2 in s then Some(Ext2)
    else if Vfat in s then Some(Vfat)
    else if Iso9660 in s then Some(Iso9660)
    else
      NoFs(s);
      None
  }

  lemma NoFs(s: set<Fs>)
    requires Ext2 !in s && Vfat !in s && Iso9660 !in s
    ensures s == {}
  {
    forall f: Fs | f in s ensures false {
      match f case Ext2 => case Vfat => case Iso9660 =>
    }
  }

  /**
   * UPD_LOAD: the prompt (which reads the partition name); Back returns to
   * UPD_PART going backwards.  Otherwise the disk is mounted as the first
   * file system that works; if none does, the stage stays UPD_LOAD and the
   * prompt comes again.  A mounted disk is copied and always unmounted; a
   * good copy ends the loop.
   */
  function LoadCase(u: Upd, r: Reply): (n: Upd)
    requires u.stage == UpdLoad && u.device.Some? && u.part.Some?
  {
    if !Live(u.heap, u.part) then u.(fault := Some(UseAfterFree))
    else if r.promptRc == 2 then u.(stage := UpdPart, dir := -1)
    else match FirstMountable(r.mountable)
      case None => u
      case Some(fs) =>
        var logged := u.log + [Mount(u.heap[u.part.value].text, fs), Umount];
        if r.copyOk then u.(log := logged, dir := 1, stage := UpdDone) else u.(log := logged)
  }

  /**
   * free(part) at the head of UPD_PART.  As written `part` keeps its
   * (now dangling) value; corrected, it is cleared.
   */
  function ReleasePart(u: Upd, variant: Variant): (n: Upd)
    ensures n.stage == u.stage && n.dir == u.dir && n.device == u.device && n.log == u.log
    ensures n.returned == u.returned
    ensures u.part.None? ==> n == u
    ensures Live(u.heap, u.part) ==> n.fault == u.fault && |n.heap| == |u.heap|
    ensures u.part.Some? && !Live(u.heap, u.part) ==> n.fault == Some(DoubleFree)
    ensures variant == Corrected && Live(u.heap, u.part) ==> n.part.None?
  {
    if u.part.None? then u
    else if !Live(u.heap, u.part) then u.(fault := Some(DoubleFree))
    else
      var h := Kill(u.heap, u.part.value);
      if variant == Corrected then u.(heap := h, part := None) else u.(heap := h)
  }

  /**
   * UPD_PART: the partitions of the device are listed (which reads the
   * device name) and the old partition name freed.  A device without
   * partitions goes back to UPD_DEVICE when moving backwards and is
   * otherwise used whole: as written `part` becomes an alias of
   * `device`, corrected it becomes a copy of it.  Otherwise the partition
   * menu is shown: Back returns to UPD_DEVICE going backwards, and a pick
   * falls through into UPD_LOAD.
   */
  function PartCase(u: Upd, r: Reply, variant: Variant): (n: Upd)
    requires u.stage == UpdPart && u.device.Some? && WellFormed(r)
    ensures Valid(n)
  {
    if !Live(u.heap, u.device) then u.(fault := Some(UseAfterFree))
    else
      var u1 := ReleasePart(u, variant);
      if u1.fault.Some? then u1
      else if |r.parts| == 0 then
        if u.dir == -1 then u1.(stage := UpdDevice)
        else if variant == AsWritten then u1.(part := u1.device, stage := UpdLoad)
        else
          var (h, p) := Dup(u1.heap, u.heap[u.device.value].text);
          u1.(heap := h, part := Some(p), stage := UpdLoad)
      else if r.partMenuRc == 2 then u1.(stage := UpdDevice, dir := -1)
      else
        var (h, p) := Dup(u1.heap, r.parts[r.partPick]);
        LoadCase(u1.(dir := 1, heap := h, part := Some(p), stage := UpdLoad), r)
  }

  /**
   * UPD_DEVICE: no removable device returns at once; a single device is
   * taken without asking (and returns when moving backwards); several are
   * offered in a menu whose Cancel returns and whose pick falls through
   * into UPD_PART.
   */
  function DeviceCase(u: Upd, r: Reply, variant: Variant): (n: Upd)
    requires u.stage == UpdDevice && WellFormed(r)
    ensures Valid(n)
  {
    if |r.devices| == 0 then u.(returned := true)
    else if |r.devices| == 1 then
      var (h, d) := Dup(u.heap, r.devices[0]);
      if u.dir == -1 then u.(heap := h, device := Some(d), returned := true)
      else u.(heap := h, device := Some(d), stage := UpdPart)
    else if r.devMenuRc == 2 then u.(dir := 1, returned := true)
    else
      var (h, d) := Dup(u.heap, r.devices[r.devPick]);
      PartCase(u.(dir := 1, heap := h, device := Some(d), stage := UpdPart), r, variant)
  }

  /** One pass of the `while (stage != UPD_DONE)` loop, with the fall-throughs of the C switch. */
  function Step(u: Upd, r: Reply, variant: Variant): (n: Upd)
    requires Valid(u) && WellFormed(r)
    ensures Valid(n)
  {
    match u.stage
    case UpdDevice => DeviceCase(u, r, variant)
    case UpdPart => PartCase(u, r, variant)
    case UpdLoad => LoadCase(u, r)
    case UpdDone => u
  }

  predicate Stopped(u: Upd) { u.stage == UpdDone || u.returned || u.fault.Some? }

  function Run(u: Upd, rs: seq<Reply>, variant: Variant): (n: Upd)
    requires Valid(u) && AllWellFormed(rs)
    ensures Valid(n)
    decreases |rs|
  {
    if Stopped(u) || rs == [] then u
    else
      AllWellFormedTail(rs);
      Run(Step(u, rs[0], variant), rs[1..], variant)
  }

  /* ---------------------------------------------------------------- */
  /* The loop as written faults                                        */

  /**
   * Pick a device and a partition, answer Back at the prompt and Back at
   * the partition menu, then pick a device again: UPD_PART frees the
   * partition name a second time.
   */
  lemma DoubleFreeAsWritten()
    ensures var pick := Reply(["sda", "sdb"], 1, 0, ["sda1"], 1, 0, 2, {}, false);
            var back := Reply(["sda", "sdb"], 1, 0, ["sda1"], 2, 0, 1, {}, false);
            Run(Start, [pick, back, pick], AsWritten).fault == Some(DoubleFree)
  {
    var pick := Reply(["sda", "sdb"], 1, 0, ["sda1"], 1, 0, 2, {}, false);
    var back := Reply(["sda", "sdb"], 1, 0, ["sda1"], 2, 0, 1, {}, false);
    var sda, sda1 := Block("sda", true), Block("sda1", true);
    // the first pass picks sda and sda1, then goes Back at the prompt
    var u1 := Upd(UpdPart, -1, Some(0), Some(1), [sda, sda1], [], false, None);
    assert Step(Start, pick, AsWritten) == u1;
    // Back at the partition menu frees sda1
    var w2 := Upd(UpdDevice, -1, Some(0), Some(1), [sda, sda1.(live := false)], [], false, None);
    assert Step(u1, back, AsWritten) == w2;
    // picking a device again reaches UPD_PART, which frees sda1 once more
    assert Step(w2, pick, AsWritten).fault == Some(DoubleFree);
    assert [pick, back, pick][1..] == [back, pick];
    assert [back, pick][1..] == [pick];
    assert [pick][1..] == [];
    assert Run(Start, [pick, back, pick], AsWritten) == Run(u1, [back, pick], AsWritten)
           == Run(w2, [pick], AsWritten) == Run(Step(w2, pick, AsWritten), [], AsWritten);
  }

  /**
   * Pick a device without partitions (so `part` aliases `device`), answer
   * Back at the prompt, pick a partition that has since appeared and
   * answer Back again: freeing `part` freed the device name, which UPD_PART
   * then reads.
   */
  lemma UseAfterFreeAsWritten()
    ensures var whole := Reply(["sda", "sdb"], 1, 0, [], 1, 0, 2, {}, false);
            var again := Reply(["sda", "sdb"], 1, 0, [], 1, 0, 2, {}, false);
            var pick := Reply(["sda", "sdb"], 1, 0, ["sda1"], 1, 0, 2, {}, false);
            Run(Start, [whole, again, pick, again], AsWritten).fault == Some(UseAfterFree)
  {
    var whole := Reply(["sda", "sdb"], 1, 0, [], 1, 0, 2, {}, false);
    var again := Reply(["sda", "sdb"], 1, 0, [], 1, 0, 2, {}, false);
    var pick := Reply(["sda", "sdb"], 1, 0, ["sda1"], 1, 0, 2, {}, false);
    var sda, sda1 := Block("sda", true), Block("sda1", true);
    // sda has no partitions: `part` becomes `device`
    var w1 := Upd(UpdLoad, 1, Some(0), Some(0), [sda], [], false, None);
    assert Step(Start, whole, AsWritten) == w1;
    // Back at the prompt
    var w2 := w1.(stage := UpdPart, dir := -1);
    assert Step(w1, again, AsWritten) == w2;
    // UPD_PART frees `part`, which is the device name; sda1 is picked, then Back
    var w3 := Upd(UpdPart, -1, Some(0), Some(1), [sda.(live := false), sda1], [], false, None);
    assert Step(w2, pick, AsWritten) == w3;
    // UPD_PART lists the partitions of the freed device name
    assert Step(w3, again, AsWritten).fault == Some(UseAfterFree);
    var rs := [whole, again, pick, again];
    assert rs[1..] == [again, pick, again];
    assert rs[1..][1..] == [pick, again];
    assert rs[1..][1..][1..] == [again];
    assert [again][1..] == [];
    assert Run(Start, rs, AsWritten) == Run(w1, rs[1..], AsWritten) == Run(w2, rs[1..][1..], AsWritten)
           == Run(w3, [again], AsWritten) == Run(Step(w3, again, AsWritten), [], AsWritten);
  }

  /* ---------------------------------------------------------------- */
  /* The corrected loop never faults                                   */

  /**
   * Memory safety of the corrected loop: both pointers, when set, point at
   * live blocks, and they never point at the same block.
   */
  predicate Safe(u: Upd) {
    && Valid(u)
    && u.fault.None?
    && (u.device.Some? ==> Live(u.heap, u.device))
    && (u.part.Some? ==> Live(u.heap, u.part) && u.part != u.device)
  }

  lemma LoadKeepsSafe(u: Upd, r: Reply)
    requires Safe(u) && u.stage == UpdLoad
    ensures Safe(LoadCase(u, r))
  {
  }

  lemma PartKeepsSafe(u: Upd, r: Reply)
    requires Safe(u) && u.stage == UpdPart && WellFormed(r)
    ensures Safe(PartCase(u, r, Corrected))
  {
    var u1 := ReleasePart(u, Corrected);
    assert u1.fault.None? && u1.part.None? && Live(u1.heap, u1.device);
    if |r.parts| != 0 && r.partMenuRc != 2 {
      var (h, p) := Dup(u1.heap, r.parts[r.partPick]);
      LoadKeepsSafe(u1.(dir := 1, heap := h, part := Some(p), stage := UpdLoad), r);
    }
  }

  lemma DeviceKeepsSafe(u: Upd, r: Reply)
    requires Safe(u) && u.stage == UpdDevice && WellFormed(r)
    ensures Safe(DeviceCase(u, r, Corrected))
  {
    if |r.devices| >= 2 && r.devMenuRc != 2 {
      var (h, d) := Dup(u.heap, r.devices[r.devPick]);
      PartKeepsSafe(u.(dir := 1, heap := h, device := Some(d), stage := UpdPart), r);
    }
  }

  lemma StepKeepsSafe(u: Upd, r: Reply)
    requires Safe(u) && WellFormed(r)
    ensures Safe(Step(u, r, Corrected))
  {
    match u.stage
    case UpdDevice => DeviceKeepsSafe(u, r);
    case UpdPart => PartKeepsSafe(u, r);
    case UpdLoad => LoadKeepsSafe(u, r);
    case UpdDone =>
  }

  /** Whatever the devices, partitions and buttons, the corrected loop neither double-frees nor reads freed memory. */
  lemma {:induction false} CorrectedNeverFaults(u: Upd, rs: seq<Reply>)
    requires Safe(u) && AllWellFormed(rs)
    ensures Safe(Run(u, rs, Corrected))
    decreases |rs|
  {
    if !Stopped(u) && rs != [] {
      AllWellFormedTail(rs);
      StepKeepsSafe(u, rs[0]);
      CorrectedNeverFaults(Step(u, rs[0], Corrected), rs[1..]);
    }
  }

  /* ---------------------------------------------------------------- */
  /* Mounts                                                            */

  /** Every mount of the updates disk is immediately followed by its unmount. */
  predicate Balanced(log: seq<MountEvent>) {
    |log| % 2 == 0 && forall k :: 0 <= k < |log| ==> (log[k].Mount? <==> k % 2 == 0)
  }

  lemma BalancedAppend(log: seq<MountEvent>, l2: seq<MountEvent>)
    requires Balanced(log) && OneMount(log, l2)
    ensures Balanced(l2)
  {
    forall k | 0 <= k < |l2|
      ensures l2[k].Mount? <==> k % 2 == 0
    {
      if k < |log| {
        assert l2[k] == l2[..|log|][k];
      }
    }
  }

  /** `after` is `before` followed by one mount and its unmount. */
  predicate OneMount(before: seq<MountEvent>, after: seq<MountEvent>) {
    |after| == |before| + 2 && after[..|before|] == before && after[|before|].Mount? && after[|before| + 1] == Umount
  }

  /** A pass adds to the mount log only in UPD_LOAD, and then exactly one mount and its unmount. */
  lemma StepLog(u: Upd, r: Reply, variant: Variant)
    requires Valid(u) && WellFormed(r)
    ensures var n := Step(u, r, variant);
            n.log == u.log || OneMount(u.log, n.log)
    ensures var n := Step(u, r, variant);
            n.stage == UpdDone && u.stage != UpdDone ==> OneMount(u.log, n.log)
  {
    match u.stage
    case UpdDevice => DeviceLog(u, r, variant);
    case UpdPart => PartLog(u, r, variant);
    case UpdLoad => LoadLog(u, r);
    case UpdDone =>
  }

  lemma LoadLog(u: Upd, r: Reply)
    requires Valid(u) && u.stage == UpdLoad
    ensures var n := LoadCase(u, r);
            (n.log == u.log || OneMount(u.log, n.log)) && (n.stage == UpdDone ==> OneMount(u.log, n.log))
  {
    var n := LoadCase(u, r);
    if n.log != u.log {
      assert n.log[..|u.log|] == u.log;
    }
  }

  lemma PartLog(u: Upd, r: Reply, variant: Variant)
    requires Valid(u) && u.stage == UpdPart && WellFormed(r)
    ensures var n := PartCase(u, r, variant);
            (n.log == u.log || OneMount(u.log, n.log)) && (n.stage == UpdDone ==> OneMount(u.log, n.log))
  {
    if Live(u.heap, u.device) {
      var u1 := ReleasePart(u, variant);
      if u1.fault.None? && |r.parts| != 0 && r.partMenuRc != 2 {
        var (h, p) := Dup(u1.heap, r.parts[r.partPick]);
        LoadLog(u1.(dir := 1, heap := h, part := Some(p), stage := UpdLoad), r);
      }
    }
  }

  lemma DeviceLog(u: Upd, r: Reply, variant: Variant)
    requires Valid(u) && u.stage == UpdDevice && WellFormed(r)
    ensures var n := DeviceCase(u, r, variant);
            (n.log == u.log || OneMount(u.log, n.log)) && (n.stage == UpdDone ==> OneMount(u.log, n.log))
  {
    if |r.devices| >= 2 && r.devMenuRc != 2 {
      var (h, d) := Dup(u.heap, r.devices[r.devPick]);
      PartLog(u.(dir := 1, heap := h, device := Some(d), stage := UpdPart), r, variant);
    }
  }

  /**
   * The updates disk is never left mounted: whatever the answers, the
   * mounts and unmounts pair up, and a run that reaches UPD_DONE has
   * mounted (and unmounted) the disk at least once.
   */
  lemma {:induction false} RunUnmounts(u: Upd, rs: seq<Reply>, variant: Variant)
    requires Valid(u) && AllWellFormed(rs) && Balanced(u.log)
    ensures Balanced(Run(u, rs, variant).log)
    ensures Run(u, rs, variant).stage == UpdDone && u.stage != UpdDone ==> |Run(u, rs, variant).log| > |u.log|
    ensures |u.log| <= |Run(u, rs, variant).log|
    decreases |rs|
  {
    if !Stopped(u) && rs != [] {
      AllWellFormedTail(rs);
      var n := Step(u, rs[0], variant);
      StepLog(u, rs[0], variant);
      if n.log != u.log {
        BalancedAppend(u.log, n.log);
      }
      RunUnmounts(n, rs[1..], variant);
    }
  }

  /**
   * The disk is mounted as the first of ext2, vfat and iso9660 that works;
   * when none does nothing is mounted and the prompt comes back.
   */
  lemma LoadMountsFirst(u: Upd, r: Reply)
    requires Valid(u) && WellFormed(r) && u.stage == UpdLoad && Live(u.heap, u.part) && r.promptRc != 2
    ensures r.mountable == {} ==> Step(u, r, Corrected) == u
    ensures Ext2 in r.mountable ==>
              Step(u, r, Corrected).log == u.log + [Mount(u.heap[u.part.value].text, Ext2), Umount]
    ensures Ext2 !in r.mountable && Vfat in r.mountable ==>
              Step(u, r, Corrected).log == u.log + [Mount(u.heap[u.part.value].text, Vfat), Umount]
    ensures r.mountable == {Iso9660} ==>
              Step(u, r, Corrected).log == u.log + [Mount(u.heap[u.part.value].text, Iso9660), Umount]
  {
  }

  /**
   * A mounted disk whose copy fails keeps the stage at UPD_LOAD, so the
   * prompt, the mount and the copy are retried on the next pass; a good
   * copy ends the loop going forwards.
   */
  lemma CopyOutcome(u: Upd, r: Reply)
    requires Valid(u) && WellFormed(r) && u.stage == UpdLoad && Live(u.heap, u.part) && r.promptRc != 2
    ensures r.mountable != {} && !r.copyOk ==> Step(u, r, Corrected).stage == UpdLoad
    ensures r.mountable != {} && r.copyOk ==>
              Step(u, r, Corrected).stage == UpdDone && Step(u, r, Corrected).dir == 1
  {
  }

  /**
   * Back edges: Back at the prompt returns to UPD_PART going backwards,
   * Back at the partition menu returns to UPD_DEVICE going backwards,
   * backing into a device without partitions returns to UPD_DEVICE, and
   * backing into the only device (or having none) returns.
   */
  lemma BackEdges(u: Upd, r: Reply)
    requires Safe(u) && WellFormed(r)
    ensures u.stage == UpdLoad && r.promptRc == 2 ==>
              Step(u, r, Corrected).stage == UpdPart && Step(u, r, Corrected).dir == -1
    ensures u.stage == UpdPart && |r.parts| > 0 && r.partMenuRc == 2 ==>
              Step(u, r, Corrected).stage == UpdDevice && Step(u, r, Corrected).dir == -1
    ensures u.stage == UpdPart && u.dir == -1 && |r.parts| == 0 ==> Step(u, r, Corrected).stage == UpdDevice
    ensures u.stage == UpdDevice && u.dir == -1 && |r.devices| == 1 ==> Step(u, r, Corrected).returned
    ensures u.stage == UpdDevice && |r.devices| == 0 ==> Step(u, r, Corrected).returned
  {
  }

  /**
   * A partition picked from the menu is a fresh copy of the menu entry,
   * and a device without partitions is used whole, under its own name.
   */
  lemma PartitionPick(u: Upd, r: Reply)
    requires Safe(u) && WellFormed(r) && u.stage == UpdPart
    ensures var n := Step(u, r, Corrected);
            |r.parts| > 0 && r.partMenuRc != 2 && r.promptRc == 2 ==>
              Live(n.heap, n.part) && n.heap[n.part.value].text == r.parts[r.partPick]
    ensures var n := Step(u, r, Corrected);
            |r.parts| == 0 && u.dir != -1 ==>
              n.stage == UpdLoad && Live(n.heap, n.part) && n.part != n.device
              && n.heap[n.part.value].text == u.heap[u.device.value].text
  {
  }

  /* ---------------------------------------------------------------- */
  /* The loop                                                          */

  /**
   * loadUpdates with the repaired UPD_PART: returns whether the updates
   * were copied and the mounts it made; the memory it uses is returned as
   * the heap and the two pointers.
   */
  method LoadUpdates(replies: seq<Reply>)
    returns (copied: bool, mounts: seq<MountEvent>, heap: Heap, device: Option<nat>, part: Option<nat>)
    requires AllWellFormed(replies)
    ensures var f := Run(Start, replies, Corrected);
            copied == (f.stage == UpdDone) && mounts == f.log
            && heap == f.heap && device == f.device && part == f.part && f.fault.None?
    ensures Balanced(mounts)
  {
    var stage, dir := UpdDevice, 1;
    device, part, heap, mounts := None, None, [], [];
    var i := 0;
    RunUnmounts(Start, replies, Corrected);
    CorrectedNeverFaults(Start, replies);
    while stage != UpdDone && i < |replies|
      invariant 0 <= i <= |replies|
      invariant Safe(Upd(stage, dir, device, part, heap, mounts, false, None))
      invariant AllWellFormed(replies[i..])
      invariant Run(Upd(stage, dir, device, part, heap, mounts, false, None), replies[i..], Corrected)
                == Run(Start, replies, Corrected)
      decreases |replies| - i
    {
      AllWellFormedTail(replies[i..]);
      assert replies[i..][1..] == replies[i + 1..];
      var returned := false;
      ghost var u := Upd(stage, dir, device, part, heap, mounts, false, None);
      StepKeepsSafe(u, replies[i]);
      stage, dir, device, part, heap, mounts, returned := Pass(stage, dir, device, part, heap, mounts, replies[i]);
      if returned {
        break;
      }
      i := i + 1;
    }
    copied := stage == UpdDone;
  }

  /** One pass of the loop, with the fall-throughs of the C switch. */
  method Pass(stage: Stage, dir: int, device: Option<nat>, part: Option<nat>, heap: Heap,
              mounts: seq<MountEvent>, r: Reply)
    returns (stage': Stage, dir': int, device': Option<nat>, part': Option<nat>, heap': Heap,
             mounts': seq<MountEvent>, returned: bool)
    requires Safe(Upd(stage, dir, device, part, heap, mounts, false, None)) && WellFormed(r)
    requires stage != UpdDone
    ensures Upd(stage', dir', device', part', heap', mounts', returned, None)
            == Step(Upd(stage, dir, device, part, heap, mounts, false, None), r, Corrected)
  {
    stage', dir', device', part', heap', mounts', returned := stage, dir, device, part, heap, mounts, false;
    if stage' == UpdDevice {
      if |r.devices| == 0 {
        returned := true;
        return;
      }
      if |r.devices| == 1 {
        heap', device' := heap' + [Block(r.devices[0], true)], Some(|heap'|);
        if dir' == -1 {
          returned := true;
          return;
        }
        stage' := UpdPart;
        return;
      }
      dir' := 1;
      if r.devMenuRc == 2 {
        returned := true;
        return;
      }
      heap', device' := heap' + [Block(r.devices[r.devPick], true)], Some(|heap'|);
      stage' := UpdPart;
      // falls through into UPD_PART
    }
    if stage' == UpdPart {
      stage', dir', part', heap', mounts' := PartPass(dir', device', part', heap', mounts', r);
      return;
    }
    dir', stage', mounts' := LoadPass(dir', device', part', heap', mounts', r);
  }

  /** UPD_PART, falling through into UPD_LOAD after a pick. */
  method PartPass(dir: int, device: Option<nat>, part: Option<nat>, heap: Heap, mounts: seq<MountEvent>, r: Reply)
    returns (stage': Stage, dir': int, part': Option<nat>, heap': Heap, mounts': seq<MountEvent>)
    requires Safe(Upd(UpdPart, dir, device, part, heap, mounts, false, None)) && WellFormed(r)
    ensures Upd(stage', dir', device, part', heap', mounts', false, None)
            == PartCase(Upd(UpdPart, dir, device, part, heap, mounts, false, None), r, Corrected)
  {
    stage', dir', part', heap', mounts' := UpdPart, dir, part, heap, mounts;
    if part'.Some? {
      heap' := heap'[part'.value := heap'[part'.value].(live := false)];
      part' := None;
    }
    if |r.parts| == 0 {
      if dir' == -1 {
        stage' := UpdDevice;
      } else {
        heap', part' := heap' + [Block(heap[device.value].text, true)], Some(|heap'|);
        stage' := UpdLoad;
      }
      return;
    }
    dir' := 1;
    if r.partMenuRc == 2 {
      stage', dir' := UpdDevice, -1;
      return;
    }
    heap', part' := heap' + [Block(r.parts[r.partPick], true)], Some(|heap'|);
    // falls through into UPD_LOAD
    dir', stage', mounts' := LoadPass(dir', device, part', heap', mounts', r);
  }

  /** UPD_LOAD: the prompt, the three mount attempts, the copy and the unmount. */
  method LoadPass(dir: int, device: Option<nat>, part: Option<nat>, heap: Heap, mounts: seq<MountEvent>, r: Reply)
    returns (dir': int, stage': Stage, mounts': seq<MountEvent>)
    requires device.Some? && Live(heap, part)
    ensures var n := LoadCase(Upd(UpdLoad, dir, device, part, heap, mounts, false, None), r);
            dir' == n.dir && stage' == n.stage && mounts' == n.log
  {
    dir', stage', mounts' := dir, UpdLoad, mounts;
    if r.promptRc == 2 {
      stage', dir' := UpdPart, -1;
      return;
    }
    var fs: Fs;
    if Ext2 in r.mountable {
      fs := Ext2;
    } else if Vfat in r.mountable {
      fs := Vfat;
    } else if Iso9660 in r.mountable {
      fs := Iso9660;
    } else {
      return;
    }
    if r.copyOk {
      dir', stage' := 1, UpdDone;
    }
    mounts' := mounts' + [Mount(heap[part.value].text, fs), Umount];
  }
}
