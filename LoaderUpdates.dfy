/**
 * `loadUpdates` of the first-generation loader (loader/loader.c): the
 * stage loop that picks a removable device and a partition, asks for the
 * updates disk, mounts it, copies it to /tmp/updates and unmounts it.
 * Device and partition enumeration, the menus, the prompt, the mount and
 * the copy are outside answers; all the answers one pass of the loop may
 * consult are bundled in an `UpdReply`.
 */
module LoaderUpdates {
  import opened Wrappers

  datatype UpdStage = UpdDevice | UpdPart | UpdPrompt | UpdLoad | UpdDone

  /**
   * The answers for one pass: the removable devices found, the device
   * menu's button and pick, the partitions of the chosen device, the
   * partition menu's button and pick, the prompt's button, whether the
   * mount succeeds and whether the copy succeeds.  Button 2 is the
   * second button ("Cancel" or "Back").
   */
  datatype UpdReply = UpdReply(
    devices: seq<string>, devMenuRc: int, devPick: nat,
    parts: seq<string>, partMenuRc: int, partPick: nat,
    promptRc: int, mountOk: bool, copyOk: bool)

  /** A menu pick is an index into the list it was shown (the newt menu's contract). */
  predicate WellFormed(r: UpdReply) {
    && (|r.devices| >= 2 ==> r.devPick < |r.devices|)
    && (|r.parts| >= 1 ==> r.partPick < |r.parts|)
  }

  predicate AllWellFormed(rs: seq<UpdReply>) {
    forall k :: 0 <= k < |rs| ==> WellFormed(rs[k])
  }

  /** Mounting the chosen partition on /mnt/install/update-disk, and unmounting it. */
  datatype MountEvent = Mount(dev: string) | Umount

  /**
   * The loop's state: stage, direction, chosen device and partition, the
   * mounts and unmounts done so far, and whether the function returned
   * early.
   */
  datatype Upd = Upd(stage: UpdStage, dir: int, device: Option<string>, part: Option<string>,
                     returned: bool, log: seq<MountEvent>)

  const UpdStart := Upd(UpdDevice, 1, None, None, false, [])

  /** A device is chosen before UPD_PART is reached, and a partition before UPD_PROMPT and UPD_LOAD. */
  ghost predicate UpdInv(u: Upd) {
    && (u.stage != UpdDevice ==> u.device.Some?)
    && (u.stage == UpdPrompt || u.stage == UpdLoad ==> u.part.Some?)
  }

  function PromptCase(u: Upd, r: UpdReply): (n: Upd)
    requires u.device.Some? && u.part.Some?
    ensures UpdInv(n)
  {
    if r.promptRc == 2 then u.(stage := UpdPart, dir := -1) else u.(stage := UpdLoad)
  }

  /** UPD_PART; a pick from the partition menu falls through into UPD_PROMPT. */
  function PartCase(u: Upd, r: UpdReply): (n: Upd)
    requires u.device.Some? && WellFormed(r)
    ensures UpdInv(n)
  {
    var u1 := u.(part := None);
    if |r.parts| == 0 then
      if u.dir == -1 then u1.(stage := UpdDevice)
      else u1.(part := Some("/dev/" + u.device.value), stage := UpdPrompt)
    else if r.partMenuRc == 2 then u1.(stage := UpdDevice, dir := -1)
    else PromptCase(u1.(dir := 1, part := Some(r.parts[r.partPick]), stage := UpdLoad), r)
  }

  /** UPD_DEVICE; a pick from the device menu falls through into UPD_PART. */
  function DeviceCase(u: Upd, r: UpdReply): (n: Upd)
    requires WellFormed(r)
    ensures UpdInv(n) || n.returned
  {
    if |r.devices| == 0 then u.(returned := true)
    else if |r.devices| == 1 then
      var u1 := u.(device := Some(r.devices[0]));
      if u.dir == -1 then u1.(returned := true) else u1.(stage := UpdPart)
    else if r.devMenuRc == 2 then u.(dir := 1, returned := true)
    else PartCase(u.(dir := 1, device := Some(r.devices[r.devPick]), stage := UpdPart), r)
  }

  /** UPD_LOAD: a failed mount goes back to the prompt; a mounted disk is copied and always unmounted. */
  function LoadCase(u: Upd, r: UpdReply): (n: Upd)
    requires u.device.Some? && u.part.Some?
    ensures UpdInv(n)
  {
    if !r.mountOk then u.(stage := UpdPrompt)
    else
      var u1 := u.(log := u.log + [Mount(u.part.value), Umount]);
      if r.copyOk then u1.(dir := 1, stage := UpdDone) else u1
  }

  /** One pass of the `while (stage != UPD_DONE)` loop. */
  function UpdStep(u: Upd, r: UpdReply): Upd
    requires UpdInv(u) && WellFormed(r)
  {
    match u.stage
    case UpdDevice => DeviceCase(u, r)
    case UpdPart => PartCase(u, r)
    case UpdPrompt => PromptCase(u, r)
    case UpdLoad => LoadCase(u, r)
    case UpdDone => u
  }

  predicate UpdStopped(u: Upd) { u.stage == UpdDone || u.returned }

  function UpdRun(u: Upd, rs: seq<UpdReply>): Upd
    requires UpdInv(u) && AllWellFormed(rs)
    decreases |rs|
  {
    if UpdStopped(u) || rs == [] then u
    else
      var n := UpdStep(u, rs[0]);
      if n.returned then n
      else UpdRun(n, rs[1..])
  }

  /* ---------------------------------------------------------------- */

  /** Every mount of the updates disk is immediately followed by its unmount. */
  ghost predicate Balanced(log: seq<MountEvent>) {
    |log| % 2 == 0 && forall k :: 0 <= k < |log| ==> (log[k].Mount? <==> k % 2 == 0)
  }

  lemma BalancedAppend(log: seq<MountEvent>, p: string)
    requires Balanced(log)
    ensures Balanced(log + [Mount(p), Umount])
  {
    var l2 := log + [Mount(p), Umount];
    forall k | 0 <= k < |l2|
      ensures l2[k].Mount? <==> k % 2 == 0
    {
      if k < |log| {
        assert l2[k] == log[k];
      }
    }
  }

  /**
   * The updates disk is never left mounted: whatever the answers, the
   * mounts and unmounts pair up, and a run that reaches UPD_DONE has
   * mounted (and unmounted) the disk at least once.
   */
  lemma {:induction false} UpdRunUnmounts(u: Upd, rs: seq<UpdReply>)
    requires UpdInv(u) && AllWellFormed(rs) && Balanced(u.log)
    ensures Balanced(UpdRun(u, rs).log)
    ensures UpdRun(u, rs).stage == UpdDone && u.stage != UpdDone ==> |UpdRun(u, rs).log| >= 2
    ensures |u.log| <= |UpdRun(u, rs).log|
    decreases |rs|
  {
    if !UpdStopped(u) && rs != [] {
      var r := rs[0];
      var n := UpdStep(u, r);
      if u.stage == UpdLoad && r.mountOk {
        BalancedAppend(u.log, u.part.value);
      }
      assert Balanced(n.log) && |u.log| <= |n.log|;
      assert n.stage == UpdDone ==> |n.log| >= 2;
      if !n.returned {
        assert AllWellFormed(rs[1..]) by {
          forall k | 0 <= k < |rs[1..]| ensures WellFormed(rs[1..][k]) {
            assert rs[1..][k] == rs[k + 1];
          }
        }
        UpdRunUnmounts(n, rs[1..]);
      }
    }
  }

  /**
   * Back edges: Back at the prompt returns to the partition stage going
   * backwards, and backing into a device without partitions returns to
   * the device stage; backing into the only device returns.
   */
  lemma UpdBackEdges(u: Upd, r: UpdReply)
    requires UpdInv(u) && WellFormed(r)
    ensures u.stage == UpdPrompt && r.promptRc == 2 ==> UpdStep(u, r).stage == UpdPart && UpdStep(u, r).dir == -1
    ensures u.stage == UpdPart && u.dir == -1 && |r.parts| == 0 ==> UpdStep(u, r).stage == UpdDevice
    ensures u.stage == UpdDevice && u.dir == -1 && |r.devices| == 1 ==> UpdStep(u, r).returned
    ensures u.stage == UpdDevice && |r.devices| == 0 ==> UpdStep(u, r).returned
  {
  }

  /**
   * A partition picked from the menu still shows the "insert your updates
   * disk" prompt before loading, and a device without partitions is used
   * whole as /dev/<device>.
   */
  lemma UpdPartitionPick(u: Upd, r: UpdReply)
    requires UpdInv(u) && WellFormed(r) && u.stage == UpdPart
    ensures |r.parts| > 0 && r.partMenuRc != 2 ==>
              UpdStep(u, r).part == Some(r.parts[r.partPick])
              && UpdStep(u, r).stage == (if r.promptRc == 2 then UpdPart else UpdLoad)
    ensures |r.parts| == 0 && u.dir != -1 ==>
              UpdStep(u, r).part == Some("/dev/" + u.device.value) && UpdStep(u, r).stage == UpdPrompt
  {
  }

  /** A failed copy keeps the stage at UPD_LOAD, so the mount and copy are retried on the next pass. */
  lemma UpdCopyRetry(u: Upd, r: UpdReply)
    requires UpdInv(u) && WellFormed(r) && u.stage == UpdLoad
    ensures r.mountOk && !r.copyOk ==> UpdStep(u, r).stage == UpdLoad
    ensures !r.mountOk ==> UpdStep(u, r).stage == UpdPrompt && UpdStep(u, r).log == u.log
  {
  }

  /* ---------------------------------------------------------------- */

  /**
   * loadUpdates itself: returns whether the updates were copied, the
   * device and partition last chosen, and the mounts it made.
   */
  method LoadUpdates(replies: seq<UpdReply>)
    returns (copied: bool, device: Option<string>, part: Option<string>, mounts: seq<MountEvent>)
    requires AllWellFormed(replies)
    ensures var f := UpdRun(UpdStart, replies);
            copied == (f.stage == UpdDone) && device == f.device && part == f.part && mounts == f.log
    ensures Balanced(mounts)
  {
    var stage, dir := UpdDevice, 1;
    device, part, mounts := None, None, [];
    var i := 0;
    UpdRunUnmounts(UpdStart, replies);
    while stage != UpdDone && i < |replies|
      invariant 0 <= i <= |replies|
      invariant UpdInv(Upd(stage, dir, device, part, false, mounts))
      invariant AllWellFormed(replies[i..])
      invariant UpdRun(Upd(stage, dir, device, part, false, mounts), replies[i..]) == UpdRun(UpdStart, replies)
      decreases |replies| - i
    {
      var r := replies[i];
      assert WellFormed(replies[i..][0]);
      assert replies[i..][1..] == replies[i + 1..];
      var returned := false;
      stage, dir, device, part, mounts, returned := UpdPass(stage, dir, device, part, mounts, r);
      if returned {
        break;
      }
      i := i + 1;
    }
    copied := stage == UpdDone;
  }

  /** One pass of the loop, with the fall-throughs of the C switch. */
  method UpdPass(stage: UpdStage, dir: int, device: Option<string>, part: Option<string>,
                 mounts: seq<MountEvent>, r: UpdReply)
    returns (stage': UpdStage, dir': int, device': Option<string>, part': Option<string>,
             mounts': seq<MountEvent>, returned: bool)
    requires UpdInv(Upd(stage, dir, device, part, false, mounts)) && WellFormed(r) && stage != UpdDone
    ensures Upd(stage', dir', device', part', returned, mounts')
            == UpdStep(Upd(stage, dir, device, part, false, mounts), r)
  {
    stage', dir', device', part', mounts', returned := stage, dir, device, part, mounts, false;
    if stage' == UpdDevice {
      if |r.devices| == 0 {
        returned := true;
        return;
      }
      if |r.devices| == 1 {
        device' := Some(r.devices[0]);
        if dir' == -1 {
          returned := true;
          return;
        }
        stage' := UpdPart;
        return;
      }
      dir' := 1;
      if r.devMenuRc == 2 {
        returned := true;
        return;
      }
      device' := Some(r.devices[r.devPick]);
      stage' := UpdPart;
      // falls through into UPD_PART
      part' := None;
      if |r.parts| == 0 {
        part', stage' := Some("/dev/" + device'.value), UpdPrompt;
        return;
      }
      if r.partMenuRc == 2 {
        stage', dir' := UpdDevice, -1;
        return;
      }
      part', stage' := Some(r.parts[r.partPick]), UpdLoad;
      // falls through into UPD_PROMPT
      if r.promptRc == 2 {
        stage', dir' := UpdPart, -1;
      } else {
        stage' := UpdLoad;
      }
    } else if stage' == UpdPart {
      part' := None;
      if |r.parts| == 0 {
        if dir' == -1 {
          stage' := UpdDevice;
        } else {
          part', stage' := Some("/dev/" + device'.value), UpdPrompt;
        }
        return;
      }
      dir' := 1;
      if r.partMenuRc == 2 {
        stage', dir' := UpdDevice, -1;
        return;
      }
      part', stage' := Some(r.parts[r.partPick]), UpdLoad;
      // falls through into UPD_PROMPT
      if r.promptRc == 2 {
        stage', dir' := UpdPart, -1;
      } else {
        stage' := UpdLoad;
      }
    } else if stage' == UpdPrompt {
      if r.promptRc == 2 {
        stage', dir' := UpdPart, -1;
      } else {
        stage' := UpdLoad;
      }
    } else {
      if !r.mountOk {
        stage' := UpdPrompt;
        return;
      }
      if r.copyOk {
        dir', stage' := 1, UpdDone;
      }
      mounts' := mounts' + [Mount(part'.value), Umount];
    }
  }
}
