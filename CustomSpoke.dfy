/**
 * The manual partitioning spoke (custom.py): the names of mountpoint
 * pages, the add dialog's mountpoint list and size, the device type a new
 * mountpoint gets, taking a device out of an existing installation's
 * root, and which of the dialog's actions reach the main device tree.
 * The storage library (size parsing, filesystem types, the device trees)
 * is given as inputs.
 */
module CustomSpoke {
  import opened Wrappers
  import opened Strings

  // ----- _mountpointName -----

  /** str.capitalize on ASCII text: the first character upper case, the rest lower case. */
  function Capitalize(s: string): (r: string)
    ensures |r| == |s|
    ensures |s| > 0 ==> r[0] == Upper(s[0])
    ensures forall i :: 0 < i < |s| ==> r[i] == Lower(s[i])
  {
    if s == [] then [] else [Upper(s[0])] + ToLower(s[1..])
  }

  /** The title of a mountpoint's page: `Root` for `/`, else the last path component capitalised; None without a mountpoint or a slash. */
  function MountpointName(mountpoint: Option<string>): Option<string> {
    match mountpoint
    case None => None
    case Some(m) =>
      if m == "/" then Some("Root")
      else match RFindChar(m, '/')
        case None => None
        case Some(k) => Some(Capitalize(m[k + 1..]))
  }

  /** `/usr/local` is titled `Local`: the last component after a slash, capitalised. */
  lemma MountpointNameOf(dir: string, last: string)
    requires '/' !in last && dir + "/" + last != "/"
    ensures MountpointName(Some(dir + "/" + last)) == Some(Capitalize(last))
  {
    var m := dir + "/" + last;
    assert m[|dir|] == '/';
    assert m[|dir| + 1..] == last;
    RFindCharAt(m, '/', |dir|);
  }

  /** A name without a slash has no title. */
  lemma MountpointNameNoSlash(m: string)
    requires '/' !in m
    ensures MountpointName(Some(m)) == None
  {
  }

  // ----- the add dialog -----

  /** The mountpoints the add dialog suggests, before those in use are dropped. */
  const DefaultPaths: seq<string> := ["/", "/boot", "/home", "/usr", "/var", "swap"]

  function Unused(paths: seq<string>, mountpoints: seq<string>): seq<string>
    decreases |paths|
  {
    if paths == [] then []
    else
      var p := paths[|paths| - 1];
      Unused(paths[..|paths| - 1], mountpoints) + (if p !in mountpoints then [p] else [])
  }

  /** A suggestion is offered exactly when it is not a mountpoint already, in the order of the suggestions. */
  lemma {:induction false} UnusedIff(paths: seq<string>, mountpoints: seq<string>, p: string)
    ensures p in Unused(paths, mountpoints) <==> p in paths && p !in mountpoints
    ensures |Unused(paths, mountpoints)| <= |paths|
    decreases |paths|
  {
    if paths != [] {
      var n := |paths| - 1;
      UnusedIff(paths[..n], mountpoints, p);
      assert paths == paths[..n] + [paths[n]];
    }
  }

  /** A size entry ends in a unit when its last character is a letter. */
  predicate HasUnit(s: string) {
    s != [] && IsAlpha(s[|s| - 1])
  }

  /** The size text given to Size: the entry stripped, with `MB` added when it has no unit. */
  function SizeSpec(text: string): (r: string) {
    var t := Strip(text);
    if HasUnit(t) then t else t + "MB"
  }

  /** Every spec has a unit, and a unit the user typed is kept. */
  lemma SizeSpecUnit(text: string)
    ensures HasUnit(SizeSpec(text))
    ensures HasUnit(Strip(text)) ==> SizeSpec(text) == Strip(text)
    ensures !HasUnit(Strip(text)) ==> SizeSpec(text) == Strip(text) + "MB"
  {
    var t := Strip(text);
    if !HasUnit(t) {
      var r := t + "MB";
      assert r[|r| - 1] == 'B';
    }
  }

  /** The add dialog: the mountpoints in use, the suggestions offered, and the mountpoint and size confirmed. */
  class AddDialog {
    const mountpoints: seq<string>
    var offered: seq<string>
    var size: nat
    var mountpoint: string

    /** __init__: size 0, no mountpoint, and the suggestions not in use. */
    constructor(mountpoints: seq<string>)
      ensures this.mountpoints == mountpoints && offered == Unused(DefaultPaths, mountpoints)
      ensures size == 0 && mountpoint == ""
    {
      this.mountpoints := mountpoints;
      size := 0;
      mountpoint := "";
      var store := OfferPaths(mountpoints);
      offered := store;
    }

    /** on_add_confirm_clicked: the entry's mountpoint, and the size when Size accepts the text; otherwise the size is left as it was. */
    method OnAddConfirmClicked(entry: string, sizeText: string, parseSize: string -> Option<nat>)
      modifies this
      ensures mountpoint == entry && offered == old(offered)
      ensures size == (match parseSize(SizeSpec(sizeText)) case Some(n) => n case None => old(size))
    {
      mountpoint := entry;
      var t := Strip(sizeText);
      if !HasUnit(t) {
        t := t + "MB";
      }
      var parsed := parseSize(t);
      if parsed.Some? {
        size := parsed.value;
      }
    }
  }

  /** The loop that fills the dialog's mountpoint store. */
  method OfferPaths(mountpoints: seq<string>) returns (store: seq<string>)
    ensures store == Unused(DefaultPaths, mountpoints)
  {
    var paths := DefaultPaths;
    store := [];
    var i := 0;
    while i < |paths|
      invariant i <= |paths|
      invariant store == Unused(paths[..i], mountpoints)
    {
      assert paths[..i + 1][..i] == paths[..i];
      if paths[i] !in mountpoints {
        store := store + [paths[i]];
      }
      i := i + 1;
    }
    assert paths[..i] == paths;
  }

  // ----- on_add_clicked -----

  datatype DeviceType = TypeLvm | TypeMd | TypePlain | TypeBtrfs

  /** A disk of the spoke's device list. */
  datatype Device = Device(id: nat, name: string)

  /** The device on_add_clicked asks the storage to create. */
  datatype NewDevice = NewDevice(deviceType: DeviceType, size: nat, fstype: string, mountpoint: Option<string>,
                                 encrypted: bool, disks: seq<Device>)

  /** A swap "mountpoint" is no mountpoint. */
  function AddMountpoint(mountpoint: string): Option<string> {
    if ToLower(mountpoint) == "swap" then None else Some(mountpoint)
  }

  /** The type of the new device: the autopart type, except that /boot/efi is not put on LVM, and neither swap nor /boot on btrfs. */
  function AddDeviceType(autopartType: DeviceType, mountpoint: Option<string>, fstype: string): DeviceType {
    if autopartType == TypeLvm && mountpoint == Some("/boot/efi") then TypePlain
    else if autopartType == TypeBtrfs && (fstype == "swap" || (mountpoint.Some? && StartsWith(mountpoint.value, "/boot"))) then TypePlain
    else autopartType
  }

  /** The type changes, and only to a plain partition, exactly in the two cases the storage cannot take. */
  lemma AddDeviceTypeIff(autopartType: DeviceType, mountpoint: Option<string>, fstype: string)
    ensures AddDeviceType(autopartType, mountpoint, fstype) in {autopartType, TypePlain}
    ensures AddDeviceType(autopartType, mountpoint, fstype) != autopartType <==>
              (autopartType == TypeLvm && mountpoint == Some("/boot/efi")) ||
              (autopartType == TypeBtrfs && (fstype == "swap" || (mountpoint.Some? && StartsWith(mountpoint.value, "/boot"))))
  {
  }

  /** A swap mountpoint asked for on btrfs gets a plain partition when the storage types it as swap. */
  lemma SwapNeverOnBtrfs(mountpoint: string)
    requires ToLower(mountpoint) == "swap"
    ensures AddMountpoint(mountpoint) == None
    ensures AddDeviceType(TypeBtrfs, AddMountpoint(mountpoint), "swap") == TypePlain
    ensures AddDeviceType(TypeLvm, AddMountpoint(mountpoint), "swap") == TypeLvm
  {
  }

  /** _clearpartDevices: the spoke's devices on the drives to clear. */
  function ClearpartDevices(devices: seq<Device>, drives: seq<string>): seq<Device>
    decreases |devices|
  {
    if devices == [] then []
    else
      var d := devices[|devices| - 1];
      ClearpartDevices(devices[..|devices| - 1], drives) + (if d.name in drives then [d] else [])
  }

  lemma {:induction false} ClearpartDevicesIff(devices: seq<Device>, drives: seq<string>, d: Device)
    ensures d in ClearpartDevices(devices, drives) <==> d in devices && d.name in drives
    decreases |devices|
  {
    if devices != [] {
      var n := |devices| - 1;
      ClearpartDevicesIff(devices[..n], drives, d);
      assert devices == devices[..n] + [devices[n]];
    }
  }

  /**
   * on_add_clicked after the dialog: nothing unless it was confirmed
   * (response 1); then a device of the adjusted type, on the drives to
   * clear, with the filesystem type the storage picks for the mountpoint.
   */
  method OnAddClicked(rc: int, dialogMountpoint: string, dialogSize: nat, fsTypeFor: string -> string,
                      encrypted: bool, autopartType: DeviceType, devices: seq<Device>, drives: seq<string>)
    returns (created: Option<NewDevice>)
    ensures rc != 1 <==> created.None?
    ensures created.Some? ==>
              var mp := AddMountpoint(dialogMountpoint);
              var fstype := fsTypeFor(dialogMountpoint);
              created.value == NewDevice(AddDeviceType(autopartType, mp, fstype), dialogSize, fstype, mp,
                                         encrypted, ClearpartDevices(devices, drives))
  {
    if rc != 1 {
      return None;
    }
    var mountpoint: Option<string> := Some(dialogMountpoint);
    var fstype := fsTypeFor(dialogMountpoint);
    if ToLower(dialogMountpoint) == "swap" {
      mountpoint := None;
    }
    var deviceType := autopartType;
    if deviceType == TypeLvm && mountpoint == Some("/boot/efi") {
      deviceType := TypePlain;
    } else if deviceType == TypeBtrfs && (fstype == "swap" || (mountpoint.Some? && StartsWith(mountpoint.value, "/boot"))) {
      deviceType := TypePlain;
    }
    var disks := [];
    var i := 0;
    while i < |devices|
      invariant i <= |devices|
      invariant disks == ClearpartDevices(devices[..i], drives)
    {
      assert devices[..i + 1][..i] == devices[..i];
      if devices[i].name in drives {
        disks := disks + [devices[i]];
      }
      i := i + 1;
    }
    assert devices[..i] == devices;
    created := Some(NewDevice(deviceType, dialogSize, fstype, mountpoint, encrypted, disks));
  }

  // ----- _remove_from_root -----

  /** An existing installation found on the disks: its swap devices and its mountpoints. */
  class Root {
    var swaps: seq<nat>
    var mounts: map<string, nat>

    constructor(swaps: seq<nat>, mounts: map<string, nat>)
      ensures this.swaps == swaps && this.mounts == mounts
    {
      this.swaps := swaps;
      this.mounts := mounts;
    }
  }

  /** list.remove: the first occurrence goes. */
  function RemoveFirst(s: seq<nat>, x: nat): (r: seq<nat>)
    ensures x !in s ==> r == s
    ensures x in s ==> |r| == |s| - 1
    ensures forall y :: y in s && y != x ==> y in r
    ensures forall y :: y in r ==> y in s
  {
    if s == [] then []
    else if s[0] == x then s[1..]
    else [s[0]] + RemoveFirst(s[1..], x)
  }

  /** The mounts left when every mountpoint of the device is popped. */
  function Unmounted(mounts: map<string, nat>, device: nat): (r: map<string, nat>)
    ensures device !in r.Values
  {
    map m | m in mounts && mounts[m] != device :: mounts[m]
  }

  /**
   * _remove_from_root: a device used as swap leaves the swap list (its
   * first entry); otherwise each of its mountpoints goes; with no root
   * nothing happens.
   */
  method RemoveFromRoot(root: Root?, device: nat)
    modifies root
    ensures root != null && device in old(root.swaps) ==> root.swaps == RemoveFirst(old(root.swaps), device) && root.mounts == old(root.mounts)
    ensures root != null && device !in old(root.swaps) ==> root.swaps == old(root.swaps) && root.mounts == Unmounted(old(root.mounts), device)
  {
    if root == null {
      return;
    }
    if device in root.swaps {
      root.swaps := RemoveFirst(root.swaps, device);
    } else if device in root.mounts.Values {
      var mountpoints := set m | m in root.mounts && root.mounts[m] == device;
      ghost var before := root.mounts;
      while mountpoints != {}
        invariant mountpoints <= before.Keys
        invariant forall m :: m in mountpoints ==> before[m] == device
        invariant root.mounts == map m | m in before && (before[m] != device || m in mountpoints) :: before[m]
        invariant root.swaps == old(root.swaps)
        decreases mountpoints
      {
        var m :| m in mountpoints;
        root.mounts := map k | k in root.mounts && k != m :: root.mounts[k];
        mountpoints := mountpoints - {m};
      }
      assert root.mounts == Unmounted(before, device);
    } else {
      assert root.mounts == Unmounted(root.mounts, device) by {
        forall m | m in root.mounts ensures root.mounts[m] != device {
          assert root.mounts[m] in root.mounts.Values;
        }
      }
    }
  }

  /** Removing from the mounts keeps every other mountpoint as it was and no mountpoint of the device. */
  lemma UnmountedIff(mounts: map<string, nat>, device: nat, m: string)
    ensures m in Unmounted(mounts, device) <==> m in mounts && mounts[m] != device
    ensures m in Unmounted(mounts, device) ==> Unmounted(mounts, device)[m] == mounts[m]
  {
  }

  // ----- _propagate_actions -----

  /** An action of the dialog's device tree: the device it acts on and its kind. */
  datatype UiAction = UiAction(deviceId: nat, isCreate: bool, isDevice: bool, isResize: bool, isFormat: bool)

  /** One action: skipped when its device is not in the main tree unless it creates a device still in the spoke's list; registering a device creation puts the device in the tree. */
  function PropagateStep(state: (set<nat>, seq<UiAction>), a: UiAction, uiDevices: seq<nat>): (set<nat>, seq<UiAction>) {
    var (ids, registered) := state;
    if a.deviceId !in ids && (!a.isCreate || a.deviceId !in uiDevices) then state
    else ((if a.isCreate && a.isDevice then ids + {a.deviceId} else ids), registered + [a])
  }

  function Propagate(actions: seq<UiAction>, ids: set<nat>, uiDevices: seq<nat>): (set<nat>, seq<UiAction>)
    decreases |actions|
  {
    if actions == [] then (ids, [])
    else PropagateStep(Propagate(actions[..|actions| - 1], ids, uiDevices), actions[|actions| - 1], uiDevices)
  }

  /**
   * A device created in the dialog and destroyed again before it is
   * applied (in neither the main tree nor the spoke's list) never has an
   * action registered, and never enters the main tree.
   */
  lemma {:induction false} PropagateSkipsVanished(actions: seq<UiAction>, ids: set<nat>, uiDevices: seq<nat>, d: nat)
    requires d !in ids && d !in uiDevices
    ensures d !in Propagate(actions, ids, uiDevices).0
    ensures forall a :: a in Propagate(actions, ids, uiDevices).1 ==> a.deviceId != d
    decreases |actions|
  {
    if actions != [] {
      PropagateSkipsVanished(actions[..|actions| - 1], ids, uiDevices, d);
    }
  }

  /** Every action on a device of the main tree is registered; every registered action is one of the dialog's, and the tree only grows. */
  lemma {:induction false} PropagateKeepsExisting(actions: seq<UiAction>, ids: set<nat>, uiDevices: seq<nat>)
    ensures ids <= Propagate(actions, ids, uiDevices).0
    ensures forall a :: a in actions && a.deviceId in ids ==> a in Propagate(actions, ids, uiDevices).1
    ensures forall a :: a in Propagate(actions, ids, uiDevices).1 ==> a in actions
    decreases |actions|
  {
    if actions != [] {
      var n := |actions| - 1;
      PropagateKeepsExisting(actions[..n], ids, uiDevices);
      assert actions == actions[..n] + [actions[n]];
    }
  }

  /** _propagate_actions: the actions registered with the main device tree, in order. */
  method PropagateActions(actions: seq<UiAction>, ids: set<nat>, uiDevices: seq<nat>) returns (registered: seq<UiAction>)
    ensures registered == Propagate(actions, ids, uiDevices).1
  {
    var tree := ids;
    registered := [];
    var i := 0;
    while i < |actions|
      invariant i <= |actions|
      invariant (tree, registered) == Propagate(actions[..i], ids, uiDevices)
    {
      assert actions[..i + 1][..i] == actions[..i];
      var a := actions[i];
      if a.deviceId in tree || (a.isCreate && a.deviceId in uiDevices) {
        if a.isCreate && a.isDevice {
          tree := tree + {a.deviceId};
        }
        registered := registered + [a];
      }
      i := i + 1;
    }
    assert actions[..i] == actions;
  }
}
