/**
 * The installation destination spoke (storage.py): which disks it offers,
 * the selection the user makes among them, the status it shows, what
 * apply writes into the kickstart data and the device tree, and which
 * installation-options dialog continue opens. Disks, free space and the
 * space the payload needs come from the storage code, as inputs.
 */
module StorageSpoke {
  import opened Wrappers
  import opened Strings

  /** A device of the device tree, with what the spoke looks at. */
  datatype Disk = Disk(name: string, isDisk: bool, hidden: bool, protected: bool, removable: bool, size: nat)

  /** A disk the spoke offers: a disk whose format is not hidden, and not one that is both protected and removable. */
  predicate Offered(d: Disk) {
    d.isDisk && !d.hidden && !(d.protected && d.removable)
  }

  /** The three made-up disks offered in fake mode. */
  const FakeDisks: seq<Disk> := [
    Disk("sda", true, false, false, false, 300000),
    Disk("sdb", true, false, false, false, 300000),
    Disk("sdc", true, false, false, true, 8000)
  ]

  function Offer(devices: seq<Disk>): seq<Disk>
    decreases |devices|
  {
    if devices == [] then []
    else
      var d := devices[|devices| - 1];
      Offer(devices[..|devices| - 1]) + (if Offered(d) then [d] else [])
  }

  /** getDisks: the offered devices of the tree, in its order, or the fake disks. */
  function GetDisks(devices: seq<Disk>, fake: bool): seq<Disk> {
    if fake then FakeDisks else Offer(devices)
  }

  /** A device is offered exactly when it is in the tree and passes the filter; the list is never longer than the tree. */
  lemma {:induction false} OfferIff(devices: seq<Disk>, d: Disk)
    ensures d in Offer(devices) <==> d in devices && Offered(d)
    ensures |Offer(devices)| <= |devices|
    decreases |devices|
  {
    if devices != [] {
      var n := |devices| - 1;
      OfferIff(devices[..n], d);
      assert devices == devices[..n] + [devices[n]];
    }
  }

  /** A protected removable disk, such as the install medium, is never offered outside fake mode. */
  lemma ProtectedRemovableHidden(devices: seq<Disk>, d: Disk)
    requires d.protected && d.removable
    ensures d !in GetDisks(devices, false)
  {
    OfferIff(devices, d);
  }

  // ----- the selection -----

  /** The offered disks whose names are selected, in the order offered. */
  function SelectedOf(disks: seq<Disk>, selected: seq<string>): seq<Disk>
    decreases |disks|
  {
    if disks == [] then []
    else
      var d := disks[|disks| - 1];
      SelectedOf(disks[..|disks| - 1], selected) + (if d.name in selected then [d] else [])
  }

  lemma {:induction false} SelectedOfIff(disks: seq<Disk>, selected: seq<string>, d: Disk)
    ensures d in SelectedOf(disks, selected) <==> d in disks && d.name in selected
    decreases |disks|
  {
    if disks != [] {
      var n := |disks| - 1;
      SelectedOfIff(disks[..n], selected, d);
      assert disks == disks[..n] + [disks[n]];
    }
  }

  /** The count is zero exactly when no offered disk is selected. */
  lemma SelectedOfEmpty(disks: seq<Disk>, selected: seq<string>)
    ensures SelectedOf(disks, selected) == [] <==> forall i :: 0 <= i < |disks| ==> disks[i].name !in selected
  {
    if SelectedOf(disks, selected) == [] {
      forall i | 0 <= i < |disks| ensures disks[i].name !in selected {
        SelectedOfIff(disks, selected, disks[i]);
      }
    } else {
      var d := SelectedOf(disks, selected)[0];
      SelectedOfIff(disks, selected, d);
      var i :| 0 <= i < |disks| && disks[i] == d;
    }
  }

  function Capacity(disks: seq<Disk>): nat
    decreases |disks|
  {
    if disks == [] then 0 else Capacity(disks[..|disks| - 1]) + disks[|disks| - 1].size
  }

  /** A disk overview in the spoke: the disk's name and whether it is chosen. */
  datatype Overview = Overview(name: string, chosen: bool)

  /** list.remove: the first occurrence goes. */
  function RemoveFirst(s: seq<string>, x: string): (r: seq<string>)
    ensures x !in s ==> r == s
    ensures x in s ==> |r| == |s| - 1
    ensures forall y :: y in r ==> y in s
    ensures forall y :: y in s && y != x ==> y in r
  {
    if s == [] then []
    else if s[0] == x then s[1..]
    else [s[0]] + RemoveFirst(s[1..], x)
  }

  predicate NoDuplicates(s: seq<string>) {
    forall i, j :: 0 <= i < j < |s| ==> s[i] != s[j]
  }

  /** Removing from a list without duplicates removes the name entirely and adds none. */
  lemma {:induction false} RemoveFirstDistinct(s: seq<string>, x: string)
    requires NoDuplicates(s)
    ensures NoDuplicates(RemoveFirst(s, x)) && x !in RemoveFirst(s, x)
  {
    if s != [] && s[0] != x {
      RemoveFirstDistinct(s[1..], x);
      assert s[0] !in s[1..];
    }
  }

  /** One overview's effect on the selection. */
  function OverviewStep(selected: seq<string>, o: Overview): seq<string> {
    var s := if o.chosen && o.name !in selected then selected + [o.name] else selected;
    if !o.chosen && o.name in s then RemoveFirst(s, o.name) else s
  }

  function UpdateDiskList(selected: seq<string>, overviews: seq<Overview>): seq<string>
    decreases |overviews|
  {
    if overviews == [] then selected
    else OverviewStep(UpdateDiskList(selected, overviews[..|overviews| - 1]), overviews[|overviews| - 1])
  }

  /** Whether the last overview of a name is chosen, if there is one. */
  function LastChoice(overviews: seq<Overview>, name: string): Option<bool>
    decreases |overviews|
  {
    if overviews == [] then None
    else if overviews[|overviews| - 1].name == name then Some(overviews[|overviews| - 1].chosen)
    else LastChoice(overviews[..|overviews| - 1], name)
  }

  lemma OverviewStepFacts(selected: seq<string>, o: Overview, n: string)
    requires NoDuplicates(selected)
    ensures NoDuplicates(OverviewStep(selected, o))
    ensures n in OverviewStep(selected, o) <==> (if n == o.name then o.chosen else n in selected)
  {
    var s := if o.chosen && o.name !in selected then selected + [o.name] else selected;
    if !o.chosen && o.name in s {
      RemoveFirstDistinct(s, o.name);
    }
  }

  /**
   * The selection never holds a name twice, a name whose overviews are
   * shown ends up selected exactly when its last overview is chosen, and
   * other names keep their state.
   */
  lemma {:induction false} UpdateDiskListIff(selected: seq<string>, overviews: seq<Overview>, n: string)
    requires NoDuplicates(selected)
    ensures NoDuplicates(UpdateDiskList(selected, overviews))
    ensures n in UpdateDiskList(selected, overviews) <==>
              match LastChoice(overviews, n) case Some(c) => c case None => n in selected
    decreases |overviews|
  {
    if overviews != [] {
      var k := |overviews| - 1;
      UpdateDiskListIff(selected, overviews[..k], n);
      OverviewStepFacts(UpdateDiskList(selected, overviews[..k]), overviews[k], n);
    }
  }

  // ----- the status line -----

  /** The status: no disks, then storage errors, then the partitioning chosen. */
  function Status(onlyuse: seq<string>, errors: seq<string>, autopart: bool): string {
    if onlyuse == [] then "No disks selected"
    else if errors != [] then "Error checking storage configuration"
    else if autopart then "Automatic partitioning selected"
    else "Custom partitioning selected"
  }

  /** Each status text is shown in exactly one situation. */
  lemma StatusIff(onlyuse: seq<string>, errors: seq<string>, autopart: bool)
    ensures Status(onlyuse, errors, autopart) == "No disks selected" <==> onlyuse == []
    ensures Status(onlyuse, errors, autopart) == "Error checking storage configuration" <==> onlyuse != [] && errors != []
    ensures Status(onlyuse, errors, autopart) == "Automatic partitioning selected" <==> onlyuse != [] && errors == [] && autopart
    ensures Status(onlyuse, errors, autopart) == "Custom partitioning selected" <==> onlyuse != [] && errors == [] && !autopart
  {
  }

  // ----- the options dialog -----

  /** The dialogs continue may open. */
  datatype OptionsDialog = Options1 | Options2 | Options3

  /** A new filesystem's device: whether its format exists, the free space the format reports if any, and the device's size. */
  datatype MountDevice = MountDevice(formatExists: bool, formatFree: Option<nat>, size: nat)

  /** Only `/` and mountpoints under `/usr` or `/var` count as system mounts. */
  predicate SystemMount(mountpoint: string) {
    mountpoint == "/" || StartsWith(mountpoint, "/usr") || StartsWith(mountpoint, "/var")
  }

  function MountFree(d: MountDevice): nat {
    if d.formatExists then (if d.formatFree.Some? then d.formatFree.value else 0) else d.size
  }

  /** The space of the system filesystems: free space of an existing format, the whole size of a new one. */
  function NewFree(mounts: seq<(string, MountDevice)>): nat
    decreases |mounts|
  {
    if mounts == [] then 0
    else
      var m := mounts[|mounts| - 1];
      NewFree(mounts[..|mounts| - 1]) + (if SystemMount(m.0) then MountFree(m.1) else 0)
  }

  function SystemMounts(mounts: seq<(string, MountDevice)>): seq<(string, MountDevice)>
    decreases |mounts|
  {
    if mounts == [] then []
    else
      var m := mounts[|mounts| - 1];
      SystemMounts(mounts[..|mounts| - 1]) + (if SystemMount(m.0) then [m] else [])
  }

  function AllFree(mounts: seq<(string, MountDevice)>): nat
    decreases |mounts|
  {
    if mounts == [] then 0 else AllFree(mounts[..|mounts| - 1]) + MountFree(mounts[|mounts| - 1].1)
  }

  /** The new space is that of the system mounts alone: other mounts add nothing. */
  lemma {:induction false} NewFreeSystemOnly(mounts: seq<(string, MountDevice)>)
    ensures NewFree(mounts) == AllFree(SystemMounts(mounts))
    decreases |mounts|
  {
    if mounts != [] {
      var n := |mounts| - 1;
      NewFreeSystemOnly(mounts[..n]);
      var prev := SystemMounts(mounts[..n]);
      var m := mounts[n];
      if SystemMount(m.0) {
        assert SystemMounts(mounts) == prev + [m];
        assert (prev + [m])[..|prev|] == prev;
        assert AllFree(prev + [m]) == AllFree(prev) + MountFree(m.1);
      } else {
        assert SystemMounts(mounts) == prev;
      }
    }
  }

  function SumFirst(free: seq<(nat, nat)>): nat
    decreases |free|
  {
    if free == [] then 0 else SumFirst(free[..|free| - 1]) + free[|free| - 1].0
  }

  function SumSecond(free: seq<(nat, nat)>): nat
    decreases |free|
  {
    if free == [] then 0 else SumSecond(free[..|free| - 1]) + free[|free| - 1].1
  }

  /** The dialog: enough free space, or else enough disk space once partitions are reclaimed, or neither. */
  function ChooseDialog(diskFree: nat, newFree: nat, diskTotal: nat, required: nat): OptionsDialog {
    if diskFree + newFree >= required then Options1
    else if diskTotal >= required then Options2
    else Options3
  }

  /** Each dialog answers exactly one space situation. */
  lemma ChooseDialogIff(diskFree: nat, newFree: nat, diskTotal: nat, required: nat)
    ensures ChooseDialog(diskFree, newFree, diskTotal, required) == Options1 <==> diskFree + newFree >= required
    ensures ChooseDialog(diskFree, newFree, diskTotal, required) == Options2 <==> diskFree + newFree < required <= diskTotal
    ensures ChooseDialog(diskFree, newFree, diskTotal, required) == Options3 <==> diskFree + newFree < required && diskTotal < required
  {
  }

  /** A larger requirement never gives a dialog with more room: the choice is monotone in the space required. */
  lemma ChooseDialogMonotone(diskFree: nat, newFree: nat, diskTotal: nat, r1: nat, r2: nat)
    requires r1 <= r2
    ensures ChooseDialog(diskFree, newFree, diskTotal, r1) == Options3 ==> ChooseDialog(diskFree, newFree, diskTotal, r2) == Options3
    ensures ChooseDialog(diskFree, newFree, diskTotal, r2) == Options1 ==> ChooseDialog(diskFree, newFree, diskTotal, r1) == Options1
  {
  }

  /** The dialogs' responses. */
  const ResponseCancel := 0
  const ResponseContinue := 1
  const ResponseModifySw := 2
  const ResponseReclaim := 3
  const ResponseQuit := 4

  /** Where continue leads: back to the hub, staying on the spoke, or out of the installer. */
  datatype ContinueOutcome = BackToHub | StayOnSpoke | QuitInstaller

  datatype ClearPartType = ClearNone | ClearAll
  datatype AutopartType = AutopartPlain | AutopartLvm

  /** The kickstart data the spoke reads and writes: ignoredisk's onlyuse, clearpart's drives, initAll and type, autopart and its type, the boot loader's location. */
  datatype KsStorage = KsStorage(onlyuse: seq<string>, drives: seq<string>, autopart: bool, autopartType: AutopartType,
                                 bootloaderLocation: string, clearpartInitAll: bool, clearpartType: ClearPartType)

  /** The storage as apply leaves it: the names of the disks in the device tree, the autopart type and whether non-existent devices are cleared. */
  datatype StorageConfig = StorageConfig(visible: set<string>, autoPartType: AutopartType, clearNonExistent: bool)

  /** The spoke, with the part of the kickstart data and the device tree it changes. */
  class StorageSpoke {
    var selectedDisks: seq<string>
    var autopart: bool
    var clearPartType: ClearPartType
    var disks: seq<Disk>
    var errors: seq<string>
    var skipTo: Option<string>
    var continueSensitive: bool
    var summarySensitive: bool
    var noDisksWarning: bool
    var data: KsStorage
    var storage: StorageConfig

    /** __init__: the selection starts from the kickstart's onlyuse; interactive installs default to autopart. */
    constructor(data: KsStorage, automatedInstall: bool, storage: StorageConfig)
      ensures this.data == data.(autopart := data.autopart || !automatedInstall) && this.storage == storage
      ensures selectedDisks == data.onlyuse && autopart == (data.autopart || !automatedInstall)
      ensures clearPartType == ClearNone && disks == [] && errors == [] && skipTo == None
    {
      selectedDisks := data.onlyuse;
      var ksAutopart := if !automatedInstall then true else data.autopart;
      this.data := data.(autopart := ksAutopart);
      autopart := ksAutopart;
      clearPartType := ClearNone;
      disks := [];
      errors := [];
      skipTo := None;
      continueSensitive := false;
      summarySensitive := false;
      noDisksWarning := false;
      this.storage := storage;
    }

    /** _initialize: the disks offered are read once from the device tree. */
    method Initialize(devices: seq<Disk>)
      modifies this
      ensures disks == GetDisks(devices, false)
      ensures selectedDisks == old(selectedDisks) && data == old(data) && storage == old(storage)
      ensures continueSensitive == (SelectedOf(disks, selectedDisks) != []) && summarySensitive == continueSensitive
      ensures noDisksWarning == (SelectedOf(disks, selectedDisks) == [])
    {
      disks := Offer(devices);
      var count, capacity := UpdateSummary();
    }

    /** _update_summary: the number of selected disks and their capacity; continue and the summary are enabled only with at least one. */
    method UpdateSummary() returns (count: nat, capacity: nat)
      modifies this
      ensures count == |SelectedOf(disks, selectedDisks)| && capacity == Capacity(SelectedOf(disks, selectedDisks))
      ensures continueSensitive == (count > 0) && summarySensitive == (count > 0) && noDisksWarning == (count == 0)
      ensures selectedDisks == old(selectedDisks) && disks == old(disks) && data == old(data) && storage == old(storage)
      ensures autopart == old(autopart) && errors == old(errors) && skipTo == old(skipTo)
    {
      var selected := [];
      count := 0;
      capacity := 0;
      var i := 0;
      while i < |disks|
        invariant i <= |disks|
        invariant selected == SelectedOf(disks[..i], selectedDisks)
        invariant count == |selected| && capacity == Capacity(selected)
      {
        assert disks[..i + 1][..i] == disks[..i];
        if disks[i].name in selectedDisks {
          assert (selected + [disks[i]])[..|selected|] == selected;
          selected := selected + [disks[i]];
          capacity := capacity + disks[i].size;
          count := count + 1;
        }
        i := i + 1;
      }
      assert disks[..i] == disks;
      noDisksWarning := count == 0;
      continueSensitive := count > 0;
      summarySensitive := count > 0;
    }

    /** _update_disk_list: chosen names not yet selected are appended, unchosen selected ones removed. */
    method UpdateDiskListFrom(overviews: seq<Overview>)
      modifies this
      ensures selectedDisks == UpdateDiskList(old(selectedDisks), overviews)
      ensures disks == old(disks) && data == old(data) && storage == old(storage) && autopart == old(autopart)
    {
      var i := 0;
      while i < |overviews|
        invariant i <= |overviews|
        invariant selectedDisks == UpdateDiskList(old(selectedDisks), overviews[..i])
        invariant disks == old(disks) && data == old(data) && storage == old(storage) && autopart == old(autopart)
      {
        assert overviews[..i + 1][..i] == overviews[..i];
        var name := overviews[i].name;
        var chosen := overviews[i].chosen;
        if chosen && name !in selectedDisks {
          selectedDisks := selectedDisks + [name];
        }
        if !chosen && name in selectedDisks {
          selectedDisks := RemoveFirst(selectedDisks, name);
        }
        i := i + 1;
      }
      assert overviews[..i] == overviews;
    }

    /** The status line, read from the kickstart data. */
    function StatusText(): string
      reads this
    {
      Status(data.onlyuse, errors, data.autopart)
    }

    /** apply: the selection goes into onlyuse and the drives to clear, autopart into the data, and the device tree shows exactly the selected offered disks. */
    method Apply()
      modifies this
      ensures data == KsStorage(old(selectedDisks), old(selectedDisks), old(autopart), AutopartPlain, "mbr", true, clearPartType)
      ensures clearPartType == (if old(autopart) then ClearAll else ClearNone)
      ensures storage == StorageConfig(Visibility(old(storage.visible), disks, selectedDisks), AutopartPlain, old(autopart))
      ensures selectedDisks == old(selectedDisks) && disks == old(disks) && autopart == old(autopart)
      ensures errors == old(errors) && skipTo == old(skipTo)
    {
      if autopart {
        clearPartType := ClearAll;
      } else {
        clearPartType := ClearNone;
      }
      var visible := HideAndUnhide(storage.visible, disks, selectedDisks);
      data := KsStorage(selectedDisks, selectedDisks, autopart, AutopartPlain, "mbr", true, clearPartType);
      storage := StorageConfig(visible, data.autopartType, data.autopart);
    }

    /**
     * on_continue_clicked: the dialog is chosen from the space of the
     * selected disks; continue sets autopart from the dialog's custom
     * check and, like reclaim, jumps to custom partitioning when it is
     * set; quit leaves the installer.
     */
    method OnContinueClicked(freeSpace: seq<(nat, nat)>, mounts: seq<(string, MountDevice)>, required: nat,
                             rc: int, custom: bool) returns (dialog: OptionsDialog, outcome: ContinueOutcome)
      modifies this
      ensures dialog == ChooseDialog(SumFirst(freeSpace), NewFree(mounts), Capacity(SelectedOf(disks, selectedDisks)), required)
      ensures outcome == (if rc == ResponseContinue || rc == ResponseReclaim then BackToHub
                          else if rc == ResponseQuit then QuitInstaller else StayOnSpoke)
      ensures autopart == (if rc == ResponseContinue then !custom else old(autopart))
      ensures skipTo == (if (rc == ResponseContinue || rc == ResponseReclaim) && custom then Some("CustomPartitioningSpoke") else old(skipTo))
      ensures selectedDisks == old(selectedDisks) && disks == old(disks) && data == old(data) && storage == old(storage)
    {
      var selected := SelectedOf(disks, selectedDisks);
      var diskFree := SumFirst(freeSpace);
      var newFree := NewFree(mounts);
      if diskFree + newFree >= required {
        dialog := Options1;
      } else if Capacity(selected) >= required {
        dialog := Options2;
      } else {
        dialog := Options3;
      }
      outcome := StayOnSpoke;
      if rc == ResponseContinue {
        autopart := !custom;
        if custom {
          skipTo := Some("CustomPartitioningSpoke");
        }
        outcome := BackToHub;
      } else if rc == ResponseReclaim {
        if custom {
          skipTo := Some("CustomPartitioningSpoke");
        }
        outcome := BackToHub;
      } else if rc == ResponseQuit {
        outcome := QuitInstaller;
      }
    }
  }

  /** The effect of apply's loop on the visible devices. */
  function Visibility(visible: set<string>, disks: seq<Disk>, selected: seq<string>): set<string>
    decreases |disks|
  {
    if disks == [] then visible
    else
      var v := Visibility(visible, disks[..|disks| - 1], selected);
      var name := disks[|disks| - 1].name;
      if name !in selected && name in v then v - {name}
      else if name in selected && name !in v then v + {name}
      else v
  }

  /** apply's loop over the offered disks: hide each unselected one still in the tree, unhide each selected one missing from it. */
  method HideAndUnhide(visible: set<string>, disks: seq<Disk>, selected: seq<string>) returns (v: set<string>)
    ensures v == Visibility(visible, disks, selected)
  {
    v := visible;
    var i := 0;
    while i < |disks|
      invariant i <= |disks|
      invariant v == Visibility(visible, disks[..i], selected)
    {
      assert disks[..i + 1][..i] == disks[..i];
      var name := disks[i].name;
      if name !in selected && name in v {
        v := v - {name};
      } else if name in selected && name !in v {
        v := v + {name};
      }
      i := i + 1;
    }
    assert disks[..i] == disks;
  }

  /** After apply, an offered disk is in the tree exactly when it is selected; other devices are untouched. */
  lemma {:induction false} VisibilityIff(visible: set<string>, disks: seq<Disk>, selected: seq<string>, n: string)
    ensures n in Visibility(visible, disks, selected) <==>
              if exists i :: 0 <= i < |disks| && disks[i].name == n then n in selected else n in visible
    decreases |disks|
  {
    if disks != [] {
      var k := |disks| - 1;
      VisibilityIff(visible, disks[..k], selected, n);
      if exists i :: 0 <= i < |disks| && disks[i].name == n {
        var i :| 0 <= i < |disks| && disks[i].name == n;
        if i < k && n != disks[k].name {
          assert disks[..k][i].name == n;
        }
      }
      if exists i :: 0 <= i < k && disks[..k][i].name == n {
        var i :| 0 <= i < k && disks[..k][i].name == n;
        assert disks[i].name == n;
      }
    }
  }
}
