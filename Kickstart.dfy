/**
 * The installer's kickstart handlers (kickstart.py): the partition, RAID,
 * volume-group and logical-volume commands with their id bookkeeping, the
 * install class's request list, the choice of installer steps to skip or
 * show, the dispatch of a parsed command line, and the %ksappend rewrite.
 *
 * pykickstart's option parsing, which turns a command line into the
 * PartitionData/RaidData/... records, is not part of this model: the
 * handlers receive those records already parsed.
 */
module Kickstart {
  import opened Wrappers
  import opened Strings

  /** AsWritten follows the code line by line; Corrected repairs the findings listed in the README. */
  datatype Variant = AsWritten | Corrected

  /** The first unique id handed out to RAID members, physical volumes and volume groups. */
  const FirstId: nat := 100000

  /** The steps every storage command asks to skip. */
  const PartitionSteps: seq<string> := ["partition", "zfcpconfig", "parttype"]

  // ---------------------------------------------------------------------
  // Requests and Kickstart.addPartRequest
  // ---------------------------------------------------------------------

  /** fileSystemTypeGet(name), or fileSystemTypeGetDefault(). */
  datatype FsType = FsNamed(name: string) | FsDefault

  /** The partitioning requests the handlers build (partRequests' four request kinds). */
  datatype Request =
    | PartitionRequest(fs: FsType, mountpoint: string, size: Option<int>, start: int, end: int,
                       grow: bool, maxSizeMB: int, drive: Option<string>, primary: bool,
                       uniqueID: Option<nat>, device: Option<string>)
    | RaidRequest(fs: FsType, mountpoint: string, members: seq<nat>, level: string, preexist: bool,
                  uniqueID: Option<nat>, device: Option<string>)
    | VolumeGroupRequest(vgname: string, physvols: seq<nat>, preexist: bool, pesize: int, uniqueID: Option<nat>)
    | LogicalVolumeRequest(fs: FsType, mountpoint: string, lvSize: int, percent: int, volgroup: nat,
                           lvname: string, grow: bool, maxSizeMB: int, preexist: bool)

  /** A volume group has no mount point. */
  function MountOf(r: Request): string {
    if r.VolumeGroupRequest? then "" else r.mountpoint
  }

  /** Only partitions and RAID devices name a device node. */
  function DeviceOf(r: Request): Option<string> {
    if r.PartitionRequest? || r.RaidRequest? then r.device else None
  }

  /** The non-empty mount points of a request list are pairwise distinct. */
  predicate UniqueMounts(reqs: seq<Request>) {
    forall i, j :: 0 <= i < j < |reqs| && MountOf(reqs[i]) != "" ==> MountOf(reqs[i]) != MountOf(reqs[j])
  }

  /** The index of the first request mounted at `mp`. */
  function FirstMountedAt(reqs: seq<Request>, mp: string): (r: Option<nat>)
    ensures r.Some? ==> r.value < |reqs| && MountOf(reqs[r.value]) == mp
    ensures r.Some? ==> forall j :: 0 <= j < r.value ==> MountOf(reqs[j]) != mp
    ensures r.None? ==> forall j :: 0 <= j < |reqs| ==> MountOf(reqs[j]) != mp
  {
    if reqs == [] then None
    else if MountOf(reqs[0]) == mp then Some(0)
    else match FirstMountedAt(reqs[1..], mp)
      case None => None
      case Some(i) => Some(i + 1)
  }

  /**
   * The request list after addPartRequest: a request without a mount point is
   * appended; otherwise the first request with the same mount point is
   * removed first, so a later line overrides an earlier one (or autopart's).
   */
  function Added(reqs: seq<Request>, request: Request): seq<Request> {
    if MountOf(request) == "" then reqs + [request]
    else match FirstMountedAt(reqs, MountOf(request))
      case None => reqs + [request]
      case Some(i) => reqs[..i] + reqs[i + 1..] + [request]
  }

  /** The new request ends the list; every request on another mount point (or on none) stays. */
  lemma AddedKeepsOthers(reqs: seq<Request>, request: Request)
    ensures var r := Added(reqs, request); r != [] && r[|r| - 1] == request
    ensures forall x :: x in reqs && (MountOf(x) == "" || MountOf(x) != MountOf(request)) ==> x in Added(reqs, request)
    ensures |Added(reqs, request)| == if MountOf(request) != "" && FirstMountedAt(reqs, MountOf(request)).Some?
                                      then |reqs| else |reqs| + 1
  {
    if MountOf(request) != "" && FirstMountedAt(reqs, MountOf(request)).Some? {
      var i := FirstMountedAt(reqs, MountOf(request)).value;
      RemovedKeepsOthers(reqs, i, request);
    }
  }

  /** Dropping the request at `i` and appending `request` keeps every request on another mount point. */
  lemma RemovedKeepsOthers(reqs: seq<Request>, i: nat, request: Request)
    requires i < |reqs| && MountOf(reqs[i]) == MountOf(request)
    ensures forall x :: x in reqs && MountOf(x) != MountOf(request) ==> x in reqs[..i] + reqs[i + 1..] + [request]
  {
    var r := reqs[..i] + reqs[i + 1..] + [request];
    forall x | x in reqs && MountOf(x) != MountOf(request)
      ensures x in r
    {
      var k :| 0 <= k < |reqs| && reqs[k] == x;
      if k < i {
        assert r[k] == x;
      } else {
        assert r[k - 1] == x;
      }
    }
  }

  /** Distinct mount points stay distinct, and the new request is the only one at its mount point. */
  lemma {:induction false} AddedOverrides(reqs: seq<Request>, request: Request)
    requires UniqueMounts(reqs)
    ensures UniqueMounts(Added(reqs, request))
    ensures MountOf(request) != "" ==>
              forall j :: 0 <= j < |Added(reqs, request)| - 1 ==> MountOf(Added(reqs, request)[j]) != MountOf(request)
  {
    var r := Added(reqs, request);
    var mp := MountOf(request);
    if mp == "" {
      assert r == reqs + [request];
    } else {
      match FirstMountedAt(reqs, mp)
      case None =>
        assert r == reqs + [request];
      case Some(i) =>
        var rest := reqs[..i] + reqs[i + 1..];
        assert r == rest + [request];
        assert forall j :: 0 <= j < |rest| ==> rest[j] == if j < i then reqs[j] else reqs[j + 1];
        forall j | 0 <= j < |rest|
          ensures MountOf(rest[j]) != mp
        {
          if j >= i {
            assert MountOf(reqs[i]) == mp && i < j + 1;
          }
        }
    }
  }

  /** The request list of the partitioning state (id.partitions). */
  class Partitions {
    var autoPartitionRequests: seq<Request>
    var isKickstart: bool

    constructor (reqs: seq<Request>)
      ensures autoPartitionRequests == reqs && !isKickstart
    {
      autoPartitionRequests := reqs;
      isKickstart := false;
    }
  }

  /** Kickstart.addPartRequest: the list is edited in place. */
  method AddPartRequest(parts: Partitions, request: Request)
    modifies parts
    ensures parts.autoPartitionRequests == Added(old(parts.autoPartitionRequests), request)
    ensures parts.isKickstart == old(parts.isKickstart)
  {
    var reqs := parts.autoPartitionRequests;
    if MountOf(request) == "" {
      parts.autoPartitionRequests := reqs + [request];
      return;
    }
    var i := 0;
    var found := false;
    while i < |reqs| && !found
      invariant 0 <= i <= |reqs|
      invariant forall j :: 0 <= j < i ==> MountOf(reqs[j]) != MountOf(request)
      invariant found ==> i < |reqs| && MountOf(reqs[i]) == MountOf(request)
      decreases |reqs| - i, if found then 0 else 1
    {
      if MountOf(reqs[i]) != "" && MountOf(reqs[i]) == MountOf(request) {
        found := true;
      } else {
        i := i + 1;
      }
    }
    if found {
      assert FirstMountedAt(reqs, MountOf(request)) == Some(i);
      reqs := reqs[..i] + reqs[i + 1..];
    }
    parts.autoPartitionRequests := reqs + [request];
  }

  // ---------------------------------------------------------------------
  // Id bookkeeping
  // ---------------------------------------------------------------------

  /** ksRaidMapping, ksPVMapping, ksVGMapping, ksUsedMembers and ksID. */
  datatype Books = Books(raid: map<string, nat>, pv: map<string, nat>, vg: map<string, nat>,
                         used: seq<string>, ksID: nat)

  predicate Injective(m: map<string, nat>) {
    forall x, y :: x in m && y in m && x != y ==> m[x] != m[y]
  }

  predicate Apart(m1: map<string, nat>, m2: map<string, nat>) {
    forall x, y :: x in m1 && y in m2 ==> m1[x] != m2[y]
  }

  predicate IssuedBelow(m: map<string, nat>, n: nat) {
    forall x :: x in m ==> FirstId <= m[x] < n
  }

  predicate DistinctNames(s: seq<string>) {
    forall i, j :: 0 <= i < j < |s| ==> s[i] != s[j]
  }

  /**
   * Every id handed out lies in [FirstId, ksID) and names one RAID member,
   * physical volume or volume group; the used RAID members are defined and
   * each is used once.
   */
  predicate BooksValid(b: Books) {
    && FirstId <= b.ksID
    && IssuedBelow(b.raid, b.ksID) && IssuedBelow(b.pv, b.ksID) && IssuedBelow(b.vg, b.ksID)
    && Injective(b.raid) && Injective(b.pv) && Injective(b.vg)
    && Apart(b.raid, b.pv) && Apart(b.raid, b.vg) && Apart(b.pv, b.vg)
    && (forall i :: 0 <= i < |b.used| ==> b.used[i] in b.raid)
    && DistinctNames(b.used)
  }

  const InitialBooks: Books := Books(map[], map[], map[], [], FirstId)

  lemma InitialBooksValid()
    ensures BooksValid(InitialBooks)
  {
  }

  // ---------------------------------------------------------------------
  // doPartition
  // ---------------------------------------------------------------------

  /** A `part` line, as pykickstart parsed it. */
  datatype PartitionData = PartitionData(
    mountpoint: string, fstype: string, size: Option<int>, start: int, end: int, grow: bool,
    maxSizeMB: int, disk: string, onbiosdisk: string, onPart: string, primOnly: bool, recommended: bool)

  /**
   * What the handlers ask of the machine: the disk isys.doGetBiosDisk
   * names for the --onbiosdisk value, the keys of isys.hardDriveDict(), and
   * iutil.swapSuggestion()'s (size, maximum size).
   */
  datatype Env = Env(biosDisk: string, hds: set<string>, swapSize: int, swapMax: int)

  /** The state a handler leaves behind and the KickstartValueError it raised, if any. */
  datatype Step = Step(books: Books, reqs: seq<Request>, err: Option<string>)

  const BiosDiskUnknown := "Specified BIOS disk cannot be determined"
  const RaidDefinedTwice := "Defined RAID partition multiple times"
  const PvDefinedTwice := "Defined PV partition multiple times"
  const SizeRequired := "Partition requires a size specification"
  const StartNeedsDrive := "Partition command with start cylinder requires a drive specification"
  const NoSuchDisk := "Specified disk in partition command which does not exist"
  const PartitionUsed := "Partition already used"

  datatype Role = PlainRole | RaidRole | PvRole

  /** raid.* lines define RAID members and pv.* lines physical volumes. */
  function RoleOf(mp: string): Role {
    if StartsWith(mp, "raid.") then RaidRole
    else if StartsWith(mp, "pv.") then PvRole
    else PlainRole
  }

  function FsOrDefault(fstype: string): FsType {
    if fstype != "" then FsNamed(fstype) else FsDefault
  }

  /** The file system a partition line asks for and the mount point it keeps. */
  function PartitionFs(pd: PartitionData): (FsType, string) {
    if pd.mountpoint == "swap" then (FsNamed("swap"), "")
    else if pd.mountpoint == "None" then (FsOrDefault(pd.fstype), "")
    else if pd.mountpoint == "appleboot" then (FsNamed("Apple Bootstrap"), "")
    else if pd.mountpoint == "prepboot" then (FsNamed("PPC PReP Boot"), "")
    else if RoleOf(pd.mountpoint) == RaidRole then (FsNamed("software RAID"), "")
    else if RoleOf(pd.mountpoint) == PvRole then (FsNamed("physical volume (LVM)"), "")
    else if pd.mountpoint == "/boot/efi" then (FsNamed("vfat"), "/boot/efi")
    else (FsOrDefault(pd.fstype), pd.mountpoint)
  }

  /** A raid. or pv. name takes the current ksID, which then moves on. */
  function Define(b: Books, role: Role, name: string): (r: (Books, Option<nat>))
    ensures role == PlainRole <==> r.1.None?
    ensures r.1.Some? ==> r.1.value == b.ksID && r.0.ksID == b.ksID + 1
  {
    match role
    case PlainRole => (b, None)
    case RaidRole => (b.(raid := b.raid[name := b.ksID], ksID := b.ksID + 1), Some(b.ksID))
    case PvRole => (b.(pv := b.pv[name := b.ksID], ksID := b.ksID + 1), Some(b.ksID))
  }

  predicate DeviceUsed(reqs: seq<Request>, dev: string) {
    exists j :: 0 <= j < |reqs| && DeviceOf(reqs[j]) == Some(dev)
  }

  /** The disk a partition line names, after --onbiosdisk. */
  function PartitionDisk(pd: PartitionData, env: Env): string {
    if pd.onbiosdisk != "" then env.biosDisk else pd.disk
  }

  /** The lookup of --onbiosdisk failed: as written the test is inverted and fires when it succeeded. */
  predicate BiosDiskRejected(pd: PartitionData, env: Env, variant: Variant) {
    pd.onbiosdisk != "" && (if variant == AsWritten then env.biosDisk != "" else env.biosDisk == "")
  }

  /** A disk the table lacks is looked up again under mapper/. */
  function MapperDisk(disk: string, hds: set<string>): string {
    if disk !in hds && "mapper/" + disk in hds then "mapper/" + disk else disk
  }

  function PartitionRequestOf(pd: PartitionData, env: Env, disk: string, uid: Option<nat>): Request {
    var (fs, mp) := PartitionFs(pd);
    var swapRec := pd.mountpoint == "swap" && pd.recommended;
    PartitionRequest(fs, mp,
                     if swapRec then Some(env.swapSize) else pd.size,
                     pd.start, pd.end,
                     swapRec || pd.grow,
                     if swapRec then env.swapMax else pd.maxSizeMB,
                     if disk != "" then Some(disk) else None,
                     pd.primOnly, uid,
                     if pd.onPart != "" then Some(pd.onPart) else None)
  }

  /**
   * The second half of doPartition, once the id bookkeeping is done: the
   * size and drive checks, the mapper/ lookup, the test that --onpart names
   * a partition no request holds yet, and addPartRequest.
   */
  function Placement(reqs: seq<Request>, pd: PartitionData, env: Env, uid: Option<nat>): (Option<string>, seq<Request>) {
    var swapRec := pd.mountpoint == "swap" && pd.recommended;
    var disk := PartitionDisk(pd, env);
    if !swapRec && pd.size.None? && pd.start == 0 && pd.end == 0 && pd.onPart == "" then (Some(SizeRequired), reqs)
    else if pd.start != 0 && disk == "" then (Some(StartNeedsDrive), reqs)
    else
      var disk2 := MapperDisk(disk, env.hds);
      if disk2 != "" && disk2 !in env.hds then (Some(NoSuchDisk), reqs)
      else if pd.onPart != "" && DeviceUsed(reqs, pd.onPart) then (Some(PartitionUsed), reqs)
      else (None, Added(reqs, PartitionRequestOf(pd, env, disk2, uid)))
  }

  /** AnacondaKSHandlers.doPartition on the books and the request list. */
  function PartitionStep(b: Books, reqs: seq<Request>, pd: PartitionData, env: Env, variant: Variant): (s: Step)
  {
    var role := RoleOf(pd.mountpoint);
    if BiosDiskRejected(pd, env, variant) then Step(b, reqs, Some(BiosDiskUnknown))
    else if role == RaidRole && pd.mountpoint in b.raid then Step(b, reqs, Some(RaidDefinedTwice))
    else if role == PvRole && pd.mountpoint in b.pv then Step(b, reqs, Some(PvDefinedTwice))
    else
      var (b1, uid) := Define(b, role, pd.mountpoint);
      var (e, reqs1) := Placement(reqs, pd, env, uid);
      Step(b1, reqs1, e)
  }

  lemma IssuedBelowRaise(m: map<string, nat>, n: nat)
    requires IssuedBelow(m, n)
    ensures IssuedBelow(m, n + 1)
  {
  }

  /** Binding a name to the next id keeps a map injective and apart from the others. */
  lemma BindFresh(m: map<string, nat>, o1: map<string, nat>, o2: map<string, nat>, k: string, n: nat)
    requires FirstId <= n && IssuedBelow(m, n) && Injective(m) && IssuedBelow(o1, n) && IssuedBelow(o2, n)
    requires Apart(m, o1) && Apart(m, o2)
    ensures IssuedBelow(m[k := n], n + 1) && Injective(m[k := n])
    ensures Apart(m[k := n], o1) && Apart(m[k := n], o2)
  {
    var m' := m[k := n];
    forall x, y | x in m' && y in m' && x != y
      ensures m'[x] != m'[y]
    {
      if x != k && y != k {
        assert m'[x] == m[x] && m'[y] == m[y];
      }
    }
    forall x, y | x in m' && y in o1
      ensures m'[x] != o1[y]
    {
      if x != k { assert m'[x] == m[x]; }
    }
    forall x, y | x in m' && y in o2
      ensures m'[x] != o2[y]
    {
      if x != k { assert m'[x] == m[x]; }
    }
  }

  lemma ApartSymmetric(m1: map<string, nat>, m2: map<string, nat>)
    requires Apart(m1, m2)
    ensures Apart(m2, m1)
  {
    forall x, y | x in m2 && y in m1
      ensures m2[x] != m1[y]
    {
      assert m1[y] != m2[x];
    }
  }

  /** A new raid. or pv. name (the duplicate test has passed) takes a fresh id. */
  lemma DefineKeepsValid(b: Books, role: Role, name: string)
    requires BooksValid(b)
    requires role == RaidRole ==> name !in b.raid
    requires role == PvRole ==> name !in b.pv
    ensures BooksValid(Define(b, role, name).0)
  {
    var b' := Define(b, role, name).0;
    match role
    case PlainRole =>
    case RaidRole =>
      BindFresh(b.raid, b.pv, b.vg, name, b.ksID);
      IssuedBelowRaise(b.pv, b.ksID);
      IssuedBelowRaise(b.vg, b.ksID);
      assert forall i :: 0 <= i < |b'.used| ==> b'.used[i] in b'.raid;
    case PvRole =>
      ApartSymmetric(b.raid, b.pv);
      BindFresh(b.pv, b.raid, b.vg, name, b.ksID);
      ApartSymmetric(b'.pv, b.raid);
      IssuedBelowRaise(b.raid, b.ksID);
      IssuedBelowRaise(b.vg, b.ksID);
  }

  /** A part line leaves the books valid. */
  lemma PartitionKeepsBooks(b: Books, reqs: seq<Request>, pd: PartitionData, env: Env, variant: Variant)
    requires BooksValid(b)
    ensures BooksValid(PartitionStep(b, reqs, pd, env, variant).books)
  {
    var role := RoleOf(pd.mountpoint);
    if !BiosDiskRejected(pd, env, variant) && !(role == RaidRole && pd.mountpoint in b.raid)
       && !(role == PvRole && pd.mountpoint in b.pv) {
      DefineKeepsValid(b, role, pd.mountpoint);
    }
  }

  /**
   * What an accepted part line adds: a partition request at the end of the
   * list carrying a size, a start/end or an existing partition; a start
   * cylinder only with a drive; only a drive the machine has; never an
   * existing partition twice; and the old ksID as its id exactly when it
   * defines a raid. or pv. name.  Corrected, --onbiosdisk always pins the
   * drive.
   */
  lemma PartitionAccepted(b: Books, reqs: seq<Request>, pd: PartitionData, env: Env, variant: Variant)
    requires PartitionStep(b, reqs, pd, env, variant).err.None?
    ensures var s := PartitionStep(b, reqs, pd, env, variant);
            var r := s.reqs[|s.reqs| - 1];
            && |s.reqs| > 0
            && r.PartitionRequest?
            && (r.size.Some? || r.start != 0 || r.end != 0 || r.device.Some?)
            && (r.start != 0 ==> r.drive.Some?)
            && (r.drive.Some? ==> r.drive.value in env.hds)
            && (r.device.Some? ==> !DeviceUsed(reqs, r.device.value))
            && (RoleOf(pd.mountpoint) != PlainRole <==> r.uniqueID == Some(b.ksID))
            && (RoleOf(pd.mountpoint) == PlainRole ==> s.books == b)
            && (variant == Corrected && pd.onbiosdisk != "" ==> r.drive == Some(MapperDisk(env.biosDisk, env.hds)))
  {
    var s := PartitionStep(b, reqs, pd, env, variant);
    var disk2 := MapperDisk(PartitionDisk(pd, env), env.hds);
    var (b1, uid) := Define(b, RoleOf(pd.mountpoint), pd.mountpoint);
    AddedKeepsOthers(reqs, PartitionRequestOf(pd, env, disk2, uid));
  }

  /** A raid. name that an earlier part line defined is refused the second time. */
  lemma RaidNameDefinedOnce(b: Books, reqs: seq<Request>, pd: PartitionData, pd2: PartitionData,
                            env: Env, env2: Env, variant: Variant)
    requires RoleOf(pd.mountpoint) == RaidRole && !BiosDiskRejected(pd, env, variant)
    requires pd2.mountpoint == pd.mountpoint && !BiosDiskRejected(pd2, env2, variant)
    ensures var s := PartitionStep(b, reqs, pd, env, variant);
            PartitionStep(s.books, s.reqs, pd2, env2, variant).err == Some(RaidDefinedTwice)
  {
  }

  /** A part line with neither size, start, end nor --onpart is refused, as is a start cylinder without a drive. */
  lemma PartitionNeedsPlacement(b: Books, reqs: seq<Request>, pd: PartitionData, env: Env, variant: Variant)
    ensures ((!pd.recommended || pd.mountpoint != "swap") && pd.size.None? && pd.start == 0 && pd.end == 0 && pd.onPart == "")
              ==> PartitionStep(b, reqs, pd, env, variant).err.Some?
    ensures pd.start != 0 && PartitionDisk(pd, env) == "" ==> PartitionStep(b, reqs, pd, env, variant).err.Some?
  {
  }

  /**
   * The inverted --onbiosdisk test: a BIOS disk that resolves to sda makes
   * the line fail as written, while the corrected test places the partition
   * on sda.
   */
  lemma BiosDiskRefusedAsWritten()
    ensures var pd := PartitionData("/", "", Some(100), 0, 0, false, 0, "", "80", "", false, false);
            var env := Env("sda", {"sda"}, 0, 0);
            && PartitionStep(InitialBooks, [], pd, env, AsWritten).err == Some(BiosDiskUnknown)
            && PartitionStep(InitialBooks, [], pd, env, Corrected).err.None?
            && PartitionStep(InitialBooks, [], pd, env, Corrected).reqs[0].drive == Some("sda")
  {
    var pd := PartitionData("/", "", Some(100), 0, 0, false, 0, "", "80", "", false, false);
    var env := Env("sda", {"sda"}, 0, 0);
    assert RoleOf("/") == PlainRole;
    assert PartitionFs(pd) == (FsDefault, "/");
  }

  // ---------------------------------------------------------------------
  // doRaid
  // ---------------------------------------------------------------------

  /** A `raid` line, as pykickstart parsed it. */
  datatype RaidData = RaidData(mountpoint: string, fstype: string, members: seq<string>, level: string,
                               device: string, preexist: bool)

  const BadMountPoint := "The mount point is not valid."
  const UndefinedRaidMember := "Tried to use undefined partition in RAID specification"
  const RaidMemberReused := "Tried to use RAID member in two or more RAID specifications"
  const NoRaidLevel := "RAID Partition defined without RAID level"
  const NoRaidMembers := "RAID Partition defined without any RAID members"

  /** A mount point must be empty or absolute. */
  predicate MountOk(mp: string) {
    mp == "" || mp[0] == '/'
  }

  /** The ids collected so far, the used-member list, and the error that stopped the scan. */
  datatype MemberScan = MemberScan(ids: seq<nat>, used: seq<string>, err: Option<string>)

  /**
   * The member loop of doRaid: each member must be a defined raid. name not
   * yet used; it is recorded as used at once, so a member that fails later
   * in the line stays recorded.
   */
  function ScanMembers(raid: map<string, nat>, used: seq<string>, members: seq<string>, acc: seq<nat>): MemberScan
    decreases |members|
  {
    if members == [] then MemberScan(acc, used, None)
    else if members[0] !in raid then MemberScan(acc, used, Some(UndefinedRaidMember))
    else if members[0] in used then MemberScan(acc, used, Some(RaidMemberReused))
    else ScanMembers(raid, used + [members[0]], members[1..], acc + [raid[members[0]]])
  }

  /** The ids a list of defined names maps to. */
  function IdsOf(m: map<string, nat>, names: seq<string>): (r: seq<nat>)
    requires forall k :: 0 <= k < |names| ==> names[k] in m
    ensures |r| == |names| && forall k :: 0 <= k < |names| ==> r[k] == m[names[k]]
  {
    if names == [] then [] else [m[names[0]]] + IdsOf(m, names[1..])
  }

  predicate MembersFree(raid: map<string, nat>, used: seq<string>, members: seq<string>) {
    && (forall k :: 0 <= k < |members| ==> members[k] in raid && members[k] !in used)
    && DistinctNames(members)
  }

  /** The scan succeeds exactly when every member is defined, unused and listed once. */
  lemma {:induction false} ScanMembersOk(raid: map<string, nat>, used: seq<string>, members: seq<string>, acc: seq<nat>)
    ensures ScanMembers(raid, used, members, acc).err.None? <==> MembersFree(raid, used, members)
    decreases |members|
  {
    if members != [] && members[0] in raid && members[0] !in used {
      var m := members[0];
      var rest := members[1..];
      ScanMembersOk(raid, used + [m], rest, acc + [raid[m]]);
      if MembersFree(raid, used + [m], rest) {
        forall k | 0 <= k < |members|
          ensures members[k] in raid && members[k] !in used
        {
          if k > 0 { assert members[k] == rest[k - 1]; assert members[k] !in used + [m]; }
        }
        forall i, j | 0 <= i < j < |members|
          ensures members[i] != members[j]
        {
          if i == 0 { assert members[j] == rest[j - 1]; assert members[j] !in used + [m]; }
          else { assert members[i] == rest[i - 1] && members[j] == rest[j - 1]; }
        }
      }
      if MembersFree(raid, used, members) {
        forall k | 0 <= k < |rest|
          ensures rest[k] in raid && rest[k] !in used + [m]
        {
          assert rest[k] == members[k + 1];
        }
        forall i, j | 0 <= i < j < |rest|
          ensures rest[i] != rest[j]
        {
          assert rest[i] == members[i + 1] && rest[j] == members[j + 1];
        }
      }
    }
  }

  /** A successful scan records every member as used and yields their ids in order. */
  lemma {:induction false} ScanMembersResult(raid: map<string, nat>, used: seq<string>, members: seq<string>, acc: seq<nat>)
    requires ScanMembers(raid, used, members, acc).err.None?
    ensures AllDefined(raid, members)
    ensures var r := ScanMembers(raid, used, members, acc);
            r.used == used + members && r.ids == acc + IdsOf(raid, members)
    decreases |members|
  {
    if members != [] {
      var m := members[0];
      var rest := members[1..];
      ScanMembersResult(raid, used + [m], rest, acc + [raid[m]]);
      assert members == [m] + rest;
      forall k | 0 <= k < |members| ensures members[k] in raid {
        if k > 0 { assert members[k] == rest[k - 1]; }
      }
      assert IdsOf(raid, members) == [raid[m]] + IdsOf(raid, rest);
    }
  }

  predicate UsedValid(raid: map<string, nat>, used: seq<string>) {
    (forall i :: 0 <= i < |used| ==> used[i] in raid) && DistinctNames(used)
  }

  /** Whatever the scan meets, the used list stays a list of distinct defined names. */
  lemma {:induction false} ScanKeepsUsed(raid: map<string, nat>, used: seq<string>, members: seq<string>, acc: seq<nat>)
    requires UsedValid(raid, used)
    ensures UsedValid(raid, ScanMembers(raid, used, members, acc).used)
    decreases |members|
  {
    if members != [] && members[0] in raid && members[0] !in used {
      var m := members[0];
      var u := used + [m];
      forall i, j | 0 <= i < j < |u| ensures u[i] != u[j] {
        if j == |used| { assert u[i] == used[i]; }
        else { assert u[i] == used[i] && u[j] == used[j]; }
      }
      assert forall i :: 0 <= i < |u| ==> u[i] in raid;
      ScanKeepsUsed(raid, u, members[1..], acc + [raid[m]]);
    }
  }

  function RaidRequestOf(rd: RaidData, fs: FsType, mp: string, ids: seq<nat>, uid: Option<nat>): Request {
    RaidRequest(fs, mp, ids, rd.level, rd.preexist, uid,
                if rd.preexist && rd.device != "" then Some("md" + rd.device) else None)
  }

  /** The file system a raid line asks for and the mount point it keeps. */
  function RaidFs(rd: RaidData): (FsType, string) {
    if rd.mountpoint == "swap" then (FsNamed("swap"), "")
    else if StartsWith(rd.mountpoint, "pv.") then (FsNamed("physical volume (LVM)"), "")
    else (FsOrDefault(rd.fstype), rd.mountpoint)
  }

  function RaidLineRole(rd: RaidData): Role {
    if StartsWith(rd.mountpoint, "pv.") then PvRole else PlainRole
  }

  /** AnacondaKSHandlers.doRaid on the books and the request list. */
  function RaidStep(b: Books, reqs: seq<Request>, rd: RaidData): Step {
    var role := RaidLineRole(rd);
    if role == PvRole && rd.mountpoint in b.pv then Step(b, reqs, Some(PvDefinedTwice))
    else
      var (b1, uid) := Define(b, role, rd.mountpoint);
      var (fs, mp) := RaidFs(rd);
      if !MountOk(mp) then Step(b1, reqs, Some(BadMountPoint))
      else
        var scan := ScanMembers(b1.raid, b1.used, rd.members, []);
        var b2 := b1.(used := scan.used);
        if scan.err.Some? then Step(b2, reqs, scan.err)
        else if rd.level == "" && !rd.preexist then Step(b2, reqs, Some(NoRaidLevel))
        else if |scan.ids| == 0 && !rd.preexist then Step(b2, reqs, Some(NoRaidMembers))
        else Step(b2, Added(reqs, RaidRequestOf(rd, fs, mp, scan.ids, uid)), None)
  }

  lemma WithUsedValid(b: Books, used: seq<string>)
    requires BooksValid(b) && UsedValid(b.raid, used)
    ensures BooksValid(b.(used := used))
  {
  }

  /** The books after a raid line, accepted or not. */
  function RaidBooks(b: Books, rd: RaidData): Books {
    var role := RaidLineRole(rd);
    if role == PvRole && rd.mountpoint in b.pv then b
    else
      var b1 := Define(b, role, rd.mountpoint).0;
      if !MountOk(RaidFs(rd).1) then b1
      else b1.(used := ScanMembers(b1.raid, b1.used, rd.members, []).used)
  }

  lemma RaidStepBooks(b: Books, reqs: seq<Request>, rd: RaidData)
    ensures RaidStep(b, reqs, rd).books == RaidBooks(b, rd)
  {
  }

  /** A raid line leaves the books valid. */
  lemma RaidKeepsBooks(b: Books, reqs: seq<Request>, rd: RaidData)
    requires BooksValid(b)
    ensures BooksValid(RaidStep(b, reqs, rd).books)
  {
    RaidStepBooks(b, reqs, rd);
    var role := RaidLineRole(rd);
    if !(role == PvRole && rd.mountpoint in b.pv) {
      DefineKeepsValid(b, role, rd.mountpoint);
      var b1 := Define(b, role, rd.mountpoint).0;
      if MountOk(RaidFs(rd).1) {
        ScanKeepsUsed(b1.raid, b1.used, rd.members, []);
        WithUsedValid(b1, ScanMembers(b1.raid, b1.used, rd.members, []).used);
      }
    }
  }

  /**
   * A raid line is accepted exactly when its pv. name (if any) is new, its
   * mount point is absolute or empty, every member is a defined raid. name
   * used nowhere else and listed once, and it has a level and a member
   * unless --useexisting; the request then carries the members' ids and
   * the members are marked used.
   */
  lemma RaidAccepted(b: Books, reqs: seq<Request>, rd: RaidData)
    ensures var s := RaidStep(b, reqs, rd);
            s.err.None? <==>
              && !(RaidLineRole(rd) == PvRole && rd.mountpoint in b.pv)
              && MountOk(RaidFs(rd).1)
              && MembersFree(b.raid, b.used, rd.members)
              && (rd.level != "" || rd.preexist)
              && (|rd.members| > 0 || rd.preexist)
    ensures var s := RaidStep(b, reqs, rd);
            s.err.None? ==>
              && s.books.used == b.used + rd.members
              && |s.reqs| > 0
              && s.reqs[|s.reqs| - 1].RaidRequest?
              && s.reqs[|s.reqs| - 1].members == IdsOf(b.raid, rd.members)
  {
    var role := RaidLineRole(rd);
    if !(role == PvRole && rd.mountpoint in b.pv) {
      var (b1, uid) := Define(b, role, rd.mountpoint);
      assert b1.raid == b.raid && b1.used == b.used;
      ScanMembersOk(b1.raid, b1.used, rd.members, []);
      var scan := ScanMembers(b1.raid, b1.used, rd.members, []);
      if scan.err.None? {
        ScanMembersResult(b1.raid, b1.used, rd.members, []);
        assert |scan.ids| == |rd.members|;
        var (fs, mp) := RaidFs(rd);
        AddedKeepsOthers(reqs, RaidRequestOf(rd, fs, mp, scan.ids, uid));
      }
    }
  }

  /** A member used by one accepted raid line is refused by the next one. */
  lemma RaidMemberUsedOnce(b: Books, reqs: seq<Request>, rd: RaidData, rd2: RaidData, m: string)
    requires RaidStep(b, reqs, rd).err.None?
    requires m in rd.members && m in rd2.members
    ensures var s := RaidStep(b, reqs, rd);
            RaidStep(s.books, s.reqs, rd2).err.Some?
  {
    var s := RaidStep(b, reqs, rd);
    RaidAccepted(b, reqs, rd);
    RaidAccepted(s.books, s.reqs, rd2);
    assert m in s.books.used;
    var k :| 0 <= k < |rd2.members| && rd2.members[k] == m;
    assert !MembersFree(s.books.raid, s.books.used, rd2.members);
  }

  // ---------------------------------------------------------------------
  // doVolumeGroup
  // ---------------------------------------------------------------------

  /** A `volgroup` line, as pykickstart parsed it. */
  datatype VolumeGroupData = VolumeGroupData(vgname: string, physvols: seq<string>, preexist: bool, pesize: int)

  const UndefinedPv := "Tried to use undefined partition in Volume Group specification"
  const NoPhysicalVolumes := "Volume group defined without any physical volumes.  Either specify physical volumes or use --useexisting."
  const BadPesize := "Volume group specified invalid pesize"

  predicate AllDefined(m: map<string, nat>, names: seq<string>) {
    forall k :: 0 <= k < |names| ==> names[k] in m
  }

  /**
   * AnacondaKSHandlers.doVolumeGroup; `extents` stands for
   * lvm.getPossiblePhysicalExtents(floor=1024).
   */
  function VolumeGroupStep(b: Books, reqs: seq<Request>, vgd: VolumeGroupData, extents: set<int>): Step {
    if !AllDefined(b.pv, vgd.physvols) then Step(b, reqs, Some(UndefinedPv))
    else if |vgd.physvols| == 0 && !vgd.preexist then Step(b, reqs, Some(NoPhysicalVolumes))
    else if vgd.pesize !in extents then Step(b, reqs, Some(BadPesize))
    else
      var ids := IdsOf(b.pv, vgd.physvols);
      Step(b.(vg := b.vg[vgd.vgname := b.ksID], ksID := b.ksID + 1),
           Added(reqs, VolumeGroupRequest(vgd.vgname, ids, vgd.preexist, vgd.pesize, Some(b.ksID))),
           None)
  }

  /**
   * A volgroup line leaves the books valid; when accepted its name maps to
   * an id no RAID member, physical volume or other volume group holds.
   */
  lemma VolumeGroupKeepsBooks(b: Books, reqs: seq<Request>, vgd: VolumeGroupData, extents: set<int>)
    requires BooksValid(b)
    ensures var s := VolumeGroupStep(b, reqs, vgd, extents);
            && BooksValid(s.books)
            && (s.err.None? ==>
                  && vgd.vgname in s.books.vg
                  && (forall x :: x in b.raid ==> b.raid[x] != s.books.vg[vgd.vgname])
                  && (forall x :: x in b.pv ==> b.pv[x] != s.books.vg[vgd.vgname])
                  && (forall x :: x in b.vg ==> b.vg[x] != s.books.vg[vgd.vgname]))
  {
    var s := VolumeGroupStep(b, reqs, vgd, extents);
    if s.err.None? {
      ApartSymmetric(b.raid, b.vg);
      ApartSymmetric(b.pv, b.vg);
      BindFresh(b.vg, b.raid, b.pv, vgd.vgname, b.ksID);
      ApartSymmetric(s.books.vg, b.raid);
      ApartSymmetric(s.books.vg, b.pv);
      IssuedBelowRaise(b.raid, b.ksID);
      IssuedBelowRaise(b.pv, b.ksID);
    }
  }

  /** A volgroup line is accepted exactly when its PVs are defined, present unless --useexisting, and its pesize allowed. */
  lemma VolumeGroupAccepted(b: Books, reqs: seq<Request>, vgd: VolumeGroupData, extents: set<int>)
    ensures var s := VolumeGroupStep(b, reqs, vgd, extents);
            s.err.None? <==> AllDefined(b.pv, vgd.physvols) && (|vgd.physvols| > 0 || vgd.preexist) && vgd.pesize in extents
    ensures var s := VolumeGroupStep(b, reqs, vgd, extents);
            s.err.None? ==>
              && s.reqs[|s.reqs| - 1] == VolumeGroupRequest(vgd.vgname, IdsOf(b.pv, vgd.physvols), vgd.preexist,
                                                            vgd.pesize, Some(b.ksID))
              && s.books.vg[vgd.vgname] == b.ksID
  {
    var s := VolumeGroupStep(b, reqs, vgd, extents);
    if s.err.None? {
      AddedKeepsOthers(reqs, VolumeGroupRequest(vgd.vgname, IdsOf(b.pv, vgd.physvols), vgd.preexist,
                                                vgd.pesize, Some(b.ksID)));
    }
  }

  // ---------------------------------------------------------------------
  // doLogicalVolume
  // ---------------------------------------------------------------------

  /** A `logvol` line, as pykickstart parsed it. */
  datatype LogicalVolumeData = LogicalVolumeData(
    vgname: string, name: string, mountpoint: string, fstype: string, size: int, percent: int,
    grow: bool, maxSizeMB: int, preexist: bool, recommended: bool)

  const BadLvMountPoint := "The mount point is not valid."
  const LvSizeRequired := "Size required"
  const BadPercent := "Percentage must be between 0 and 100"
  const NoVolumeGroup := "No volume group exists with the name.  Specify volume groups before logical volumes."
  const LvNameTaken := "Logical volume name already used in volume group"

  predicate LvNameUsed(reqs: seq<Request>, vgid: nat, name: string) {
    exists j :: 0 <= j < |reqs| && reqs[j].LogicalVolumeRequest? && reqs[j].volgroup == vgid && reqs[j].lvname == name
  }

  function LogicalVolumeRequestOf(lvd: LogicalVolumeData, env: Env, vgid: nat): Request {
    var swap := lvd.mountpoint == "swap";
    var swapRec := swap && lvd.recommended;
    LogicalVolumeRequest(if swap then FsNamed("swap") else FsOrDefault(lvd.fstype),
                         if swap then "" else lvd.mountpoint,
                         if swapRec then env.swapSize else lvd.size,
                         lvd.percent, vgid, lvd.name,
                         swapRec || lvd.grow,
                         if swapRec then env.swapMax else lvd.maxSizeMB,
                         lvd.preexist)
  }

  /** AnacondaKSHandlers.doLogicalVolume: the books are only read. */
  function LogicalVolumeStep(b: Books, reqs: seq<Request>, lvd: LogicalVolumeData, env: Env): Step {
    var swap := lvd.mountpoint == "swap";
    var size := if swap && lvd.recommended then env.swapSize else lvd.size;
    if !swap && !MountOk(lvd.mountpoint) then Step(b, reqs, Some(BadLvMountPoint))
    else if lvd.percent == 0 && size == 0 && !lvd.preexist then Step(b, reqs, Some(LvSizeRequired))
    else if lvd.percent != 0 && (lvd.percent <= 0 || lvd.percent > 100) then Step(b, reqs, Some(BadPercent))
    else if lvd.vgname !in b.vg then Step(b, reqs, Some(NoVolumeGroup))
    else if LvNameUsed(reqs, b.vg[lvd.vgname], lvd.name) then Step(b, reqs, Some(LvNameTaken))
    else Step(b, Added(reqs, LogicalVolumeRequestOf(lvd, env, b.vg[lvd.vgname])), None)
  }

  /**
   * An accepted logvol line has an absolute mount point (or none), a size
   * or a percentage in (0, 100] (or --useexisting), names a defined volume
   * group by its id, and is the only logical volume of that name there.
   */
  lemma LogicalVolumeAccepted(b: Books, reqs: seq<Request>, lvd: LogicalVolumeData, env: Env)
    requires LogicalVolumeStep(b, reqs, lvd, env).err.None?
    ensures var s := LogicalVolumeStep(b, reqs, lvd, env);
            var r := s.reqs[|s.reqs| - 1];
            && |s.reqs| > 0 && s.books == b
            && r.LogicalVolumeRequest?
            && MountOk(r.mountpoint)
            && (0 < r.percent <= 100 || (r.percent == 0 && (r.lvSize != 0 || r.preexist)))
            && lvd.vgname in b.vg && r.volgroup == b.vg[lvd.vgname]
            && !LvNameUsed(reqs, r.volgroup, r.lvname)
  {
    var s := LogicalVolumeStep(b, reqs, lvd, env);
    AddedKeepsOthers(reqs, LogicalVolumeRequestOf(lvd, env, b.vg[lvd.vgname]));
  }

  /** A second logical volume of the same name in the same volume group is refused. */
  lemma LogicalVolumeNameOnce(b: Books, reqs: seq<Request>, lvd: LogicalVolumeData, lvd2: LogicalVolumeData, env: Env)
    requires LogicalVolumeStep(b, reqs, lvd, env).err.None?
    requires lvd2.vgname == lvd.vgname && lvd2.name == lvd.name
    ensures var s := LogicalVolumeStep(b, reqs, lvd, env);
            LogicalVolumeStep(s.books, s.reqs, lvd2, env).err.Some?
  {
    var s := LogicalVolumeStep(b, reqs, lvd, env);
    LogicalVolumeAccepted(b, reqs, lvd, env);
    assert s.reqs[|s.reqs| - 1].LogicalVolumeRequest?;
    assert LvNameUsed(s.reqs, b.vg[lvd.vgname], lvd.name);
  }
  // ---------------------------------------------------------------------
  // AnacondaKSHandlers: the handlers' own state
  // ---------------------------------------------------------------------

  /**
   * The kickstart handler object: the steps the commands ask to skip or
   * show, the id bookkeeping, the line being handled, and the command
   * table (true where a handler function is bound, false where it is None).
   */
  class Handlers {
    var permanentSkipSteps: seq<string>
    var skipSteps: seq<string>
    var showSteps: seq<string>
    var ksRaidMapping: map<string, nat>
    var ksUsedMembers: seq<string>
    var ksPVMapping: map<string, nat>
    var ksVGMapping: map<string, nat>
    var ksID: nat
    var lineno: nat
    var currentCmd: string
    var handlers: map<string, bool>

    function Bookkeeping(): Books
      reads this
    {
      Books(ksRaidMapping, ksPVMapping, ksVGMapping, ksUsedMembers, ksID)
    }

    constructor (table: map<string, bool>)
      ensures Bookkeeping() == InitialBooks && BooksValid(Bookkeeping())
      ensures permanentSkipSteps == [] && skipSteps == [] && showSteps == []
      ensures lineno == 0 && currentCmd == "" && handlers == table
    {
      permanentSkipSteps := [];
      skipSteps := [];
      showSteps := [];
      ksRaidMapping := map[];
      ksUsedMembers := [];
      ksPVMapping := map[];
      ksVGMapping := map[];
      ksID := FirstId;
      lineno := 0;
      currentCmd := "";
      handlers := table;
      InitialBooksValid();
    }

    /** "get a sort of hackish id": a raid. or pv. name takes ksID, which moves on. */
    method DefineName(role: Role, name: string) returns (uniqueID: Option<nat>)
      modifies this
      ensures (Bookkeeping(), uniqueID) == Define(old(Bookkeeping()), role, name)
      ensures skipSteps == old(skipSteps) && permanentSkipSteps == old(permanentSkipSteps) && showSteps == old(showSteps)
      ensures lineno == old(lineno) && currentCmd == old(currentCmd) && handlers == old(handlers)
    {
      uniqueID := None;
      if role == RaidRole {
        uniqueID := Some(ksID);
        ksRaidMapping := ksRaidMapping[name := ksID];
        ksID := ksID + 1;
      } else if role == PvRole {
        uniqueID := Some(ksID);
        ksPVMapping := ksPVMapping[name := ksID];
        ksID := ksID + 1;
      }
    }

    /** doPartition: checks the line, records raid./pv. names, and adds the partition request. */
    method DoPartition(parts: Partitions, pd: PartitionData, env: Env, variant: Variant) returns (err: Option<string>)
      modifies this, parts
      ensures var s := PartitionStep(old(Bookkeeping()), old(parts.autoPartitionRequests), pd, env, variant);
              Bookkeeping() == s.books && parts.autoPartitionRequests == s.reqs && err == s.err
      ensures skipSteps == old(skipSteps) + (if err.None? then PartitionSteps else [])
      ensures parts.isKickstart == (old(parts.isKickstart) || err.None?)
      ensures permanentSkipSteps == old(permanentSkipSteps) && showSteps == old(showSteps)
      ensures lineno == old(lineno) && currentCmd == old(currentCmd) && handlers == old(handlers)
    {
      if pd.onbiosdisk != "" {
        var disk := env.biosDisk;
        var unknown := if variant == AsWritten then disk != "" else disk == "";
        if unknown {
          return Some(BiosDiskUnknown);
        }
      }
      var role := RoleOf(pd.mountpoint);
      if role == RaidRole && pd.mountpoint in ksRaidMapping {
        return Some(RaidDefinedTwice);
      }
      if role == PvRole && pd.mountpoint in ksPVMapping {
        return Some(PvDefinedTwice);
      }
      var uniqueID := DefineName(role, pd.mountpoint);
      err := PlacePartition(parts, pd, env, uniqueID);
      if err.None? {
        skipSteps := skipSteps + PartitionSteps;
      }
    }

    /** doRaid: checks the line, marks its members used, and adds the RAID request. */
    method DoRaid(parts: Partitions, rd: RaidData) returns (err: Option<string>)
      modifies this, parts
      ensures var s := RaidStep(old(Bookkeeping()), old(parts.autoPartitionRequests), rd);
              Bookkeeping() == s.books && parts.autoPartitionRequests == s.reqs && err == s.err
      ensures skipSteps == old(skipSteps) + (if err.None? then PartitionSteps else [])
      ensures parts.isKickstart == old(parts.isKickstart)
      ensures permanentSkipSteps == old(permanentSkipSteps) && showSteps == old(showSteps)
      ensures lineno == old(lineno) && currentCmd == old(currentCmd) && handlers == old(handlers)
    {
      if RaidLineRole(rd) == PvRole && rd.mountpoint in ksPVMapping {
        return Some(PvDefinedTwice);
      }
      var uniqueID := DefineName(RaidLineRole(rd), rd.mountpoint);
      var (fs, mp) := RaidFs(rd);
      if !MountOk(mp) {
        return Some(BadMountPoint);
      }
      var raidmems, memberErr := MarkMembers(rd.members);
      if memberErr.Some? {
        return memberErr;
      }
      if rd.level == "" && !rd.preexist {
        return Some(NoRaidLevel);
      }
      if |raidmems| == 0 && !rd.preexist {
        return Some(NoRaidMembers);
      }
      AddPartRequest(parts, RaidRequestOf(rd, fs, mp, raidmems, uniqueID));
      skipSteps := skipSteps + PartitionSteps;
      return None;
    }

    /** doRaid's loop over the members: each must be a defined RAID partition not used yet, and is marked used. */
    method MarkMembers(members: seq<string>) returns (ids: seq<nat>, err: Option<string>)
      modifies this`ksUsedMembers
      ensures MemberScan(ids, ksUsedMembers, err) == ScanMembers(ksRaidMapping, old(ksUsedMembers), members, [])
    {
      ids := [];
      var i := 0;
      while i < |members|
        invariant 0 <= i <= |members|
        invariant ScanMembers(ksRaidMapping, ksUsedMembers, members[i..], ids)
                  == ScanMembers(ksRaidMapping, old(ksUsedMembers), members, [])
      {
        var member := members[i];
        assert members[i..][0] == member && members[i..][1..] == members[i + 1..];
        if member !in ksRaidMapping {
          return ids, Some(UndefinedRaidMember);
        }
        if member in ksUsedMembers {
          return ids, Some(RaidMemberReused);
        }
        ids := ids + [ksRaidMapping[member]];
        ksUsedMembers := ksUsedMembers + [member];
        i := i + 1;
      }
      return ids, None;
    }

    /** doVolumeGroup: checks the line, maps the group name to the next id, and adds the request. */
    method DoVolumeGroup(parts: Partitions, vgd: VolumeGroupData, extents: set<int>) returns (err: Option<string>)
      modifies this, parts
      ensures var s := VolumeGroupStep(old(Bookkeeping()), old(parts.autoPartitionRequests), vgd, extents);
              Bookkeeping() == s.books && parts.autoPartitionRequests == s.reqs && err == s.err
      ensures skipSteps == old(skipSteps) && parts.isKickstart == old(parts.isKickstart)
      ensures permanentSkipSteps == old(permanentSkipSteps) && showSteps == old(showSteps)
      ensures lineno == old(lineno) && currentCmd == old(currentCmd) && handlers == old(handlers)
    {
      var pvs: seq<nat> := [];
      var i := 0;
      while i < |vgd.physvols|
        invariant 0 <= i <= |vgd.physvols|
        invariant AllDefined(ksPVMapping, vgd.physvols[..i]) && pvs == IdsOf(ksPVMapping, vgd.physvols[..i])
        invariant unchanged(this) && unchanged(parts)
      {
        var pv := vgd.physvols[i];
        if pv !in ksPVMapping {
          assert !AllDefined(ksPVMapping, vgd.physvols);
          return Some(UndefinedPv);
        }
        IdsOfSnoc(ksPVMapping, vgd.physvols[..i], pv);
        assert vgd.physvols[..i + 1] == vgd.physvols[..i] + [pv];
        pvs := pvs + [ksPVMapping[pv]];
        i := i + 1;
      }
      assert vgd.physvols[..i] == vgd.physvols;
      if |pvs| == 0 && !vgd.preexist {
        return Some(NoPhysicalVolumes);
      }
      if vgd.pesize !in extents {
        return Some(BadPesize);
      }
      var uniqueID := ksID;
      ksVGMapping := ksVGMapping[vgd.vgname := uniqueID];
      ksID := ksID + 1;
      AddPartRequest(parts, VolumeGroupRequest(vgd.vgname, pvs, vgd.preexist, vgd.pesize, Some(uniqueID)));
      return None;
    }

    /** doLogicalVolume: checks the line against its volume group and adds the request. */
    method DoLogicalVolume(parts: Partitions, lvd: LogicalVolumeData, env: Env) returns (err: Option<string>)
      modifies parts, this
      ensures var s := LogicalVolumeStep(old(Bookkeeping()), old(parts.autoPartitionRequests), lvd, env);
              Bookkeeping() == s.books && parts.autoPartitionRequests == s.reqs && err == s.err
      ensures skipSteps == old(skipSteps) + (if err.None? then PartitionSteps else [])
      ensures parts.isKickstart == old(parts.isKickstart)
      ensures permanentSkipSteps == old(permanentSkipSteps) && showSteps == old(showSteps)
      ensures lineno == old(lineno) && currentCmd == old(currentCmd) && handlers == old(handlers)
    {
      var mountpoint := lvd.mountpoint;
      var size := lvd.size;
      if mountpoint == "swap" {
        mountpoint := "";
        if lvd.recommended {
          size := env.swapSize;
        }
      }
      if mountpoint != "" && mountpoint[0] != '/' {
        return Some(BadLvMountPoint);
      }
      if lvd.percent == 0 {
        if size == 0 && !lvd.preexist {
          return Some(LvSizeRequired);
        }
      } else if lvd.percent <= 0 || lvd.percent > 100 {
        return Some(BadPercent);
      }
      if lvd.vgname !in ksVGMapping {
        return Some(NoVolumeGroup);
      }
      var vgid := ksVGMapping[lvd.vgname];
      var taken := LvNameInUse(parts.autoPartitionRequests, vgid, lvd.name);
      if taken {
        return Some(LvNameTaken);
      }
      AddPartRequest(parts, LogicalVolumeRequestOf(lvd, env, vgid));
      skipSteps := skipSteps + PartitionSteps;
      return None;
    }
  }

  /** The second half of doPartition on the request list. */
  method PlacePartition(parts: Partitions, pd: PartitionData, env: Env, uniqueID: Option<nat>) returns (err: Option<string>)
    modifies parts
    ensures (err, parts.autoPartitionRequests) == Placement(old(parts.autoPartitionRequests), pd, env, uniqueID)
    ensures parts.isKickstart == (old(parts.isKickstart) || err.None?)
  {
    var disk := if pd.onbiosdisk != "" then env.biosDisk else pd.disk;
    var size := pd.size;
    if pd.mountpoint == "swap" && pd.recommended {
      size := Some(env.swapSize);
    }
    if size.None? && pd.start == 0 && pd.end == 0 && pd.onPart == "" {
      return Some(SizeRequired);
    }
    if pd.start != 0 && disk == "" {
      return Some(StartNeedsDrive);
    }
    if disk !in env.hds && "mapper/" + disk in env.hds {
      disk := "mapper/" + disk;
    }
    if disk != "" && disk !in env.hds {
      return Some(NoSuchDisk);
    }
    var request := PartitionRequestOf(pd, env, disk, uniqueID);
    if pd.onPart != "" {
      var used := DeviceInUse(parts.autoPartitionRequests, pd.onPart);
      if used {
        return Some(PartitionUsed);
      }
    }
    AddPartRequest(parts, request);
    parts.isKickstart := true;
    return None;
  }

  lemma IdsOfSnoc(m: map<string, nat>, names: seq<string>, n: string)
    requires AllDefined(m, names) && n in m
    ensures AllDefined(m, names + [n]) && IdsOf(m, names + [n]) == IdsOf(m, names) + [m[n]]
  {
    var a := IdsOf(m, names + [n]);
    var c := IdsOf(m, names) + [m[n]];
    assert |a| == |c|;
    forall k | 0 <= k < |a| ensures a[k] == c[k] {
      assert (names + [n])[k] == if k < |names| then names[k] else n;
    }
  }

  /** The partition loop of doPartition: is some request already on device `dev`? */
  method DeviceInUse(reqs: seq<Request>, dev: string) returns (used: bool)
    ensures used <==> DeviceUsed(reqs, dev)
  {
    var i := 0;
    while i < |reqs|
      invariant 0 <= i <= |reqs|
      invariant forall j :: 0 <= j < i ==> DeviceOf(reqs[j]) != Some(dev)
    {
      if DeviceOf(reqs[i]).Some? && DeviceOf(reqs[i]).value == dev {
        return true;
      }
      i := i + 1;
    }
    return false;
  }

  /** The request loop of doLogicalVolume: does the volume group already hold a logical volume `name`? */
  method LvNameInUse(reqs: seq<Request>, vgid: nat, name: string) returns (used: bool)
    ensures used <==> LvNameUsed(reqs, vgid, name)
  {
    var i := 0;
    while i < |reqs|
      invariant 0 <= i <= |reqs|
      invariant forall j :: 0 <= j < i ==> !(reqs[j].LogicalVolumeRequest? && reqs[j].volgroup == vgid && reqs[j].lvname == name)
    {
      if reqs[i].LogicalVolumeRequest? && reqs[i].volgroup == vgid && reqs[i].lvname == name {
        return true;
      }
      i := i + 1;
    }
    return false;
  }
  // ---------------------------------------------------------------------
  // Kickstart.setSteps
  // ---------------------------------------------------------------------

  /** What setSteps reads of the kickstart data. */
  datatype KsData = KsData(upgrade: bool, interactive: bool, rebootWait: bool, hasPackages: bool)

  /**
   * A call setSteps makes on the dispatcher: dispatch.skipStep(name, skip,
   * permanent), or the install class's own setSteps (the upgrade class's
   * when `upgrade`), whose step list is not part of this model.
   */
  datatype StepCall = Decide(name: string, skip: bool, permanent: bool) | Defaults(upgrade: bool)

  /** The installer's dispatcher, seen through the calls it receives. */
  class Dispatcher {
    var calls: seq<StepCall>

    constructor ()
      ensures calls == []
    {
      calls := [];
    }

    method SkipStep(name: string, skip: bool, permanent: bool)
      modifies this
      ensures calls == old(calls) + [Decide(name, skip, permanent)]
    {
      calls := calls + [Decide(name, skip, permanent)];
    }

    method InstallClassSteps(upgrade: bool)
      modifies this
      ensures calls == old(calls) + [Defaults(upgrade)]
    {
      calls := calls + [Defaults(upgrade)];
    }
  }

  /** The last decision about step `name`: Some(true) skipped, Some(false) shown, None untouched. */
  function Final(calls: seq<StepCall>, name: string): Option<bool> {
    if calls == [] then None
    else
      var c := calls[|calls| - 1];
      if c.Decide? && c.name == name then Some(c.skip) else Final(calls[..|calls| - 1], name)
  }

  lemma {:induction false} FinalAppend(a: seq<StepCall>, b: seq<StepCall>, name: string)
    ensures Final(a + b, name) == if Final(b, name).Some? then Final(b, name) else Final(a, name)
    decreases |b|
  {
    if b == [] {
      assert a + b == a;
    } else {
      assert (a + b)[..|a + b| - 1] == a + b[..|b| - 1];
      FinalAppend(a, b[..|b| - 1], name);
    }
  }

  /** skipStep(n, skip = skip, permanent = permanent) for every n in order. */
  function Decisions(names: seq<string>, skip: bool, permanent: bool): (r: seq<StepCall>)
    ensures |r| == |names|
    ensures forall i :: 0 <= i < |names| ==> r[i] == Decide(names[i], skip, permanent)
  {
    seq(|names|, i requires 0 <= i < |names| => Decide(names[i], skip, permanent))
  }

  lemma {:induction false} FinalDecisions(names: seq<string>, skip: bool, permanent: bool, name: string)
    ensures Final(Decisions(names, skip, permanent), name) == if name in names then Some(skip) else None
    decreases |names|
  {
    if names != [] {
      var init := names[..|names| - 1];
      FinalDecisions(init, skip, permanent, name);
      assert Decisions(names, skip, permanent)[..|names| - 1] == Decisions(init, skip, permanent);
      assert names == init + [names[|names| - 1]];
    }
  }

  function Skips(names: seq<string>): seq<StepCall> { Decisions(names, true, false) }



  const GroupSelection := "group-selection"

  /** The handler lists after setSteps has filed group-selection. */
  function GroupLists(ks: KsData, skip: seq<string>, show: seq<string>): (seq<string>, seq<string>) {
    if ks.upgrade then (skip + [GroupSelection], show)
    else if ks.hasPackages && !ks.interactive then (skip + [GroupSelection], show)
    else (skip, show + [GroupSelection])
  }

  const UpgradeSkips: seq<string> := ["upgrademigfind", "upgrademigratefs", "upgradecontinue"]
  const UpgradeScreens: seq<string> := ["language", "keyboard", "welcome", "betanag", "installtype"]
  const ModeSkips: seq<string> := ["installtype", "bootdisk"]
  const KickstartSkips: seq<string> := ["bootdisk", "welcome", "betanag", "installtype", "tasksel"]
  const ConfirmSkips: seq<string> := ["confirminstall", "confirmupgrade"]

  /** The install class's steps, then what a kickstart never shows for an upgrade or an install. */
  function HeadCalls(upgrade: bool): seq<StepCall> {
    if upgrade then [Defaults(true)] + Skips(UpgradeSkips) + [Decide("findinstall", true, true)] + Skips(UpgradeScreens)
    else [Defaults(false)] + Skips(["findrootparts"])
  }

  function ModeCalls(ks: KsData, autostep: bool): seq<StepCall> {
    if ks.interactive || autostep then Skips(ModeSkips) else []
  }

  function TailCalls(ks: KsData): seq<StepCall> {
    Skips(KickstartSkips)
    + (if !ks.interactive then Skips(ConfirmSkips) else [])
    + (if ks.interactive && !ks.rebootWait then Skips(["complete"]) else [])
  }

  /** The calls before the handlers' own lists are applied. */
  function FixedCalls(ks: KsData, autostep: bool): seq<StepCall> {
    HeadCalls(ks.upgrade) + ModeCalls(ks, autostep) + (if autostep then Skips(["monitor"]) else TailCalls(ks))
  }

  /**
   * Every call Kickstart.setSteps makes, given the handlers' skip,
   * permanent-skip and show lists: with autostep it stops after skipping
   * the monitor step; otherwise the handlers' skips apply only outside
   * interactive mode, and their show list comes last.
   */
  function StepCalls(ks: KsData, autostep: bool, skip: seq<string>, perm: seq<string>, show: seq<string>): seq<StepCall> {
    FixedCalls(ks, autostep) + (if autostep then [] else HandlerCalls(ks, skip, perm, show))
  }

  /** The calls made from the handlers' lists once the group-selection step is filed. */
  function HandlerCalls(ks: KsData, skip: seq<string>, perm: seq<string>, show: seq<string>): seq<StepCall> {
    var (skip', show') := GroupLists(ks, skip, show);
    (if !ks.interactive then Skips(skip') + Decisions(perm, true, true) else [])
    + Decisions(show', false, false)
  }

  /** Without autostep every step on the (updated) show list ends up shown. */
  lemma ShowStepsShown(ks: KsData, skip: seq<string>, perm: seq<string>, show: seq<string>, name: string)
    requires name in GroupLists(ks, skip, show).1
    ensures Final(StepCalls(ks, false, skip, perm, show), name) == Some(false)
  {
    var (skip', show') := GroupLists(ks, skip, show);
    var handlerSkips := if !ks.interactive then Skips(skip') + Decisions(perm, true, true) else [];
    assert HandlerCalls(ks, skip, perm, show) == handlerSkips + Decisions(show', false, false);
    FinalDecisions(show', false, false, name);
    FinalAppend(handlerSkips, Decisions(show', false, false), name);
    FinalAppend(FixedCalls(ks, false), HandlerCalls(ks, skip, perm, show), name);
  }

  /** Outside interactive mode and autostep, a step a handler skipped and nobody showed ends up skipped. */
  lemma SkipStepsSkipped(ks: KsData, skip: seq<string>, perm: seq<string>, show: seq<string>, name: string)
    requires !ks.interactive
    requires name in GroupLists(ks, skip, show).0 || name in perm
    requires name !in GroupLists(ks, skip, show).1
    ensures Final(StepCalls(ks, false, skip, perm, show), name) == Some(true)
  {
    var (skip', show') := GroupLists(ks, skip, show);
    var handlerSkips := Skips(skip') + Decisions(perm, true, true);
    assert HandlerCalls(ks, skip, perm, show) == handlerSkips + Decisions(show', false, false);
    FinalDecisions(show', false, false, name);
    FinalDecisions(skip', true, false, name);
    FinalDecisions(perm, true, true, name);
    FinalAppend(Skips(skip'), Decisions(perm, true, true), name);
    FinalAppend(handlerSkips, Decisions(show', false, false), name);
    FinalAppend(FixedCalls(ks, false), HandlerCalls(ks, skip, perm, show), name);
  }

  /** The steps setSteps may skip whatever the handlers asked. */
  const FixedSkips: set<string> := {"upgrademigfind", "upgrademigratefs", "upgradecontinue", "findinstall",
                                    "language", "keyboard", "welcome", "betanag", "installtype", "bootdisk",
                                    "monitor", "tasksel", "confirminstall", "confirmupgrade", "complete",
                                    "findrootparts"}

  /** In interactive mode the handlers' skip lists are ignored: only the fixed steps are skipped. */
  lemma InteractiveIgnoresHandlerSkips(ks: KsData, autostep: bool, skip: seq<string>, perm: seq<string>, show: seq<string>)
    requires ks.interactive
    ensures forall c :: c in StepCalls(ks, autostep, skip, perm, show) && c.Decide? && c.skip ==> c.name in FixedSkips
  {
    var fixed := FixedCalls(ks, autostep);
    var rest: seq<StepCall> := if autostep then [] else HandlerCalls(ks, skip, perm, show);
    assert StepCalls(ks, autostep, skip, perm, show) == fixed + rest;
    if !autostep {
      var show' := GroupLists(ks, skip, show).1;
      assert rest == [] + Decisions(show', false, false);
    }
    forall c: StepCall | c in fixed + rest && c.Decide? && c.skip
      ensures c.name in FixedSkips
    {
      if c in fixed {
        FixedCallsSkipFixed(ks, autostep, c);
      }
    }
  }

  /** Every skip among the fixed calls names one of FixedSkips. */
  lemma FixedCallsSkipFixed(ks: KsData, autostep: bool, c: StepCall)
    requires c in FixedCalls(ks, autostep) && c.Decide? && c.skip
    ensures c.name in FixedSkips
  {
    var head := HeadCalls(ks.upgrade);
    var mode := ModeCalls(ks, autostep);
    var last := if autostep then Skips(["monitor"]) else TailCalls(ks);
    assert FixedCalls(ks, autostep) == head + mode + last;
    if c in head {
      SkipsNamed(UpgradeSkips, c);
      SkipsNamed(UpgradeScreens, c);
      SkipsNamed(["findrootparts"], c);
    } else if c in mode {
      SkipsNamed(ModeSkips, c);
    } else if autostep {
      SkipsNamed(["monitor"], c);
    } else {
      SkipsNamed(KickstartSkips, c);
      SkipsNamed(ConfirmSkips, c);
      SkipsNamed(["complete"], c);
    }
  }

  lemma SkipsNamed(names: seq<string>, c: StepCall)
    ensures c in Skips(names) ==> c.Decide? && c.name in names
  {
    if c in Skips(names) {
      var k :| 0 <= k < |names| && Skips(names)[k] == c;
    }
  }

  /**
   * Outside interactive mode group selection is skipped exactly when the
   * kickstart is an upgrade or names packages; in interactive mode a fresh
   * install always shows it.
   */
  lemma GroupSelectionFollowsPackages(ks: KsData, skip: seq<string>, perm: seq<string>, show: seq<string>)
    requires GroupSelection !in skip && GroupSelection !in perm && GroupSelection !in show
    ensures !ks.interactive ==> Final(StepCalls(ks, false, skip, perm, show), GroupSelection) == Some(ks.upgrade || ks.hasPackages)
    ensures ks.interactive && !ks.upgrade ==> Final(StepCalls(ks, false, skip, perm, show), GroupSelection) == Some(false)
  {
    var (skip', show') := GroupLists(ks, skip, show);
    if ks.upgrade || (ks.hasPackages && !ks.interactive) {
      assert GroupSelection in skip' && GroupSelection !in show';
      if !ks.interactive {
        SkipStepsSkipped(ks, skip, perm, show, GroupSelection);
      }
    } else {
      ShowStepsShown(ks, skip, perm, show, GroupSelection);
    }
  }

  /** With autostep setSteps ends by skipping the monitor step. */
  lemma AutostepSkipsMonitor(ks: KsData, skip: seq<string>, perm: seq<string>, show: seq<string>)
    ensures Final(StepCalls(ks, true, skip, perm, show), "monitor") == Some(true)
  {
    FinalAppend(HeadCalls(ks.upgrade) + ModeCalls(ks, true), Skips(["monitor"]), "monitor");
    FinalDecisions(["monitor"], true, false, "monitor");
  }

  /** Kickstart.setSteps: drives the dispatcher and files group-selection on the handler lists. */
  method SetSteps(ks: KsData, autostep: bool, h: Handlers, d: Dispatcher)
    modifies h`skipSteps, h`showSteps, d
    ensures d.calls == old(d.calls) + StepCalls(ks, autostep, old(h.skipSteps), old(h.permanentSkipSteps), old(h.showSteps))
    ensures (h.skipSteps, h.showSteps) == if autostep then (old(h.skipSteps), old(h.showSteps))
                                         else GroupLists(ks, old(h.skipSteps), old(h.showSteps))
  {
    ghost var c0, skip, perm, show := d.calls, h.skipSteps, h.permanentSkipSteps, h.showSteps;
    FixedSteps(d, ks, autostep);
    if autostep {
      AppendNothing(c0 + FixedCalls(ks, true));
      AppendAssoc(c0, FixedCalls(ks, true), []);
    } else {
      ApplyHandlerLists(ks, h, d);
      AppendAssoc(c0, FixedCalls(ks, false), HandlerCalls(ks, skip, perm, show));
    }
  }

  lemma AppendAssoc<T>(a: seq<T>, b: seq<T>, c: seq<T>)
    ensures a + b + c == a + (b + c)
  {
  }

  lemma AppendNothing<T>(a: seq<T>)
    ensures a + [] == a
  {
  }

  /** The calls setSteps makes before it turns to the handlers' lists. */
  method FixedSteps(d: Dispatcher, ks: KsData, autostep: bool)
    modifies d
    ensures d.calls == old(d.calls) + FixedCalls(ks, autostep)
  {
    ghost var c0 := d.calls;
    SkipHead(d, ks.upgrade);
    ghost var c1 := d.calls;
    SkipMode(d, ks, autostep);
    ghost var c2 := d.calls;
    if autostep {
      ApplyDecisions(d, ["monitor"], true, false);
    } else {
      SkipTail(d, ks);
    }
    AppendThree(c0, HeadCalls(ks.upgrade), ModeCalls(ks, autostep), if autostep then Skips(["monitor"]) else TailCalls(ks));
  }

  /** The mode-dependent skips: in interactive mode or with autostep the install-type and boot-disk screens go. */
  method SkipMode(d: Dispatcher, ks: KsData, autostep: bool)
    modifies d
    ensures d.calls == old(d.calls) + ModeCalls(ks, autostep)
  {
    if ks.interactive || autostep {
      ApplyDecisions(d, ModeSkips, true, false);
    } else {
      assert d.calls + [] == d.calls;
    }
  }

  lemma AppendThree<T>(c: seq<T>, a: seq<T>, b: seq<T>, e: seq<T>)
    ensures c + a + b + e == c + (a + b + e)
  {
  }

  /** Files the group-selection step, then applies the handlers' skip, permanent-skip and show lists. */
  method ApplyHandlerLists(ks: KsData, h: Handlers, d: Dispatcher)
    modifies h`skipSteps, h`showSteps, d
    ensures d.calls == old(d.calls) + HandlerCalls(ks, old(h.skipSteps), old(h.permanentSkipSteps), old(h.showSteps))
    ensures (h.skipSteps, h.showSteps) == GroupLists(ks, old(h.skipSteps), old(h.showSteps))
  {
    if ks.upgrade {
      h.skipSteps := h.skipSteps + [GroupSelection];
    } else if ks.hasPackages {
      if ks.interactive {
        h.showSteps := h.showSteps + [GroupSelection];
      } else {
        h.skipSteps := h.skipSteps + [GroupSelection];
      }
    } else {
      h.showSteps := h.showSteps + [GroupSelection];
    }
    ghost var c2 := d.calls;
    ghost var skips := if !ks.interactive then Skips(h.skipSteps) + Decisions(h.permanentSkipSteps, true, true) else [];
    if !ks.interactive {
      ApplyDecisions(d, h.skipSteps, true, false);
      ApplyDecisions(d, h.permanentSkipSteps, true, true);
      AppendAssoc(c2, Skips(h.skipSteps), Decisions(h.permanentSkipSteps, true, true));
    } else {
      AppendNothing(c2);
    }
    ApplyDecisions(d, h.showSteps, false, false);
    AppendAssoc(c2, skips, Decisions(h.showSteps, false, false));
  }

  /** The first calls of setSteps: the install class's (or upgrade class's) own steps, then the fixed skips. */
  method SkipHead(d: Dispatcher, upgrade: bool)
    modifies d
    ensures d.calls == old(d.calls) + HeadCalls(upgrade)
  {
    d.InstallClassSteps(upgrade);
    if upgrade {
      ApplyDecisions(d, UpgradeSkips, true, false);
      d.SkipStep("findinstall", true, true);
      ApplyDecisions(d, UpgradeScreens, true, false);
    } else {
      ApplyDecisions(d, ["findrootparts"], true, false);
    }
  }

  /** The screens a kickstart install without autostep never shows. */
  method SkipTail(d: Dispatcher, ks: KsData)
    modifies d
    ensures d.calls == old(d.calls) + TailCalls(ks)
  {
    ApplyDecisions(d, KickstartSkips, true, false);
    if !ks.interactive {
      ApplyDecisions(d, ConfirmSkips, true, false);
    }
    if ks.interactive && !ks.rebootWait {
      ApplyDecisions(d, ["complete"], true, false);
    }
  }

  /** The `for n in ...: dispatch.skipStep(n, ...)` loops of setSteps. */
  method ApplyDecisions(d: Dispatcher, names: seq<string>, skip: bool, permanent: bool)
    modifies d
    ensures d.calls == old(d.calls) + Decisions(names, skip, permanent)
  {
    var i := 0;
    while i < |names|
      invariant 0 <= i <= |names|
      invariant d.calls == old(d.calls) + Decisions(names[..i], skip, permanent)
    {
      assert names[..i + 1][..i] == names[..i];
      d.SkipStep(names[i], skip, permanent);
      i := i + 1;
    }
    assert names[..i] == names;
  }

  // ---------------------------------------------------------------------
  // AnacondaKSParser.handleCommand
  // ---------------------------------------------------------------------

  /** What handleCommand does with a command line. */
  datatype Dispatch =
    | NoHandlers                                 // the parser has no handler object
    | UnknownCommand(lineno: nat)                // KickstartParseError
    | Unbound                                    // the command's handler is None
    | Run(cmd: string, cmdArgs: seq<string>)     // the handler is called with the arguments

  function DispatchOf(table: map<string, bool>, lineno: nat, args: seq<string>): (r: Dispatch)
    requires args != []
    ensures r.UnknownCommand? <==> args[0] !in table
    ensures r.Run? <==> args[0] in table && table[args[0]]
    ensures r.Run? ==> [r.cmd] + r.cmdArgs == args
  {
    var cmd := args[0];
    if cmd !in table then UnknownCommand(lineno)
    else if table[cmd] then Run(cmd, args[1..])
    else Unbound
  }

  /**
   * AnacondaKSParser.handleCommand: the handler records the command and its
   * line before it runs; the call itself is left to the caller.
   */
  method HandleCommand(handler: Option<Handlers>, lineno: nat, args: seq<string>) returns (d: Dispatch)
    requires handler.Some? ==> args != []
    modifies if handler.Some? then {handler.value} else {}
    ensures handler.None? ==> d == NoHandlers
    ensures handler.Some? ==> d == DispatchOf(old(handler.value.handlers), lineno, args)
    ensures handler.Some? && d.Run? ==> handler.value.currentCmd == args[0] && handler.value.lineno == lineno
    ensures handler.Some? && !d.Run? ==> handler.value.currentCmd == old(handler.value.currentCmd)
                                         && handler.value.lineno == old(handler.value.lineno)
    ensures handler.Some? ==> handler.value.handlers == old(handler.value.handlers)
                              && handler.value.Bookkeeping() == old(handler.value.Bookkeeping())
                              && handler.value.skipSteps == old(handler.value.skipSteps)
                              && handler.value.showSteps == old(handler.value.showSteps)
                              && handler.value.permanentSkipSteps == old(handler.value.permanentSkipSteps)
  {
    if handler.None? {
      return NoHandlers;
    }
    var h := handler.value;
    var cmd := args[0];
    if cmd !in h.handlers {
      return UnknownCommand(lineno);
    }
    if h.handlers[cmd] {
      h.currentCmd := cmd;
      h.lineno := lineno;
      return Run(cmd, args[1..]);
    }
    return Unbound;
  }

  // ---------------------------------------------------------------------
  // pullRemainingKickstartConfig
  // ---------------------------------------------------------------------

  const AppendTag := "%ksappend"

  /** string.find(s, sub, from) != -1 */
  predicate MentionsFrom(s: string, sub: string, from: nat)
    decreases |s| - from
  {
    from + |sub| <= |s| && (s[from..from + |sub|] == sub || MentionsFrom(s, sub, from + 1))
  }

  /**
   * A line that mentions %ksappend anywhere.  The source looks in the
   * stripped line; the tag has no white space at either end, so stripping
   * never changes the answer (StripKeepsMention).
   */
  predicate Tagged(line: string) {
    MentionsFrom(line, AppendTag, 0)
  }

  lemma {:induction false} MentionsAt(s: string, sub: string, from: nat, i: nat)
    requires from <= i && OccursAt(s, sub, i)
    ensures MentionsFrom(s, sub, from)
    decreases i - from
  {
    if from < i {
      MentionsAt(s, sub, from + 1, i);
    }
  }

  lemma {:induction false} MentionWitness(s: string, sub: string, from: nat) returns (i: nat)
    requires MentionsFrom(s, sub, from)
    ensures from <= i && OccursAt(s, sub, i)
    decreases |s| - from
  {
    if s[from..from + |sub|] == sub {
      i := from;
    } else {
      i := MentionWitness(s, sub, from + 1);
    }
  }

  /** Strip(s) is a slice of `s` with only white space around it. */
  lemma StripSlice(s: string) returns (a: nat)
    ensures a + |Strip(s)| <= |s| && Strip(s) == s[a..a + |Strip(s)|]
    ensures forall k :: 0 <= k < a ==> IsSpace(s[k])
    ensures forall k :: a + |Strip(s)| <= k < |s| ==> IsSpace(s[k])
  {
    var t := TrimLeft(s);
    a := |s| - |t|;
    TrimmedBothEnds(s, t, TrimRight(t), a);
  }

  lemma TrimmedBothEnds(s: string, t: string, u: string, a: nat)
    requires a <= |s| && t == s[a..] && |u| <= |t| && u == t[..|u|]
    requires forall k :: |u| <= k < |t| ==> IsSpace(t[k])
    ensures a + |u| <= |s| && u == s[a..a + |u|]
    ensures forall k :: a + |u| <= k < |s| ==> IsSpace(s[k])
  {
    forall k | a + |u| <= k < |s|
      ensures IsSpace(s[k])
    {
      assert t[k - a] == s[k];
    }
  }

  /** Stripping white space from both ends never adds or removes a mention of the tag. */
  lemma StripKeepsMention(s: string)
    ensures MentionsFrom(Strip(s), AppendTag, 0) <==> Tagged(s)
  {
    var a := StripSlice(s);
    MentionInSlice(s, Strip(s), a, AppendTag);
  }

  /**
   * A slice with only white space around it mentions `sub`, which neither
   * starts nor ends with white space, exactly when the whole string does.
   */
  lemma MentionInSlice(s: string, u: string, a: nat, sub: string)
    requires a + |u| <= |s| && u == s[a..a + |u|]
    requires forall k :: 0 <= k < a ==> IsSpace(s[k])
    requires forall k :: a + |u| <= k < |s| ==> IsSpace(s[k])
    requires sub != [] && !IsSpace(sub[0]) && !IsSpace(sub[|sub| - 1])
    ensures MentionsFrom(u, sub, 0) <==> MentionsFrom(s, sub, 0)
  {
    if MentionsFrom(u, sub, 0) {
      var j := MentionWitness(u, sub, 0);
      SliceOccurrence(s, u, a, sub, j);
      MentionsAt(s, sub, 0, a + j);
    }
    if MentionsFrom(s, sub, 0) {
      var i := MentionWitness(s, sub, 0);
      OccurrenceInSlice(s, u, a, sub, i);
      MentionsAt(u, sub, 0, i - a);
    }
  }

  lemma SliceOccurrence(s: string, u: string, a: nat, sub: string, j: nat)
    requires a + |u| <= |s| && u == s[a..a + |u|]
    requires OccursAt(u, sub, j)
    ensures OccursAt(s, sub, a + j)
  {
    var w := u[j..j + |sub|];
    assert forall k :: 0 <= k < |sub| ==> w[k] == s[a + j + k];
    assert s[a + j..a + j + |sub|] == w;
  }

  lemma OccurrenceInSlice(s: string, u: string, a: nat, sub: string, i: nat)
    requires a + |u| <= |s| && u == s[a..a + |u|]
    requires forall k :: 0 <= k < a ==> IsSpace(s[k])
    requires forall k :: a + |u| <= k < |s| ==> IsSpace(s[k])
    requires sub != [] && !IsSpace(sub[0]) && !IsSpace(sub[|sub| - 1])
    requires OccursAt(s, sub, i)
    ensures a <= i && OccursAt(u, sub, i - a)
  {
    assert s[i] == sub[0] by { assert s[i..i + |sub|][0] == s[i]; }
    assert s[i + |sub| - 1] == sub[|sub| - 1] by { assert s[i..i + |sub|][|sub| - 1] == s[i + |sub| - 1]; }
    var v := i - a;
    var w := u[v..v + |sub|];
    assert forall k :: 0 <= k < |sub| ==> w[k] == s[i + k];
    assert w == s[i..i + |sub|];
  }

  /** What urlgrabber's urlopen gave back: an error, or a reply with its content-length header, if any, and its body. */
  datatype UrlReply = UrlError(strerror: string) | UrlOpened(contentLength: Option<string>, body: string)

  /** The file is left alone, or rewritten with these lines after fetching `url`, or KickstartError is raised. */
  datatype PullResult = Unchanged | Rewritten(url: string, contents: seq<string>) | PullError(msg: string)

  const IllegalAppendUrl := "Illegal url for %ksappend - "
  const FileNotFound := "IOError: -1:File not found"

  /** The index of the first tagged line. */
  function FirstTagged(lines: seq<string>): (r: Option<nat>)
    ensures r.Some? ==> r.value < |lines| && Tagged(lines[r.value])
    ensures r.Some? ==> forall j :: 0 <= j < r.value ==> !Tagged(lines[j])
    ensures r.None? ==> forall j :: 0 <= j < |lines| ==> !Tagged(lines[j])
  {
    if lines == [] then None
    else if Tagged(lines[0]) then Some(0)
    else match FirstTagged(lines[1..])
      case None => None
      case Some(i) => Some(i + 1)
  }

  /** The lines written back: every line that is not tagged, in order. */
  function Untagged(lines: seq<string>): (r: seq<string>)
    ensures forall j :: 0 <= j < |r| ==> !Tagged(r[j])
    ensures |r| <= |lines|
  {
    if lines == [] then []
    else Untagged(lines[..|lines| - 1]) + (if Tagged(lines[|lines| - 1]) then [] else [lines[|lines| - 1]])
  }

  lemma {:induction false} UntaggedAppend(a: seq<string>, b: seq<string>)
    ensures Untagged(a + b) == Untagged(a) + Untagged(b)
    decreases |b|
  {
    if b == [] {
      assert a + b == a;
    } else {
      var init := b[..|b| - 1];
      assert (a + b)[..|a + b| - 1] == a + init;
      assert (a + b)[|a + b| - 1] == b[|b| - 1];
      UntaggedAppend(a, init);
    }
  }

  /** Lines none of which is tagged are all written back. */
  lemma {:induction false} UntaggedKeepsAll(lines: seq<string>)
    requires forall j :: 0 <= j < |lines| ==> !Tagged(lines[j])
    ensures Untagged(lines) == lines
    decreases |lines|
  {
    if lines != [] {
      UntaggedKeepsAll(lines[..|lines| - 1]);
    }
  }

  /**
   * The content-length test: as written the header (a string) is compared
   * with the integer 1, which in Python 2 is false for every string, so only
   * a missing header fails; corrected, the length must parse to at least 1.
   */
  predicate LengthRejected(contentLength: Option<string>, variant: Variant) {
    match contentLength
    case None => true
    case Some(v) => variant == Corrected && (PyInt(v).None? || PyInt(v).value < 1)
  }

  /**
   * What happens once the first tagged line `ll` (stripped) is found:
   * it must split on single spaces into exactly two words, the second being
   * the URL; `reply` is what opening that URL gave; `kept` are the lines
   * written back ahead of the fetched body.
   */
  function Fetch(ll: string, reply: UrlReply, variant: Variant, kept: seq<string>): (r: PullResult)
    ensures r.Rewritten? <==> |Split(ll, ' ')| == 2 && reply.UrlOpened? && !LengthRejected(reply.contentLength, variant)
    ensures r.Rewritten? ==> r.url == Split(ll, ' ')[1] && r.contents == kept + [reply.body]
    ensures r.PullError? && |Split(ll, ' ')| != 2 ==> r.msg == IllegalAppendUrl + ll
  {
    var pieces := Split(ll, ' ');
    if |pieces| != 2 then PullError(IllegalAppendUrl + ll)
    else match reply
      case UrlError(e) => PullError("IOError: " + e)
      case UrlOpened(clen, body) =>
        if LengthRejected(clen, variant) then PullError(FileNotFound)
        else Rewritten(pieces[1], kept + [body])
  }

  /**
   * pullRemainingKickstartConfig on the lines of ks.cfg; `reply` is what
   * urlgrabber.urlopen gives for the URL on the first %ksappend line, the
   * only one looked at.
   */
  function Pull(lines: seq<string>, reply: UrlReply, variant: Variant): PullResult {
    match FirstTagged(lines)
    case None => Unchanged
    case Some(i) => Fetch(Strip(lines[i]), reply, variant, Untagged(lines))
  }

  /**
   * Only the first %ksappend line counts: it is the line fetched whatever
   * follows it, and the lines written back are the lines before it and the
   * untagged lines after it.
   */
  lemma OnlyFirstAppendCounts(pre: seq<string>, line: string, post: seq<string>)
    requires forall j :: 0 <= j < |pre| ==> !Tagged(pre[j])
    requires Tagged(line)
    ensures FirstTagged(pre + [line] + post) == Some(|pre|)
    ensures Untagged(pre + [line] + post) == pre + Untagged(post)
  {
    var lines := pre + [line] + post;
    assert lines[|pre|] == line;
    assert forall j :: 0 <= j < |pre| ==> !Tagged(lines[j]) by {
      forall j | 0 <= j < |pre| ensures !Tagged(lines[j]) {
        assert lines[j] == pre[j];
      }
    }
    FirstTaggedAt(lines, |pre|);
    UntaggedPrefix(pre, line, post);
  }

  lemma UntaggedPrefix(pre: seq<string>, line: string, post: seq<string>)
    requires forall j :: 0 <= j < |pre| ==> !Tagged(pre[j])
    requires Tagged(line)
    ensures Untagged(pre + [line] + post) == pre + Untagged(post)
  {
    UntaggedAppend(pre + [line], post);
    UntaggedAppend(pre, [line]);
    UntaggedKeepsAll(pre);
    UntaggedTagged(line);
    assert pre + [] == pre;
  }

  lemma UntaggedTagged(line: string)
    requires Tagged(line)
    ensures Untagged([line]) == []
  {
    assert [line][..0] == [];
  }

  /** A file with no %ksappend line is left alone. */
  lemma NoAppendUnchanged(lines: seq<string>, reply: UrlReply, variant: Variant)
    requires forall j :: 0 <= j < |lines| ==> !Tagged(lines[j])
    ensures Pull(lines, reply, variant) == Unchanged
  {
  }

  /** The line "%ksappend <url>" for a URL without spaces, as the source expects it. */
  lemma AppendLineParts(url: string)
    requires url != [] && ' ' !in url && !IsSpace(url[|url| - 1])
    ensures var line := AppendTag + " " + url;
            Strip(line) == line && Tagged(line) && Split(line, ' ') == [AppendTag, url]
  {
    var line := AppendTag + " " + url;
    assert line[..|AppendTag|] == AppendTag;
    MentionsAt(line, AppendTag, 0, 0);
    assert line[0] == '%' && line[|line| - 1] == url[|url| - 1];
    assert line[..9] == AppendTag && line[9] == ' ';
    FindCharAt(line, ' ', 9);
    assert line[10..] == url;
    FindCharNone(url, ' ');
  }

  /**
   * Whatever the URL and body, a reply whose content-length header is "0"
   * rewrites the file as written; the corrected test refuses it.
   */
  lemma EmptyAppendAcceptedAsWritten(url: string, body: string)
    requires url != [] && ' ' !in url && !IsSpace(url[|url| - 1])
    ensures Pull([AppendTag + " " + url], UrlOpened(Some("0"), body), AsWritten) == Rewritten(url, [body])
    ensures Pull([AppendTag + " " + url], UrlOpened(Some("0"), body), Corrected) == PullError(FileNotFound)
  {
    var line := AppendTag + " " + url;
    var reply := UrlOpened(Some("0"), body);
    AppendLineParts(url);
    FirstTaggedAt([line], 0);
    assert Untagged([line]) == [] by { assert [line][..0] == []; }
    ZeroLength();
    assert Pull([line], reply, AsWritten) == Fetch(line, reply, AsWritten, []);
    assert Pull([line], reply, Corrected) == Fetch(line, reply, Corrected, []);
  }

  /** A content-length of "0" passes the check as written and fails the corrected one. */
  lemma ZeroLength()
    ensures !LengthRejected(Some("0"), AsWritten) && LengthRejected(Some("0"), Corrected)
  {
    assert Strip("0") == "0";
  }

  /** Corrected, a rewrite needs a reply whose content-length parses to at least one byte. */
  lemma CorrectedNeedsLength(lines: seq<string>, reply: UrlReply)
    ensures Pull(lines, reply, Corrected).Rewritten? ==>
              reply.UrlOpened? && reply.contentLength.Some?
              && PyInt(reply.contentLength.value).Some? && PyInt(reply.contentLength.value).value >= 1
  {
  }

  /** pullRemainingKickstartConfig: the scan for %ksappend, then the rewrite. */
  method PullRemainingKickstartConfig(lines: seq<string>, reply: UrlReply, variant: Variant) returns (r: PullResult)
    ensures r == Pull(lines, reply, variant)
  {
    var url: Option<(string, string)> := None;
    var i := 0;
    while i < |lines|
      invariant 0 <= i <= |lines|
      invariant forall j :: 0 <= j < i ==> !Tagged(lines[j])
    {
      var ll := Strip(lines[i]);
      StripKeepsMention(lines[i]);
      if MentionsFrom(ll, AppendTag, 0) {
        assert FirstTagged(lines) == Some(i) by { FirstTaggedAt(lines, i); }
        var pieces := Split(ll, ' ');
        if |pieces| != 2 {
          return PullError(IllegalAppendUrl + ll);
        }
        var ksurl := pieces[1];
        if reply.UrlError? {
          return PullError("IOError: " + reply.strerror);
        }
        if LengthRejected(reply.contentLength, variant) {
          return PullError(FileNotFound);
        }
        url := Some((ksurl, reply.body));
        break;
      }
      i := i + 1;
    }
    if url.None? {
      return Unchanged;
    }
    var written := KeptLines(lines);
    return Rewritten(url.value.0, written + [url.value.1]);
  }

  lemma FirstTaggedAt(lines: seq<string>, i: nat)
    requires i < |lines| && Tagged(lines[i])
    requires forall j :: 0 <= j < i ==> !Tagged(lines[j])
    ensures FirstTagged(lines) == Some(i)
  {
  }

  /** The second loop: every line without %ksappend is written back, in order. */
  method KeptLines(lines: seq<string>) returns (written: seq<string>)
    ensures written == Untagged(lines)
  {
    written := [];
    var k := 0;
    while k < |lines|
      invariant 0 <= k <= |lines|
      invariant written == Untagged(lines[..k])
    {
      assert lines[..k + 1][..k] == lines[..k];
      var ll := Strip(lines[k]);
      StripKeepsMention(lines[k]);
      if !MentionsFrom(ll, AppendTag, 0) {
        written := written + [lines[k]];
      }
      k := k + 1;
    }
    assert lines[..k] == lines;
  }
}
