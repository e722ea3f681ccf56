/**
 * The rest of the yum backend's logic (yuminstall.py): the disc a package
 * lives on, the media a split-media transaction runs on, the summary of
 * problems when the transaction fails, the packages to download, the
 * kernel versions installed, and removing a package from the transaction.
 * The transaction set, rpm and the user interface are left to their
 * callers; what they return is given as input.
 */
module YumInstall {
  import opened Wrappers
  import opened Strings
  import YumDeps

  // ----- getcd -----

  /** The characters urlparse accepts in a scheme. */
  predicate IsSchemeChar(c: char) {
    IsAlnum(c) || c == '+' || c == '-' || c == '.'
  }

  predicate IsScheme(s: string) {
    |s| > 0 && forall j :: 0 <= j < |s| ==> IsSchemeChar(s[j])
  }

  /**
   * urlparse.urlsplit's scheme, lower-cased, and the text after it: the
   * scheme is the text before the first colon when that is not empty and
   * made of scheme characters; otherwise there is none.
   */
  function SplitScheme(uri: string): (string, string) {
    match FindChar(uri, ':')
    case None => ("", uri)
    case Some(i) =>
      if IsScheme(uri[..i]) then (ToLower(uri[..i]), uri[i + 1..])
      else ("", uri)
  }

  /** The fragment: the text after the first `#`, empty when there is none (`media` is added to the schemes that take one). */
  function FragmentOf(rest: string): string {
    match FindChar(rest, '#')
    case None => ""
    case Some(k) => rest[k + 1..]
  }

  /**
   * getcd on a package whose basepath is given (None when the attribute or
   * key is missing): 0 unless the path is a `media:` URI with a fragment,
   * whose number is then the disc; None when int() raises ValueError on
   * the fragment, which getcd does not catch.
   */
  function Getcd(basepath: Option<string>): Option<int> {
    if basepath.None? then Some(0)
    else
      var (scheme, rest) := SplitScheme(basepath.value);
      var frag := FragmentOf(rest);
      if scheme != "media" || |frag| == 0 then Some(0) else PyInt(frag)
  }

  /** Anything but disc 0 comes from a media URI's fragment. */
  lemma GetcdNonZero(basepath: Option<string>)
    ensures Getcd(basepath) != Some(0) ==>
              basepath.Some? && SplitScheme(basepath.value).0 == "media" &&
              |FragmentOf(SplitScheme(basepath.value).1)| > 0 &&
              Getcd(basepath) == PyInt(FragmentOf(SplitScheme(basepath.value).1))
    ensures basepath.None? ==> Getcd(basepath) == Some(0)
  {
  }

  /** int() reads back a rendered number. */
  lemma PyIntOfNat(n: nat)
    ensures PyInt(NatToString(n)) == Some(n)
  {
    var s := NatToString(n);
    assert !IsSpace(s[0]) && !IsSpace(s[|s| - 1]);
    assert TrimLeft(s) == s;
    assert TrimRight(s) == s;
    assert Strip(s) == s;
    assert IsDigit(s[0]) && s[0] != '-' && s[0] != '+';
    NatToStringValue(n);
  }

  /** A scheme of scheme characters before the first colon is split off and lower-cased. */
  lemma SplitSchemeOf(scheme: string, rest: string)
    requires IsScheme(scheme)
    ensures SplitScheme(scheme + ":" + rest) == (ToLower(scheme), rest)
  {
    var uri := scheme + ":" + rest;
    assert ':' !in scheme by {
      forall j | 0 <= j < |scheme| ensures scheme[j] != ':' {
        assert IsSchemeChar(scheme[j]);
      }
    }
    assert uri[..|scheme|] == scheme;
    FindCharAt(uri, ':', |scheme|);
    assert uri[|scheme| + 1..] == rest;
  }

  lemma FragmentAfter(path: string, frag: string)
    requires '#' !in path
    ensures FragmentOf(path + "#" + frag) == frag
  {
    var rest := path + "#" + frag;
    assert rest[..|path|] == path;
    FindCharAt(rest, '#', |path|);
    assert rest[|path| + 1..] == frag;
  }

  /** A `media:` URI (in any case) whose fragment is a disc number gives that number. */
  lemma GetcdDisc(scheme: string, path: string, n: nat)
    requires IsScheme(scheme) && ToLower(scheme) == "media"
    requires '#' !in path
    ensures Getcd(Some(scheme + ":" + path + "#" + NatToString(n))) == Some(n)
  {
    var digits := NatToString(n);
    var rest := path + "#" + digits;
    assert scheme + ":" + path + "#" + digits == scheme + ":" + rest;
    SplitSchemeOf(scheme, rest);
    FragmentAfter(path, digits);
    PyIntOfNat(n);
  }

  // ----- run: the media of a split-media transaction -----

  function Ints(s: seq<int>): set<int> {
    set x | x in s
  }

  /**
   * The discs the transaction runs on, given the keys of reqmedia in
   * dictionary order and the discs of the current media set: no required
   * media means disc 0 only, and so do required media all among the
   * current ones.
   */
  function MediaPlan(reqmedia: seq<int>, current: set<int>): (r: seq<int>)
  {
    var keys := if reqmedia == [] then [0] else reqmedia;
    if Ints(keys) <= current then [0] else keys
  }

  lemma MediaPlanCases(reqmedia: seq<int>, current: set<int>)
    ensures MediaPlan(reqmedia, current) == [0] <==> reqmedia == [] || Ints(reqmedia) <= current || reqmedia == [0]
    ensures MediaPlan(reqmedia, current) != [0] ==> MediaPlan(reqmedia, current) == reqmedia
  {
    if reqmedia == [] {
      assert Ints([0]) == {0};
    }
  }

  /** What the transaction does: change discs, or run the transaction with the current disc recorded (None when media are not split). */
  datatype MediaStep = SwitchMedia(disc: int) | RunTransaction(curmedia: Option<int>)

  function DiscSteps(i: int): seq<MediaStep> {
    if i > 0 then [SwitchMedia(i), RunTransaction(Some(i))] else [RunTransaction(Some(i))]
  }

  function PlanSteps(plan: seq<int>): seq<MediaStep>
    decreases |plan|
  {
    if plan == [] then [] else PlanSteps(plan[..|plan| - 1]) + DiscSteps(plan[|plan| - 1])
  }

  /** Each disc of the plan runs the transaction once, after a disc change unless it is disc 0 or below; nothing else happens. */
  lemma {:induction false} PlanStepsIff(plan: seq<int>, i: int)
    ensures RunTransaction(Some(i)) in PlanSteps(plan) <==> i in plan
    ensures SwitchMedia(i) in PlanSteps(plan) <==> i in plan && i > 0
    ensures RunTransaction(None) !in PlanSteps(plan)
    decreases |plan|
  {
    if plan != [] {
      var n := |plan| - 1;
      PlanStepsIff(plan[..n], i);
      assert plan == plan[..n] + [plan[n]];
      assert i in plan <==> i in plan[..n] || i == plan[n];
    }
  }

  /** AnacondaYum.run: one transaction, or one per disc of the plan. */
  method Run(splitmethod: bool, reqmedia: seq<int>, current: set<int>) returns (steps: seq<MediaStep>)
    ensures !splitmethod ==> steps == [RunTransaction(None)]
    ensures splitmethod ==> steps == PlanSteps(MediaPlan(reqmedia, current))
  {
    if !splitmethod {
      return [RunTransaction(None)];
    }
    var keys := reqmedia;
    if keys == [] {
      keys := [0];
    }
    if Ints(keys) <= current {
      keys := [0];
    }
    steps := [];
    var k := 0;
    while k < |keys|
      invariant k <= |keys|
      invariant steps == PlanSteps(keys[..k])
    {
      assert keys[..k + 1][..k] == keys[..k];
      var i := keys[k];
      if i > 0 {
        steps := steps + [SwitchMedia(i)];
      }
      steps := steps + [RunTransaction(Some(i))];
      k := k + 1;
    }
    assert keys[..k] == keys;
  }

  // ----- _run: the problems of a failed transaction -----

  /** rpm's problem types, those _run knows by name and the others. */
  datatype ProbType =
    | NewFileConflict | FileConflict | OldPackage | DiskSpace | DiskNodes
    | Conflict | PkgInstalled | RequiresProb | BadArch | BadOs | OtherProblem(code: int)

  /** A problem of the failed transaction: its description and its type. */
  datatype Problem = Problem(descr: string, kind: ProbType)

  /** The reason _run gives for a known problem type. */
  function ProbText(t: ProbType): Option<string> {
    match t
    case NewFileConflict => Some("file conflicts")
    case FileConflict => Some("file conflicts")
    case OldPackage => Some("older package(s)")
    case DiskSpace => Some("insufficient disk space")
    case DiskNodes => Some("insufficient disk inodes")
    case Conflict => Some("package conflicts")
    case PkgInstalled => Some("package already installed")
    case RequiresProb => Some("required package")
    case BadArch => Some("package for incorrect arch")
    case BadOs => Some("package for incorrect os")
    case OtherProblem(_) => None
  }

  /** The known problem types, each at its first appearance. */
  function UniqueKinds(probs: seq<Problem>): seq<ProbType>
    decreases |probs|
  {
    if probs == [] then []
    else
      var prev := UniqueKinds(probs[..|probs| - 1]);
      var k := probs[|probs| - 1].kind;
      if k !in prev && ProbText(k).Some? then prev + [k] else prev
  }

  /** Some problem of the list has type `k`. */
  predicate Occurs(probs: seq<Problem>, k: ProbType) {
    exists i :: 0 <= i < |probs| && probs[i].kind == k
  }

  lemma OccursSnoc(probs: seq<Problem>, k: ProbType)
    requires probs != []
    ensures Occurs(probs, k) <==> Occurs(probs[..|probs| - 1], k) || probs[|probs| - 1].kind == k
  {
    var n := |probs| - 1;
    if Occurs(probs, k) {
      var i :| 0 <= i < |probs| && probs[i].kind == k;
      if i < n {
        assert probs[..n][i].kind == k;
      }
    }
    if Occurs(probs[..n], k) {
      var i :| 0 <= i < n && probs[..n][i].kind == k;
      assert probs[i].kind == k;
    }
  }

  /** Each known type that occurs is reported, unknown ones are not, and none twice. */
  lemma {:induction false} UniqueKindsIff(probs: seq<Problem>)
    ensures forall k :: k in UniqueKinds(probs) <==> ProbText(k).Some? && Occurs(probs, k)
    ensures forall i, j :: 0 <= i < j < |UniqueKinds(probs)| ==> UniqueKinds(probs)[i] != UniqueKinds(probs)[j]
    decreases |probs|
  {
    if probs != [] {
      var n := |probs| - 1;
      UniqueKindsIff(probs[..n]);
      forall k {
        OccursSnoc(probs, k);
      }
    }
  }

  function Texts(kinds: seq<ProbType>): seq<string>
    requires forall i :: 0 <= i < |kinds| ==> ProbText(kinds[i]).Some?
  {
    seq(|kinds|, i requires 0 <= i < |kinds| => ProbText(kinds[i]).value)
  }

  /** The message of the error window. */
  function FailureMessage(kinds: seq<ProbType>): string
    requires forall i :: 0 <= i < |kinds| ==> ProbText(kinds[i]).Some?
  {
    "There was an error running your transaction, for the following reason(s): " + Join(Texts(kinds), ", ") + " "
  }

  /** The loop over the problems: the known types in order of first appearance, and the lines logged. */
  method UniqueProblems(probs: seq<Problem>) returns (kinds: seq<ProbType>, logged: seq<string>)
    ensures kinds == UniqueKinds(probs)
    ensures |logged| == |probs| && forall i :: 0 <= i < |probs| ==> logged[i] == "error running transaction: " + probs[i].descr
  {
    kinds := [];
    logged := [];
    var i := 0;
    while i < |probs|
      invariant i <= |probs|
      invariant kinds == UniqueKinds(probs[..i])
      invariant |logged| == i && forall j :: 0 <= j < i ==> logged[j] == "error running transaction: " + probs[j].descr
    {
      assert probs[..i + 1][..i] == probs[..i];
      var kind := probs[i].kind;
      if kind !in kinds && ProbText(kind).Some? {
        kinds := kinds + [kind];
      }
      logged := logged + ["error running transaction: " + probs[i].descr];
      i := i + 1;
    }
    assert probs[..i] == probs;
  }

  /** What _run ends with: success, or the error window's message and exit status 1. */
  datatype RunOutcome = Completed | Failed(message: string, logged: seq<string>, exitCode: int)

  /** _run, given the problems runTransaction raised (None when it succeeded). */
  method RunTransactionResult(raised: Option<seq<Problem>>) returns (r: RunOutcome)
    ensures raised.None? <==> r.Completed?
    ensures raised.Some? ==> r.Failed? && r.exitCode == 1 && |r.logged| == |raised.value|
    ensures raised.Some? ==>
              (forall k :: k in UniqueKinds(raised.value) ==> ProbText(k).Some?) &&
              r.message == FailureMessage(UniqueKinds(raised.value))
  {
    if raised.None? {
      return Completed;
    }
    var kinds, logged := UniqueProblems(raised.value);
    UniqueKindsIff(raised.value);
    r := Failed(FailureMessage(kinds), logged, 1);
  }

  // ----- getDownloadPkgs -----

  /** A package's installed size in bytes and, per file type, its number of files. */
  datatype PackageFiles = PackageFiles(installedSize: nat, fileCounts: seq<nat>)

  /** A member as getDownloadPkgs sees it: its ts_state and its package, if it has one. */
  datatype DownloadMember = DownloadMember(tsState: string, po: Option<PackageFiles>)

  function SumNat(xs: seq<nat>): nat
    decreases |xs|
  {
    if xs == [] then 0 else SumNat(xs[..|xs| - 1]) + xs[|xs| - 1]
  }

  predicate Downloaded(m: DownloadMember) {
    (m.tsState == "i" || m.tsState == "u") && m.po.Some?
  }

  /** The packages downloaded: those of members being installed or updated. */
  function DownloadPkgs(members: seq<DownloadMember>): (r: seq<PackageFiles>)
    decreases |members|
  {
    if members == [] then []
    else
      var m := members[|members| - 1];
      DownloadPkgs(members[..|members| - 1]) + (if Downloaded(m) then [m.po.value] else [])
  }

  /** Each package's size in KiB, rounded down before it is added. */
  function SizeKiB(pkgs: seq<PackageFiles>): nat
    decreases |pkgs|
  {
    if pkgs == [] then 0 else SizeKiB(pkgs[..|pkgs| - 1]) + pkgs[|pkgs| - 1].installedSize / 1024
  }

  function FileTotal(pkgs: seq<PackageFiles>): nat
    decreases |pkgs|
  {
    if pkgs == [] then 0 else FileTotal(pkgs[..|pkgs| - 1]) + SumNat(pkgs[|pkgs| - 1].fileCounts)
  }

  function Bytes(pkgs: seq<PackageFiles>): nat
    decreases |pkgs|
  {
    if pkgs == [] then 0 else Bytes(pkgs[..|pkgs| - 1]) + pkgs[|pkgs| - 1].installedSize
  }

  /** The total size is short of the bytes in KiB by less than one KiB per package, since each size is rounded down on its own. */
  lemma {:induction false} SizeKiBBounds(pkgs: seq<PackageFiles>)
    ensures SizeKiB(pkgs) * 1024 <= Bytes(pkgs) < SizeKiB(pkgs) * 1024 + 1024 * |pkgs| || (pkgs == [] && Bytes(pkgs) == 0)
    decreases |pkgs|
  {
    if pkgs != [] {
      var n := |pkgs| - 1;
      SizeKiBBounds(pkgs[..n]);
      var s := pkgs[n].installedSize;
      assert (s / 1024) * 1024 <= s < (s / 1024) * 1024 + 1024;
    }
  }

  /** A member is downloaded exactly when it is being installed or updated and has a package. */
  lemma DownloadPkgsIff(members: seq<DownloadMember>, p: PackageFiles)
    ensures p in DownloadPkgs(members) <==> exists i :: 0 <= i < |members| && Downloaded(members[i]) && members[i].po.value == p
  {
    if p in DownloadPkgs(members) {
      var i := DownloadPkgsWitness(members, p);
    }
    if exists i :: 0 <= i < |members| && Downloaded(members[i]) && members[i].po.value == p {
      var i :| 0 <= i < |members| && Downloaded(members[i]) && members[i].po.value == p;
      DownloadPkgsHas(members, i);
    }
  }

  /** A listed package comes from a member that was downloaded. */
  lemma {:induction false} DownloadPkgsWitness(members: seq<DownloadMember>, p: PackageFiles) returns (i: nat)
    requires p in DownloadPkgs(members)
    ensures i < |members| && Downloaded(members[i]) && members[i].po.value == p
    decreases |members|
  {
    var n := |members| - 1;
    if Downloaded(members[n]) && members[n].po.value == p {
      i := n;
    } else {
      assert p in DownloadPkgs(members[..n]);
      i := DownloadPkgsWitness(members[..n], p);
      assert members[..n][i] == members[i];
    }
  }

  /** Every downloaded member's package is listed. */
  lemma {:induction false} DownloadPkgsHas(members: seq<DownloadMember>, i: nat)
    requires i < |members| && Downloaded(members[i])
    ensures members[i].po.value in DownloadPkgs(members)
    decreases |members|
  {
    var n := |members| - 1;
    if i < n {
      DownloadPkgsHas(members[..n], i);
      assert members[..n][i] == members[i];
    }
  }

  /** The loop over a package's file types: its number of files. */
  method CountFiles(counts: seq<nat>) returns (files: nat)
    ensures files == SumNat(counts)
  {
    files := 0;
    var k := 0;
    while k < |counts|
      invariant k <= |counts|
      invariant files == SumNat(counts[..k])
    {
      assert counts[..k + 1][..k] == counts[..k];
      files := files + counts[k];
      k := k + 1;
    }
    assert counts[..k] == counts;
  }

  /** getDownloadPkgs: the packages, their total size in KiB and their number of files. */
  method GetDownloadPkgs(members: seq<DownloadMember>) returns (pkgs: seq<PackageFiles>, totalSize: nat, totalFiles: nat)
    ensures pkgs == DownloadPkgs(members)
    ensures totalSize == SizeKiB(pkgs) && totalFiles == FileTotal(pkgs)
  {
    pkgs := [];
    totalSize := 0;
    totalFiles := 0;
    var i := 0;
    while i < |members|
      invariant i <= |members|
      invariant pkgs == DownloadPkgs(members[..i])
      invariant totalSize == SizeKiB(pkgs) && totalFiles == FileTotal(pkgs)
    {
      assert members[..i + 1][..i] == members[..i];
      var m := members[i];
      if Downloaded(m) {
        var po := m.po.value;
        totalSize := totalSize + po.installedSize / 1024;
        var files := CountFiles(po.fileCounts);
        totalFiles := totalFiles + files;
        assert (pkgs + [po])[..|pkgs|] == pkgs;
        pkgs := pkgs + [po];
      }
      i := i + 1;
    }
    assert members[..i] == members;
  }

  // ----- kernelVersionList -----

  /** A transaction member's name, version and release. */
  datatype Nevr = Nevr(name: string, version: string, release: string)

  /** The kernel flavours listed before the plain kernel; each package is `kernel-<flavour>`. */
  const Flavours: seq<string> := ["smp", "xen0", "xenU"]

  /** ktag.rsplit('-', 1)[1]: the text after the last `-`. */
  function TagOf(ktag: string): string {
    match RFindChar(ktag, '-')
    case None => ktag
    case Some(k) => ktag[k + 1..]
  }

  /** The tag taken from `kernel-<flavour>` is the flavour itself, so the version carries the same text as the nick. */
  lemma TagOfFlavour(flavour: string)
    requires '-' !in flavour
    ensures TagOf("kernel-" + flavour) == flavour
  {
    var ktag := "kernel-" + flavour;
    assert ktag[6] == '-';
    assert ktag[7..] == flavour;
    RFindCharAt(ktag, '-', 6);
  }

  /** The entries of one package name: version-release plus the tag, with the nick. */
  function Tagged(members: seq<Nevr>, ktag: string, tag: string, nick: string): seq<(string, string)>
    decreases |members|
  {
    if members == [] then []
    else
      var m := members[|members| - 1];
      Tagged(members[..|members| - 1], ktag, tag, nick) +
        (if m.name == ktag then [(m.version + "-" + m.release + tag, nick)] else [])
  }

  function FlavourEntries(members: seq<Nevr>, flavours: seq<string>): seq<(string, string)>
    decreases |flavours|
  {
    if flavours == [] then []
    else
      var f := flavours[|flavours| - 1];
      var ktag := "kernel-" + f;
      FlavourEntries(members, flavours[..|flavours| - 1]) + Tagged(members, ktag, TagOf(ktag), f)
  }

  /** The kernel versions: smp, xen0 and xenU kernels first, then plain kernels as `up`. */
  function KernelVersions(members: seq<Nevr>): seq<(string, string)> {
    FlavourEntries(members, Flavours) + Tagged(members, "kernel", "", "up")
  }

  /** Some member of package `name` has version-release plus `suffix` equal to `v`. */
  predicate Listed(members: seq<Nevr>, name: string, suffix: string, v: string) {
    exists i :: 0 <= i < |members| && members[i].name == name && v == members[i].version + "-" + members[i].release + suffix
  }

  lemma ListedSnoc(members: seq<Nevr>, name: string, suffix: string, v: string)
    requires members != []
    ensures Listed(members, name, suffix, v) <==>
              Listed(members[..|members| - 1], name, suffix, v) ||
              (members[|members| - 1].name == name && v == members[|members| - 1].version + "-" + members[|members| - 1].release + suffix)
  {
    var n := |members| - 1;
    if Listed(members, name, suffix, v) {
      var i :| 0 <= i < |members| && members[i].name == name && v == members[i].version + "-" + members[i].release + suffix;
      if i < n {
        assert members[..n][i] == members[i];
      }
    }
    if Listed(members[..n], name, suffix, v) {
      var i :| 0 <= i < n && members[..n][i].name == name && v == members[..n][i].version + "-" + members[..n][i].release + suffix;
      assert members[i] == members[..n][i];
    }
  }

  /** An entry is there exactly for a member of that package name, with its version-release and tag. */
  lemma {:induction false} TaggedIff(members: seq<Nevr>, ktag: string, tag: string, nick: string, e: (string, string))
    ensures e in Tagged(members, ktag, tag, nick) <==> e.1 == nick && Listed(members, ktag, tag, e.0)
    decreases |members|
  {
    if members != [] {
      TaggedIff(members[..|members| - 1], ktag, tag, nick, e);
      ListedSnoc(members, ktag, tag, e.0);
    }
  }

  /** Each flavour `f` (without a dash) lists its `kernel-f` members with `f` appended, and nothing else is listed. */
  lemma {:induction false} FlavourEntriesIff(members: seq<Nevr>, flavours: seq<string>, e: (string, string))
    requires forall i :: 0 <= i < |flavours| ==> '-' !in flavours[i]
    ensures e in FlavourEntries(members, flavours) <==> e.1 in flavours && Listed(members, "kernel-" + e.1, e.1, e.0)
    decreases |flavours|
  {
    if flavours != [] {
      var n := |flavours| - 1;
      var f := flavours[n];
      FlavourEntriesIff(members, flavours[..n], e);
      TagOfFlavour(f);
      TaggedIff(members, "kernel-" + f, f, f, e);
      assert flavours == flavours[..n] + [f];
    }
  }

  /** A plain kernel is listed as `up` with its version-release, a flavoured one with the flavour appended and the flavour as nick; nothing else is listed. */
  lemma KernelVersionsIff(members: seq<Nevr>, e: (string, string))
    ensures e in KernelVersions(members) <==>
              (e.1 in Flavours && Listed(members, "kernel-" + e.1, e.1, e.0)) ||
              (e.1 == "up" && Listed(members, "kernel", "", e.0))
  {
    var fl := Flavours;
    assert '-' !in fl[0] && '-' !in fl[1] && '-' !in fl[2];
    FlavourEntriesIff(members, fl, e);
    TaggedIff(members, "kernel", "", "up", e);
  }

  /** kernelVersionList: the loops over the flavours and over the matching members. */
  method KernelVersionList(members: seq<Nevr>) returns (r: seq<(string, string)>)
    ensures r == KernelVersions(members)
  {
    r := [];
    var f := 0;
    while f < |Flavours|
      invariant f <= |Flavours|
      invariant r == FlavourEntries(members, Flavours[..f])
    {
      assert Flavours[..f + 1][..f] == Flavours[..f];
      var nick := Flavours[f];
      var ktag := "kernel-" + nick;
      var tag := TagOf(ktag);
      var more := MatchTagged(members, ktag, tag, nick);
      r := r + more;
      f := f + 1;
    }
    assert Flavours[..f] == Flavours;
    var plain := MatchTagged(members, "kernel", "", "up");
    r := r + plain;
  }

  /** The loop over tsInfo.matchNaevr(name=ktag). */
  method MatchTagged(members: seq<Nevr>, ktag: string, tag: string, nick: string) returns (r: seq<(string, string)>)
    ensures r == Tagged(members, ktag, tag, nick)
  {
    r := [];
    var i := 0;
    while i < |members|
      invariant i <= |members|
      invariant r == Tagged(members[..i], ktag, tag, nick)
    {
      assert members[..i + 1][..i] == members[..i];
      if members[i].name == ktag {
        r := r + [(members[i].version + "-" + members[i].release + tag, nick)];
      }
      i := i + 1;
    }
    assert members[..i] == members;
  }

  // ----- deselectPackage -----

  /** pkg.rsplit(".", 2): at most three pieces, cut at the last two dots. */
  function RSplitDot2(pkg: string): (r: seq<string>)
    ensures 1 <= |r| <= 3
  {
    match RFindChar(pkg, '.')
    case None => [pkg]
    case Some(k) =>
      match RFindChar(pkg[..k], '.')
      case None => [pkg[..k], pkg[k + 1..]]
      case Some(j) => [pkg[..j], pkg[j + 1..k], pkg[k + 1..]]
  }

  function Named(keys: set<YumDeps.PkgTup>, name: string): set<YumDeps.PkgTup> {
    set t | t in keys && t.name == name
  }

  function NamedArch(keys: set<YumDeps.PkgTup>, name: string, arch: string): set<YumDeps.PkgTup> {
    set t | t in keys && t.name == name && t.arch == arch
  }

  /** The members deselectPackage removes, as written: `name.arch` is tried only when rsplit gives two pieces, that is when the text has one dot. */
  function DeselectTargetsAsWritten(pkg: string, keys: set<YumDeps.PkgTup>): set<YumDeps.PkgTup> {
    var sp := RSplitDot2(pkg);
    var byArch := if |sp| == 2 then NamedArch(keys, sp[0], sp[1]) else {};
    if byArch != {} then byArch else Named(keys, pkg)
  }

  /** The name and arch of `name.arch`: cut at the last dot. */
  function NameArch(pkg: string): Option<(string, string)> {
    match RFindChar(pkg, '.')
    case None => None
    case Some(k) => Some((pkg[..k], pkg[k + 1..]))
  }

  /** The members deselectPackage removes, corrected: `name.arch` cut at the last dot is tried first, then the whole text as a name. */
  function DeselectTargets(pkg: string, keys: set<YumDeps.PkgTup>): (r: set<YumDeps.PkgTup>)
    ensures r <= keys
  {
    var byArch := match NameArch(pkg) case None => {} case Some((n, a)) => NamedArch(keys, n, a);
    if byArch != {} then byArch else Named(keys, pkg)
  }

  /** `name.arch` with a dot-free arch splits back into its name and arch. */
  lemma NameArchOf(name: string, arch: string)
    requires '.' !in arch
    ensures NameArch(name + "." + arch) == Some((name, arch))
  {
    var pkg := name + "." + arch;
    assert pkg[|name| + 1..] == arch;
    RFindCharAt(pkg, '.', |name|);
    assert pkg[..|name|] == name;
  }

  /** A member matching name and arch is removed with only the others that match them; otherwise those named by the whole text are. */
  lemma DeselectTargetsIff(name: string, arch: string, keys: set<YumDeps.PkgTup>, t: YumDeps.PkgTup)
    requires '.' !in arch
    ensures NamedArch(keys, name, arch) != {} ==>
              (t in DeselectTargets(name + "." + arch, keys) <==> t in keys && t.name == name && t.arch == arch)
    ensures NamedArch(keys, name, arch) == {} ==>
              (t in DeselectTargets(name + "." + arch, keys) <==> t in keys && t.name == name + "." + arch)
  {
    NameArchOf(name, arch);
  }

  /**
   * As written, a package whose name has a dot, given as `name.arch`,
   * is never removed: rsplit(".", 2) cuts it in three, and no member is
   * named by the whole text. The corrected targets include it.
   */
  lemma DeselectDottedNameAsWritten(name: string, arch: string, keys: set<YumDeps.PkgTup>, t: YumDeps.PkgTup)
    requires '.' in name && '.' !in arch
    requires t in keys && t.name == name && t.arch == arch
    requires forall k :: k in keys ==> k.name != name + "." + arch
    ensures DeselectTargetsAsWritten(name + "." + arch, keys) == {}
    ensures t in DeselectTargets(name + "." + arch, keys)
  {
    var pkg := name + "." + arch;
    NameArchOf(name, arch);
    assert pkg[..|name|] == name;
    var j :| 0 <= j < |name| && name[j] == '.';
    assert name[j] in name;
    assert RFindChar(name, '.').Some?;
    assert |RSplitDot2(pkg)| == 3;
    assert Named(keys, pkg) == {};
  }

  /** The backend: deselectPackage acts on its yum object's transaction. */
  class YumBackend {
    const ayum: YumDeps.YumSorter

    constructor(ayum: YumDeps.YumSorter)
      ensures this.ayum == ayum
    {
      this.ayum := ayum;
    }

    /** deselectPackage: the members found are removed; when none is found only a debug line is logged. */
    method DeselectPackage(pkg: string) returns (removed: set<YumDeps.PkgTup>)
      modifies ayum
      ensures removed == DeselectTargets(pkg, old(ayum.members).Keys)
      ensures ayum.members == map t | t in old(ayum.members) && t !in removed :: old(ayum.members)[t]
      ensures ayum.deps == old(ayum.deps) && ayum.path == old(ayum.path) && ayum.loops == old(ayum.loops)
    {
      var keys := ayum.members.Keys;
      var txmbrs: set<YumDeps.PkgTup> := {};
      var sp := NameArch(pkg);
      if sp.Some? {
        txmbrs := NamedArch(keys, sp.value.0, sp.value.1);
      }
      if txmbrs == {} {
        txmbrs := Named(keys, pkg);
      }
      removed := txmbrs;
      ayum.members := map t | t in ayum.members && t !in removed :: ayum.members[t];
    }
  }
}
