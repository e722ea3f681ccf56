/**
 * The hard-drive install methods (harddrive.py): installing from a CD
 * tree laid out on a partition (OldHardDrive) or from a set of ISO images
 * stored on a partition (HardDrive). Both keep flags saying what they
 * mounted themselves and refuse to mount twice. The contents of
 * /proc/mounts are given as its lines; every mount, loop set-up and
 * unmount is an outcome (`mountOk`, `isoOk`) or assumed to succeed.
 */
module HardDriveMethod {
  import opened Wrappers
  import opened Strings

  /** SystemError: mounting twice, or isys.mount failing (MountFailed); IndexError/KeyError: Python lookups that fail; TypeError: a path built from a tree that is None. */
  datatype MountError = SystemError | MountFailed | IndexError | KeyError | TypeError

  const HdImage := "/tmp/hdimage/"
  const IsoDirPoint := "/tmp/isodir/"
  const IsoMedia := "/tmp/isomedia/"
  const Rpms := "/RedHat/RPMS/"

  /** Whether a line of /proc/mounts has `dev` as its first field. */
  predicate Names(line: string, dev: string) {
    var s := Words(line); |s| > 0 && s[0] == dev
  }

  /** The second field of a line of /proc/mounts, if any. */
  function Second(line: string): Option<string> {
    var s := Words(line); if |s| < 2 then None else Some(s[1])
  }

  /**
   * The scan of /proc/mounts: the mount point of the first line whose
   * first field is `dev`, Ok(None) when no line names it, and IndexError
   * when a line before it has no field, or the line naming it has one field.
   */
  function MountPointOf(lines: seq<string>, dev: string): (r: Result<Option<string>, MountError>)
    ensures r.Err? ==> r.error == IndexError
    decreases |lines|
  {
    if lines == [] then Ok(None)
    else if Names(lines[0], dev) then
      (match Second(lines[0]) case None => Err(IndexError) case Some(p) => Ok(Some(p)))
    else if Clear(lines[0], dev) then MountPointOf(lines[1..], dev)
    else Err(IndexError)
  }

  /** A line before the device's: it has a field, and the first is not the device. */
  predicate Clear(line: string, dev: string) {
    |Words(line)| > 0 && !Names(line, dev)
  }

  predicate AllClear(lines: seq<string>, dev: string) {
    forall j :: 0 <= j < |lines| ==> Clear(lines[j], dev)
  }

  /** Line i names the device with mount point p, and every line before it is clear. */
  predicate FoundAt(lines: seq<string>, dev: string, i: nat, p: string) {
    i < |lines| && Names(lines[i], dev) && Second(lines[i]) == Some(p) && AllClear(lines[..i], dev)
  }

  /** A mount point is found exactly at the first line naming the device, and it is that line's second field. */
  lemma {:induction false} MountPointFound(lines: seq<string>, dev: string, p: string)
    requires MountPointOf(lines, dev) == Ok(Some(p))
    ensures exists i :: FoundAt(lines, dev, i, p)
    decreases |lines|
  {
    if Names(lines[0], dev) {
      assert FoundAt(lines, dev, 0, p);
    } else {
      MountPointFound(lines[1..], dev, p);
      var i: nat :| FoundAt(lines[1..], dev, i, p);
      var pre := lines[..i + 1];
      forall j | 0 <= j < |pre| ensures Clear(pre[j], dev) {
        if j > 0 { assert pre[j] == lines[1..][..i][j - 1]; }
      }
      assert lines[i + 1] == lines[1..][i];
      assert FoundAt(lines, dev, i + 1, p);
    }
  }

  /** Nothing is found exactly when every line has a field and none names the device. */
  lemma {:induction false} MountPointAbsent(lines: seq<string>, dev: string)
    ensures MountPointOf(lines, dev) == Ok(None) <==> AllClear(lines, dev)
    decreases |lines|
  {
    if lines != [] {
      MountPointAbsent(lines[1..], dev);
      if AllClear(lines[1..], dev) {
        forall i | 0 < i < |lines| ensures Clear(lines[i], dev) {
          assert lines[i] == lines[1..][i - 1];
        }
      } else {
        var i :| 0 <= i < |lines[1..]| && !Clear(lines[1..][i], dev);
        assert lines[i + 1] == lines[1..][i];
      }
    }
  }

  /** The loop over the lines of /proc/mounts shared by mountMedia and mountDirectory. */
  method ScanMounts(lines: seq<string>, dev: string) returns (r: Result<Option<string>, MountError>)
    ensures r == MountPointOf(lines, dev)
  {
    var i := 0;
    while i < |lines|
      invariant i <= |lines|
      invariant MountPointOf(lines[i..], dev) == MountPointOf(lines, dev)
    {
      assert lines[i..][1..] == lines[i + 1..];
      var s := Words(lines[i]);
      if |s| == 0 {
        return Err(IndexError);
      }
      if s[0] == dev {
        if |s| < 2 {
          return Err(IndexError);
        }
        return Ok(Some(s[1]));
      }
      i := i + 1;
    }
    assert lines[i..] == [];
    r := Ok(None);
  }

  /** os.path.basename: what follows the last slash. */
  function Basename(s: string): (r: string)
    ensures |r| <= |s| && r == s[|s| - |r|..]
    ensures '/' !in r
    ensures |r| < |s| ==> s[|s| - |r| - 1] == '/'
    decreases |s|
  {
    if s == [] || s[|s| - 1] == '/' then []
    else
      var r := Basename(s[..|s| - 1]);
      assert s[..|s| - 1][|s| - 1 - |r|..] == s[|s| - 1 - |r|..|s| - 1];
      r + [s[|s| - 1]]
  }

  /** Install from a CD tree copied onto a partition (OldHardDriveInstallMethod). */
  class OldHardDrive {
    const device: string
    const fstype: string
    const path: string
    /** Where the tree is mounted; None until mountMedia and after umountMedia. */
    var tree: Option<string>
    /** 1 when this object mounted the partition itself, 0 otherwise. */
    var isMounted: int

    /** The partition is mounted by us only at /tmp/hdimage. */
    predicate Valid()
      reads this
    {
      (isMounted == 0 || isMounted == 1) && (isMounted == 1 ==> tree == Some(HdImage))
    }

    constructor(device: string, fstype: string, path: string)
      ensures Valid() && isMounted == 0 && tree == None
      ensures this.device == device && this.fstype == fstype && this.path == path
    {
      this.device := device;
      this.fstype := fstype;
      this.path := path;
      tree := None;
      isMounted := 0;
    }

    /**
     * mountMedia: SystemError when already mounted by us; a partition
     * already listed in /proc/mounts is used where it is, without marking
     * it mounted; otherwise it is mounted at /tmp/hdimage and marked.
     */
    method MountMedia(mounts: seq<string>, mountOk: bool) returns (r: Result<(), MountError>)
      requires Valid()
      modifies this
      ensures Valid()
      ensures old(isMounted) != 0 ==> r == Err(SystemError) && tree == old(tree) && isMounted == old(isMounted)
      ensures old(isMounted) == 0 ==>
                match MountPointOf(mounts, "/dev/" + device)
                case Err(e) => r == Err(e) && tree == old(tree) && isMounted == 0
                case Ok(Some(p)) => r.Ok? && tree == Some(p + "/") && isMounted == 0
                case Ok(None) =>
                  if mountOk then r.Ok? && tree == Some(HdImage) && isMounted == 1
                  else r == Err(MountFailed) && tree == old(tree) && isMounted == 0
    {
      if isMounted != 0 {
        return Err(SystemError);
      }
      var found := ScanMounts(mounts, "/dev/" + device);
      match found
      case Err(e) =>
        return Err(e);
      case Ok(Some(p)) =>
        tree := Some(p + "/");
        return Ok(());
      case Ok(None) =>
        if !mountOk {
          return Err(MountFailed);
        }
        tree := Some(HdImage);
        isMounted := 1;
        r := Ok(());
    }

    /** umountMedia: only what this object mounted is unmounted, and then the tree is forgotten. */
    method UmountMedia()
      requires Valid()
      modifies this
      ensures Valid() && isMounted == 0
      ensures old(isMounted) != 0 ==> tree == None
      ensures old(isMounted) == 0 ==> tree == old(tree)
    {
      if isMounted != 0 {
        tree := None;
        isMounted := 0;
      }
    }

    /**
     * copyFileToTemp: the file is copied from the tree to the temporary
     * directory `tmppath`; the result is (source, copy). The mount state
     * it started with is restored.
     */
    method CopyFileToTemp(filename: string, tmppath: string, mounts: seq<string>, mountOk: bool)
      returns (r: Result<(string, string), MountError>)
      requires Valid()
      modifies this
      ensures Valid()
      ensures r.Ok? ==> isMounted == old(isMounted)
      ensures r.Ok? ==> r.value.1 == tmppath + Basename(filename)
      ensures old(isMounted) != 0 ==> r == Ok((HdImage + "/" + filename, tmppath + Basename(filename))) && tree == old(tree)
      ensures r.Err? ==> isMounted == old(isMounted) && tree == old(tree)
    {
      var wasmounted := isMounted;
      if wasmounted == 0 {
        var m := MountMedia(mounts, mountOk);
        if m.Err? {
          return Err(m.error);
        }
      }
      var src := tree.value + "/" + filename;
      var dst := tmppath + Basename(filename);
      if wasmounted == 0 {
        UmountMedia();
      }
      r := Ok((src, dst));
    }

    /** getFilename: the package path under the tree; TypeError when no tree is known. */
    function GetFilename(name: string): (r: Result<string, MountError>)
      reads this
      ensures r.Err? <==> tree.None?
      ensures r.Ok? ==> StartsWith(r.value, tree.value + path + Rpms) && EndsWith(r.value, name)
    {
      if tree.None? then Err(TypeError) else Ok(tree.value + path + Rpms + name)
    }
  }

  /** Install from ISO images stored on a partition (HardDriveInstallMethod). */
  class HardDrive {
    const device: string
    const fstype: string
    const path: string
    /** Where the partition holding the images is mounted. */
    var isoDir: Option<string>
    /** Where the current image is mounted. */
    var tree: Option<string>
    /** 1 when this object mounted the partition itself. */
    var isoDirIsMounted: int
    /** The number of the disc image mounted, 0 for none. */
    var mediaIsMounted: int
    /** Disc number -> image file name, as found on the partition. */
    var discImages: map<int, string>

    /** The partition is mounted by us only at /tmp/isodir. */
    predicate DirValid()
      reads this
    {
      (isoDirIsMounted == 0 || isoDirIsMounted == 1) && (isoDirIsMounted == 1 ==> isoDir == Some(IsoDirPoint))
    }

    /** ... and a mounted image is mounted at /tmp/isomedia. */
    predicate Valid()
      reads this
    {
      DirValid() && (mediaIsMounted != 0 ==> tree == Some(IsoMedia))
    }

    /** The fields before the constructor looks for the images. */
    constructor Init(device: string, fstype: string, path: string)
      ensures Valid() && isoDirIsMounted == 0 && mediaIsMounted == 0
      ensures isoDir == None && tree == None && discImages == map[]
      ensures this.device == device && this.fstype == fstype && this.path == path
    {
      this.device := device;
      this.fstype := fstype;
      this.path := path;
      isoDir := None;
      tree := None;
      isoDirIsMounted := 0;
      mediaIsMounted := 0;
      discImages := map[];
    }

    /**
     * mountDirectory: SystemError when already mounted by us; a partition
     * listed in /proc/mounts is used where it is, without marking it
     * mounted; otherwise it is mounted at /tmp/isodir and marked.
     */
    method MountDirectory(mounts: seq<string>, mountOk: bool) returns (r: Result<(), MountError>)
      requires Valid()
      modifies this
      ensures Valid()
      ensures tree == old(tree) && mediaIsMounted == old(mediaIsMounted) && discImages == old(discImages)
      ensures old(isoDirIsMounted) != 0 ==> r == Err(SystemError) && isoDir == old(isoDir) && isoDirIsMounted == old(isoDirIsMounted)
      ensures old(isoDirIsMounted) == 0 ==>
                match MountPointOf(mounts, "/dev/" + device)
                case Err(e) => r == Err(e) && isoDir == old(isoDir) && isoDirIsMounted == 0
                case Ok(Some(p)) => r.Ok? && isoDir == Some(p + "/") && isoDirIsMounted == 0
                case Ok(None) =>
                  if mountOk then r.Ok? && isoDir == Some(IsoDirPoint) && isoDirIsMounted == 1
                  else r == Err(MountFailed) && isoDir == old(isoDir) && isoDirIsMounted == 0
    {
      if isoDirIsMounted != 0 {
        return Err(SystemError);
      }
      var found := ScanMounts(mounts, "/dev/" + device);
      match found
      case Err(e) =>
        return Err(e);
      case Ok(Some(p)) =>
        isoDir := Some(p + "/");
        return Ok(());
      case Ok(None) =>
        if !mountOk {
          return Err(MountFailed);
        }
        isoDir := Some(IsoDirPoint);
        isoDirIsMounted := 1;
        r := Ok(());
    }

    /** umountDirectory: only a partition this object mounted is unmounted; it forgets the tree, not isoDir. */
    method UmountDirectory()
      requires DirValid()
      modifies this
      ensures DirValid() && isoDirIsMounted == 0
      ensures isoDir == old(isoDir) && mediaIsMounted == old(mediaIsMounted) && discImages == old(discImages)
      ensures old(isoDirIsMounted) != 0 ==> tree == None
      ensures old(isoDirIsMounted) == 0 ==> tree == old(tree)
    {
      if isoDirIsMounted != 0 {
        tree := None;
        isoDirIsMounted := 0;
      }
    }

    /** The image file of a disc, as mountMedia builds its path. */
    function ImagePath(cdNum: int): (r: Result<string, MountError>)
      reads this
      ensures r.Err? <==> cdNum !in discImages || isoDir.None?
    {
      if isoDir.None? then Err(TypeError)
      else if cdNum !in discImages then Err(KeyError)
      else Ok(isoDir.value + "/" + path + "/" + discImages[cdNum])
    }

    /**
     * mountMedia(cdNum): SystemError when an image is mounted; otherwise
     * the partition is mounted first, then the image of disc `cdNum` is
     * mounted at /tmp/isomedia and its number recorded. A disc with no
     * image fails after the partition was mounted, which stays mounted.
     * The result is the image mounted.
     */
    method MountMedia(cdNum: int, mounts: seq<string>, mountOk: bool, isoOk: bool) returns (r: Result<string, MountError>)
      requires Valid()
      modifies this
      ensures Valid()
      ensures discImages == old(discImages)
      ensures old(mediaIsMounted) != 0 ==> r == Err(SystemError) && unchanged(this)
      ensures old(isoDirIsMounted) != 0 ==> r.Err? && mediaIsMounted == old(mediaIsMounted)
      ensures r.Ok? ==> old(mediaIsMounted) == 0 && old(isoDirIsMounted) == 0 &&
                        isoDir.Some? && cdNum in discImages &&
                        r.value == isoDir.value + "/" + path + "/" + discImages[cdNum] &&
                        tree == Some(IsoMedia) && mediaIsMounted == cdNum
      ensures old(mediaIsMounted) == 0 && old(isoDirIsMounted) == 0 && MountPointOf(mounts, "/dev/" + device).Ok? &&
              (MountPointOf(mounts, "/dev/" + device).value.None? ==> mountOk) ==>
                (r.Ok? <==> cdNum in discImages && isoOk)
      ensures r.Err? ==> mediaIsMounted == old(mediaIsMounted) && tree == old(tree)
    {
      if mediaIsMounted != 0 {
        return Err(SystemError);
      }
      var d := MountDirectory(mounts, mountOk);
      if d.Err? {
        return Err(d.error);
      }
      var image := ImagePath(cdNum);
      if image.Err? {
        return Err(image.error);
      }
      if !isoOk {
        return Err(MountFailed);
      }
      tree := Some(IsoMedia);
      mediaIsMounted := cdNum;
      r := Ok(image.value);
    }

    /** umountMedia: the image and then the partition are unmounted, and the tree forgotten. */
    method UmountMedia()
      requires Valid()
      modifies this
      ensures Valid()
      ensures isoDir == old(isoDir) && discImages == old(discImages)
      ensures old(mediaIsMounted) != 0 ==> tree == None && mediaIsMounted == 0 && isoDirIsMounted == 0
      ensures old(mediaIsMounted) == 0 ==> unchanged(this)
    {
      if mediaIsMounted != 0 {
        UmountDirectory();
        tree := None;
        mediaIsMounted := 0;
      }
    }

    /**
     * getFilename: the package's path on the image of its disc; the
     * image mounted is changed first when it is another disc's.
     */
    method GetFilename(disc: int, name: string, mounts: seq<string>, mountOk: bool, isoOk: bool)
      returns (r: Result<string, MountError>)
      requires Valid()
      modifies this
      ensures Valid()
      ensures old(mediaIsMounted) == disc ==>
                unchanged(this) && (r.Ok? <==> tree.Some?) && (r.Ok? ==> r.value == tree.value + Rpms + name)
      ensures old(mediaIsMounted) != disc && r.Ok? ==> mediaIsMounted == disc && r.value == IsoMedia + Rpms + name
      ensures old(mediaIsMounted) != 0 ==> r.Ok? ==> tree == Some(IsoMedia)
    {
      if mediaIsMounted != disc {
        UmountMedia();
        var m := MountMedia(disc, mounts, mountOk, isoOk);
        if m.Err? {
          return Err(m.error);
        }
      }
      if tree.None? {
        return Err(TypeError);
      }
      r := Ok(tree.value + Rpms + name);
    }

    /**
     * copyFileToTemp: the file is copied from disc 1's image when none is
     * mounted; the mount state it started with is restored.
     */
    method CopyFileToTemp(filename: string, tmppath: string, mounts: seq<string>, mountOk: bool, isoOk: bool)
      returns (r: Result<(string, string), MountError>)
      requires Valid()
      modifies this
      ensures Valid()
      ensures r.Ok? ==> mediaIsMounted == old(mediaIsMounted) && isoDirIsMounted == old(isoDirIsMounted)
      ensures r.Ok? ==> r.value == (IsoMedia + "/" + filename, tmppath + Basename(filename))
      ensures old(mediaIsMounted) != 0 ==> r.Ok? && unchanged(this)
    {
      var wasmounted := mediaIsMounted;
      if wasmounted == 0 {
        var m := MountMedia(1, mounts, mountOk, isoOk);
        if m.Err? {
          return Err(m.error);
        }
      }
      var src := tree.value + "/" + filename;
      var dst := tmppath + Basename(filename);
      if wasmounted == 0 {
        UmountMedia();
      }
      r := Ok((src, dst));
    }
  }

  /**
   * The HardDriveInstallMethod constructor: the partition is mounted,
   * the images under isoDir/path are listed (`findIsoImages` gives the
   * disc numbers and files found there, from the directory it is given),
   * and the partition is unmounted again.
   */
  method NewHardDrive(device: string, fstype: string, path: string, mounts: seq<string>, mountOk: bool,
                      findIsoImages: string -> map<int, string>)
    returns (r: Result<HardDrive, MountError>)
    ensures r.Ok? ==> fresh(r.value) && r.value.Valid()
    ensures r.Ok? ==> r.value.isoDirIsMounted == 0 && r.value.mediaIsMounted == 0 && r.value.isoDir.Some?
    ensures r.Ok? ==> r.value.discImages == findIsoImages(r.value.isoDir.value + "/" + path)
    ensures r.Err? <==> MountPointOf(mounts, "/dev/" + device).Err? ||
                        (MountPointOf(mounts, "/dev/" + device) == Ok(None) && !mountOk)
  {
    var hd := new HardDrive.Init(device, fstype, path);
    var d := hd.MountDirectory(mounts, mountOk);
    if d.Err? {
      return Err(d.error);
    }
    hd.discImages := findIsoImages(hd.isoDir.value + "/" + path);
    hd.UmountDirectory();
    r := Ok(hd);
  }
}
