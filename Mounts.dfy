/**
 * Mount bookkeeping shared by the installers of the loader: a log of
 * mounts and unmounts, and the mount points it leaves mounted.
 */
module Mounts {

  /** A mount of `source` on `point`, or an unmount of `point`. */
  datatype MountEvent = Mount(source: string, point: string) | Umount(point: string)

  /** The mount points left mounted after `log`; unmounting a point that is not mounted fails and changes nothing. */
  function Mounted(log: seq<MountEvent>): set<string>
    decreases |log|
  {
    if log == [] then {}
    else
      var before := Mounted(log[..|log| - 1]);
      match log[|log| - 1]
      case Mount(_, p) => before + {p}
      case Umount(p) => before - {p}
  }

  /** The mount points a log unmounts and does not mount again afterwards. */
  function Unmounted(log: seq<MountEvent>): set<string>
    decreases |log|
  {
    if log == [] then {}
    else
      var before := Unmounted(log[..|log| - 1]);
      match log[|log| - 1]
      case Mount(_, p) => before - {p}
      case Umount(p) => before + {p}
  }

  lemma MountedEmpty()
    ensures Mounted([]) == {} && Unmounted([]) == {}
  {
  }

  lemma MountedMount(log: seq<MountEvent>, s: string, p: string)
    ensures Mounted(log + [Mount(s, p)]) == Mounted(log) + {p}
  {
    assert (log + [Mount(s, p)])[..|log|] == log;
  }

  lemma MountedUmount(log: seq<MountEvent>, p: string)
    ensures Mounted(log + [Umount(p)]) == Mounted(log) - {p}
  {
    assert (log + [Umount(p)])[..|log|] == log;
  }

  /** What a log leaves mounted after another: its own mounts, and the earlier ones it did not unmount. */
  lemma {:induction false} MountedAppend(a: seq<MountEvent>, b: seq<MountEvent>)
    ensures Mounted(a + b) == Mounted(b) + (Mounted(a) - Unmounted(b))
    decreases |b|
  {
    if b == [] {
      assert a + b == a;
    } else {
      var b' := b[..|b| - 1];
      assert (a + b)[..|a + b| - 1] == a + b';
      MountedAppend(a, b');
    }
  }
}
