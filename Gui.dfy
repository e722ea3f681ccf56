/**
 * The graphical interface's control flow (pyanaconda/ui/gui/__init__.py):
 * the queue of action classes (hubs and standalone spokes) it walks when
 * the user clicks continue, how a GUI object finds its UI file, and the
 * rate-limited screenshots. Instantiating an action, whether it can be
 * shown, the file system and the clock are given as inputs.
 */
module Gui {
  import opened Wrappers
  import opened Strings

  // ----- GUIObject -----

  /** A GUI class: its name, the name of its class (its metaclass), its UI file and the directory of its module. */
  datatype UIClass = UIClass(name: string, metaName: string, isBase: bool, uiFile: string, moduleDir: string)

  datatype GuiError = TypeError(message: string) | IOError(message: string)

  /** os.path.join of a directory and a file name. */
  function PathJoin(d: string, f: string): string {
    if StartsWith(f, "/") then f
    else if d == [] || d[|d| - 1] == '/' then d + f
    else d + "/" + f
  }

  const DefaultUIPath := "./:/tmp/updates/:/tmp/updates/ui/:/usr/share/anaconda/ui/"

  /** The directories searched: UIPATH (or its default) split at colons, then the class's module directory. */
  function UIDirs(uipath: Option<string>, moduleDir: string): (r: seq<string>)
    ensures |r| >= 1 && r[|r| - 1] == moduleDir
  {
    Split(uipath.GetOr(DefaultUIPath), ':') + [moduleDir]
  }

  /** The first directory in which the UI file is a readable file. */
  function FirstReadable(dirs: seq<string>, uiFile: string, readable: string -> bool): (r: Option<nat>)
    ensures r.Some? ==> r.value < |dirs| && readable(PathJoin(dirs[r.value], uiFile))
    ensures r.Some? ==> forall j :: 0 <= j < r.value ==> !readable(PathJoin(dirs[j], uiFile))
    ensures r.None? ==> forall j :: 0 <= j < |dirs| ==> !readable(PathJoin(dirs[j], uiFile))
    decreases |dirs|
  {
    if dirs == [] then None
    else if readable(PathJoin(dirs[0], uiFile)) then Some(0)
    else match FirstReadable(dirs[1..], uiFile, readable)
      case None => None
      case Some(k) => Some(k + 1)
  }

  /** _findUIFile: the path in the first directory where it is readable, else IOError. */
  method FindUIFile(cls: UIClass, uipath: Option<string>, readable: string -> bool) returns (r: Result<string, GuiError>)
    ensures var dirs := UIDirs(uipath, cls.moduleDir);
            match FirstReadable(dirs, cls.uiFile, readable)
            case Some(k) => r == Ok(PathJoin(dirs[k], cls.uiFile))
            case None => r.Err? && r.error.IOError?
  {
    var dirs := UIDirs(uipath, cls.moduleDir);
    var found := SearchDirs(dirs, cls.uiFile, readable);
    if found.None? {
      return Err(IOError("Could not load UI file '" + cls.uiFile + "'"));
    }
    return Ok(found.value);
  }

  /** The loop over the directories. */
  method SearchDirs(dirs: seq<string>, uiFile: string, readable: string -> bool) returns (r: Option<string>)
    ensures match FirstReadable(dirs, uiFile, readable)
            case Some(k) => r == Some(PathJoin(dirs[k], uiFile))
            case None => r == None
  {
    var i := 0;
    while i < |dirs|
      invariant i <= |dirs|
      invariant forall j :: 0 <= j < i ==> !readable(PathJoin(dirs[j], uiFile))
    {
      var testPath := PathJoin(dirs[i], uiFile);
      if readable(testPath) {
        FirstReadableAt(dirs, uiFile, readable, i);
        return Some(testPath);
      }
      i := i + 1;
    }
    return None;
  }

  lemma {:induction false} FirstReadableAt(dirs: seq<string>, uiFile: string, readable: string -> bool, i: nat)
    requires i < |dirs| && readable(PathJoin(dirs[i], uiFile))
    requires forall j :: 0 <= j < i ==> !readable(PathJoin(dirs[j], uiFile))
    ensures FirstReadable(dirs, uiFile, readable) == Some(i)
    decreases i
  {
    if i > 0 {
      FirstReadableAt(dirs[1..], uiFile, readable, i - 1);
    }
  }

  /** The module directory is searched last: a file readable in a UIPATH directory wins over it. */
  lemma UIPathBeforeModule(uipath: Option<string>, cls: UIClass, readable: string -> bool, k: nat)
    requires k < |Split(uipath.GetOr(DefaultUIPath), ':')|
    requires readable(PathJoin(Split(uipath.GetOr(DefaultUIPath), ':')[k], cls.uiFile))
    ensures FirstReadable(UIDirs(uipath, cls.moduleDir), cls.uiFile, readable).Some?
    ensures FirstReadable(UIDirs(uipath, cls.moduleDir), cls.uiFile, readable).value <= k
  {
    var dirs := UIDirs(uipath, cls.moduleDir);
    assert dirs[k] == Split(uipath.GetOr(DefaultUIPath), ':')[k];
  }

  /** A new GUI object: no skip target, and apply is not run on skip. */
  datatype GuiObject = GuiObject(cls: UIClass, skipTo: Option<string>, applyOnSkip: bool, uiPath: string)

  /** GUIObject.__init__: the base class itself cannot be instantiated; otherwise the UI file must be found. */
  method NewGuiObject(cls: UIClass, uipath: Option<string>, readable: string -> bool) returns (r: Result<GuiObject, GuiError>)
    ensures cls.isBase ==> r == Err(TypeError("GUIObject is an abstract class"))
    ensures !cls.isBase ==>
              match FirstReadable(UIDirs(uipath, cls.moduleDir), cls.uiFile, readable)
              case Some(k) => r == Ok(GuiObject(cls, None, false, PathJoin(UIDirs(uipath, cls.moduleDir)[k], cls.uiFile)))
              case None => r.Err? && r.error.IOError?
  {
    if cls.isBase {
      return Err(TypeError("GUIObject is an abstract class"));
    }
    var path := FindUIFile(cls, uipath, readable);
    if path.Err? {
      return Err(path.error);
    }
    return Ok(GuiObject(cls, None, false, path.value));
  }

  // ----- screenshots -----

  /** At most one screenshot per this many seconds. */
  const ScreenshotDelay := 1

  /** The file name of screenshot `index`, with the optional name after the number. */
  function ScreenshotName(index: nat, name: Option<string>): string {
    var number := ZeroPad(NatToString(index), 4);
    match name
    case None => "screenshot-" + number + ".png"
    case Some(n) => "screenshot-" + number + "-" + n + ".png"
  }

  /** Unnamed screenshots of different indices have different file names, so none is overwritten. */
  lemma ScreenshotNamesDistinct(i: nat, j: nat)
    requires ScreenshotName(i, None) == ScreenshotName(j, None)
    ensures i == j
  {
    var pi := ZeroPad(NatToString(i), 4);
    var pj := ZeroPad(NatToString(j), 4);
    var s := ScreenshotName(i, None);
    assert s == "screenshot-" + pi + ".png";
    assert s == "screenshot-" + pj + ".png";
    assert |pi| == |pj|;
    assert s[11..11 + |pi|] == pi;
    assert s[11..11 + |pj|] == pj;
    NatToStringValue(i);
    NatToStringValue(j);
    ZeroPadValue(NatToString(i), 4);
    ZeroPadValue(NatToString(j), 4);
  }

  /** The module's screenshot globals: the next index, the time the last screenshot finished, and the files taken with their key-press times. */
  class Screenshots {
    var index: nat
    var lastTimestamp: int
    var taken: seq<(string, int)>

    constructor()
      ensures index == 0 && lastTimestamp == 0 && taken == []
    {
      index := 0;
      lastTimestamp := 0;
      taken := [];
    }

    /** take_screenshot: the file for the current index, which then moves on. */
    method TakeScreenshot(name: Option<string>, now: int) returns (file: string)
      modifies this
      ensures file == ScreenshotName(old(index), name)
      ensures index == old(index) + 1 && taken == old(taken) + [(file, now)] && lastTimestamp == old(lastTimestamp)
    {
      file := ScreenshotName(index, name);
      taken := taken + [(file, now)];
      index := index + 1;
    }

    /** _handlePrntScreen: a screenshot only when the delay has passed since the last one finished; `pressed` and `finished` are the two clock readings. */
    method HandlePrintScreen(pressed: int, finished: int)
      modifies this
      ensures pressed - old(lastTimestamp) >= ScreenshotDelay ==>
                index == old(index) + 1 && taken == old(taken) + [(ScreenshotName(old(index), None), pressed)] &&
                lastTimestamp == finished
      ensures pressed - old(lastTimestamp) < ScreenshotDelay ==>
                index == old(index) && taken == old(taken) && lastTimestamp == old(lastTimestamp)
    {
      if pressed - lastTimestamp >= ScreenshotDelay {
        var file := TakeScreenshot(None, pressed);
        lastTimestamp := finished;
      }
    }
  }

  /** The screenshots a run of key presses takes, each press a pair of clock readings. */
  function Presses(last: int, index: nat, presses: seq<(int, int)>): (r: (int, nat, seq<(string, int)>))
    decreases |presses|
  {
    if presses == [] then (last, index, [])
    else
      var (pressed, finished) := presses[0];
      if pressed - last >= ScreenshotDelay then
        var rest := Presses(finished, index + 1, presses[1..]);
        (rest.0, rest.1, [(ScreenshotName(index, None), pressed)] + rest.2)
      else Presses(last, index, presses[1..])
  }

  /** The clock never goes back: each press finishes after it starts, and the next one comes after that. */
  predicate Monotone(presses: seq<(int, int)>) {
    (forall i :: 0 <= i < |presses| ==> presses[i].0 <= presses[i].1) &&
    (forall i :: 0 < i < |presses| ==> presses[i - 1].1 <= presses[i].0)
  }

  /**
   * With a clock that never goes back, screenshots are at least the delay
   * apart, and all come after the last one taken; the index counts them.
   */
  lemma {:induction false} PressesSpaced(last: int, index: nat, presses: seq<(int, int)>)
    requires Monotone(presses)
    ensures var r := Presses(last, index, presses);
            r.1 == index + |r.2| &&
            (forall i :: 0 <= i < |r.2| ==> r.2[i].1 >= last + ScreenshotDelay) &&
            (forall i :: 0 < i < |r.2| ==> r.2[i].1 >= r.2[i - 1].1 + ScreenshotDelay)
    ensures presses != [] ==> forall i :: 0 <= i < |Presses(last, index, presses).2| ==> Presses(last, index, presses).2[i].1 >= presses[0].0
    decreases |presses|
  {
    if presses != [] {
      var (pressed, finished) := presses[0];
      var tail := presses[1..];
      assert Monotone(tail) by {
        forall i | 0 < i < |tail| ensures tail[i - 1].1 <= tail[i].0 {
          assert tail[i - 1] == presses[i] && tail[i] == presses[i + 1];
        }
      }
      if pressed - last >= ScreenshotDelay {
        PressesSpaced(finished, index + 1, tail);
        if tail != [] {
          assert tail[0] == presses[1];
        }
      } else {
        PressesSpaced(last, index, tail);
        if tail != [] {
          assert tail[0] == presses[1];
        }
      }
    }
  }

  // ----- the action queue -----

  /** An action class of the queue: its own name and the name of its class (its metaclass). */
  datatype ActionClass = ActionClass(name: string, metaName: string)

  /** The code as written, and the code as corrected. */
  datatype Variant = AsWritten | Corrected

  /** What a continue click ends in. */
  datatype Outcome =
    | Ignored          // autostep is running
    | Autostepped      // autostep started instead of switching
    | QuitMainLoop     // the last screen: Gtk.main_quit
    | ExitZero         // sys.exit(0)
    | Switched         // the next action is shown
    | IndexError       // the exception the code as written raises

  /** The skip target is compared with the queued class's name (as corrected) or with its class's name (as written). */
  predicate Named(c: ActionClass, target: string, v: Variant) {
    (if v == AsWritten then c.metaName else c.name) == target
  }

  /** The first index from `from` on whose action matches the target. */
  function FindFrom(actions: seq<ActionClass>, from: nat, target: string, v: Variant): (r: Option<nat>)
    ensures r.Some? ==> from <= r.value < |actions| && Named(actions[r.value], target, v)
    ensures r.Some? ==> forall j :: from <= j < r.value ==> !Named(actions[j], target, v)
    ensures r.None? ==> forall j :: from <= j < |actions| ==> !Named(actions[j], target, v)
    decreases |actions| - from
  {
    if from >= |actions| then None
    else if Named(actions[from], target, v) then Some(from)
    else FindFrom(actions, from + 1, target, v)
  }

  /** The queue after a skip: the current action, then the target and what follows it; unchanged when nothing ahead matches. */
  function SkipAhead(actions: seq<ActionClass>, skipTo: Option<string>, v: Variant): (r: seq<ActionClass>)
    requires |actions| >= 1
    ensures |r| >= 1 && r[0] == actions[0] && |r| <= |actions|
    ensures forall c :: c in r ==> c in actions
  {
    if skipTo.None? || skipTo.value == "" then actions
    else match FindFrom(actions, 1, skipTo.value, v)
      case None => actions
      case Some(ndx) => [actions[0]] + actions[ndx..]
  }

  /** The queue once the actions after the current one that cannot be instantiated are dropped. */
  function DropUninstantiable(actions: seq<ActionClass>, inst: ActionClass -> bool): (r: seq<ActionClass>)
    requires |actions| >= 1
    ensures |r| >= 1 && r[0] == actions[0] && |r| <= |actions|
    ensures |r| >= 2 ==> inst(r[1])
    ensures forall c :: c in r ==> c in actions
    decreases |actions|
  {
    if |actions| < 2 || inst(actions[1]) then actions
    else DropUninstantiable([actions[0]] + actions[2..], inst)
  }

  /**
   * _on_continue_clicked past the autostep check: the last screen quits;
   * otherwise the queue is cut at the skip target, uninstantiable actions
   * are dropped, and the next action is shown, or passed over (with the
   * current one popped) when it cannot be shown. Returns the outcome, the
   * new queue and the current action's class.
   */
  function Continue(actions: seq<ActionClass>, current: ActionClass, skipTo: Option<string>,
                    inst: ActionClass -> bool, showable: ActionClass -> bool, v: Variant): (Outcome, seq<ActionClass>, ActionClass)
    requires |actions| >= 1
    decreases |actions|
  {
    if |actions| == 1 then (QuitMainLoop, actions, current)
    else
      var dropped := DropUninstantiable(SkipAhead(actions, skipTo, v), inst);
      if |dropped| < 2 then (if v == AsWritten then IndexError else ExitZero, dropped, current)
      else if !showable(dropped[1]) then Continue(dropped[1..], current, skipTo, inst, showable, v)
      else (Switched, dropped[1..], dropped[1])
  }

  /**
   * As corrected, continue never fails: it quits, exits, or switches to an
   * instantiable, showable action that heads the new, shorter queue; the
   * queue only loses actions, never gains one.
   */
  lemma {:induction false} ContinueFacts(actions: seq<ActionClass>, current: ActionClass, skipTo: Option<string>,
                                         inst: ActionClass -> bool, showable: ActionClass -> bool)
    requires |actions| >= 1
    ensures var (o, q, c) := Continue(actions, current, skipTo, inst, showable, Corrected);
            o in {QuitMainLoop, ExitZero, Switched} && |q| >= 1 && (forall x :: x in q ==> x in actions) &&
            (o == QuitMainLoop ==> |actions| >= 1 && c == current) &&
            (o == Switched ==> c == q[0] && inst(c) && showable(c) && |q| < |actions|)
    decreases |actions|
  {
    if |actions| > 1 {
      var dropped := DropUninstantiable(SkipAhead(actions, skipTo, Corrected), inst);
      if |dropped| >= 2 && !showable(dropped[1]) {
        ContinueFacts(dropped[1..], current, skipTo, inst, showable);
      }
    }
  }

  /** With one action left, continue quits and leaves the queue as it is. */
  lemma LastScreenQuits(actions: seq<ActionClass>, current: ActionClass, skipTo: Option<string>,
                        inst: ActionClass -> bool, showable: ActionClass -> bool, v: Variant)
    requires |actions| == 1
    ensures Continue(actions, current, skipTo, inst, showable, v) == (QuitMainLoop, actions, current)
  {
  }

  /** A skip goes forward only: to the first match after the current action, keeping the current action in front. */
  lemma SkipForwardOnly(actions: seq<ActionClass>, target: string, k: nat)
    requires 1 <= k < |actions| && actions[k].name == target && target != ""
    requires forall j :: 1 <= j < k ==> actions[j].name != target
    ensures SkipAhead(actions, Some(target), Corrected) == [actions[0]] + actions[k..]
  {
    assert Named(actions[k], target, Corrected);
  }

  /**
   * As written, the queue holds classes, so `__class__.__name__` is the
   * name of their metaclass and never a spoke's name: skipTo is ignored.
   */
  lemma SkipIgnoredAsWritten(actions: seq<ActionClass>, target: string)
    requires |actions| >= 1
    requires forall c :: c in actions ==> c.metaName != target
    ensures SkipAhead(actions, Some(target), AsWritten) == actions
  {
  }

  /**
   * As written, when no action after the current one can be instantiated,
   * `_actions[1]` is read from a one-element queue: IndexError instead of
   * the exit the emptiness test was meant to give.
   */
  lemma NothingLeftAsWritten(current: ActionClass, next: ActionClass, skipTo: Option<string>,
                             inst: ActionClass -> bool, showable: ActionClass -> bool)
    requires !inst(next)
    ensures Continue([current, next], current, skipTo, inst, showable, AsWritten).0 == IndexError
    ensures Continue([current, next], current, skipTo, inst, showable, Corrected).0 == ExitZero
  {
    var q := [current, next];
    assert DropUninstantiable(q, inst) == [current] by {
      assert [q[0]] + q[2..] == [current];
    }
    assert [current] + q[1..] == q;
  }

  /** The first instantiable action of the queue, and the queue from it on. */
  function FirstInstantiable(actions: seq<ActionClass>, inst: ActionClass -> bool): (r: Option<nat>)
    ensures r.Some? ==> r.value < |actions| && inst(actions[r.value])
    ensures r.Some? ==> forall j :: 0 <= j < r.value ==> !inst(actions[j])
    ensures r.None? ==> forall j :: 0 <= j < |actions| ==> !inst(actions[j])
    decreases |actions|
  {
    if actions == [] then None
    else if inst(actions[0]) then Some(0)
    else match FirstInstantiable(actions[1..], inst)
      case None => None
      case Some(k) => Some(k + 1)
  }

  /** The autostep state of the current action, and whether the kickstart asks for autostep. */
  datatype Autostep = Autostep(seen: bool, handles: bool, running: bool, done: bool)

  /** The interface: the queue of action classes and the current action's class (None before run). */
  class GraphicalUserInterface {
    var actions: seq<ActionClass>
    var current: Option<ActionClass>

    /** setup: the action classes, no current action yet. */
    constructor(actions: seq<ActionClass>)
      ensures this.actions == actions && current == None
    {
      this.actions := actions;
      current := None;
    }

    /**
     * run, up to the main loop: uninstantiable actions at the head are
     * dropped until one is instantiated; an empty queue ends the run, and
     * one empty from the start raises IndexError.
     */
    method Run(inst: ActionClass -> bool) returns (started: bool, failed: bool)
      requires current == None
      modifies this
      ensures failed <==> old(actions) == []
      ensures !failed ==> match FirstInstantiable(old(actions), inst)
                          case Some(k) => started && actions == old(actions)[k..] && current == Some(old(actions)[k])
                          case None => !started && actions == [] && current == None
    {
      if actions == [] {
        return false, true;
      }
      ghost var start := actions;
      ghost var k: nat := 0;
      while current == None
        invariant |actions| >= 1 && k + |actions| == |start| && actions == start[k..]
        invariant forall j :: 0 <= j < k ==> !inst(start[j])
        invariant current.Some? ==> current == Some(start[k]) && inst(start[k])
        decreases |actions|, if current == None then 1 else 0
      {
        if inst(actions[0]) {
          current := Some(actions[0]);
        } else {
          actions := actions[1..];
          k := k + 1;
          if actions == [] {
            FirstInstantiableNone(start, inst);
            return false, false;
          }
        }
      }
      FirstInstantiableAt(start, inst, k);
      return true, false;
    }

    /** _on_continue_clicked, as corrected: autostep may take the click; otherwise Continue. */
    method OnContinueClicked(skipTo: Option<string>, autostep: Autostep, inst: ActionClass -> bool,
                             showable: ActionClass -> bool) returns (outcome: Outcome)
      requires |actions| >= 1 && current.Some?
      modifies this
      ensures current.Some?
      ensures autostep.seen && autostep.handles && autostep.running ==>
                outcome == Ignored && actions == old(actions) && current == old(current)
      ensures autostep.seen && autostep.handles && !autostep.running && !autostep.done ==>
                outcome == Autostepped && actions == old(actions) && current == old(current)
      ensures !(autostep.seen && autostep.handles && (autostep.running || !autostep.done)) ==>
                (outcome, actions, current.value) == Continue(old(actions), old(current).value, skipTo, inst, showable, Corrected)
    {
      if autostep.seen && autostep.handles {
        if autostep.running {
          return Ignored;
        } else if !autostep.done {
          return Autostepped;
        }
      }
      outcome := ContinueLoop(skipTo, inst, showable);
    }

    /** The body of _on_continue_clicked after the autostep check, calling itself when the next action cannot be shown. */
    method ContinueLoop(skipTo: Option<string>, inst: ActionClass -> bool, showable: ActionClass -> bool) returns (outcome: Outcome)
      requires |actions| >= 1 && current.Some?
      modifies this
      ensures current.Some?
      ensures (outcome, actions, current.value) == Continue(old(actions), old(current).value, skipTo, inst, showable, Corrected)
      decreases |actions|
    {
      if |actions| == 1 {
        return QuitMainLoop;
      }
      ApplySkip(skipTo);
      var more := DropLoop(inst);
      if !more {
        return ExitZero;
      }
      var next := actions[1];
      if !showable(next) {
        actions := actions[1..];
        outcome := ContinueLoop(skipTo, inst, showable);
        return;
      }
      current := Some(next);
      actions := actions[1..];
      outcome := Switched;
    }

    /** The skip: the queue becomes the current action, the target and what follows it. */
    method ApplySkip(skipTo: Option<string>)
      requires |actions| >= 1
      modifies this
      ensures actions == SkipAhead(old(actions), skipTo, Corrected) && current == old(current)
    {
      if skipTo.Some? && skipTo.value != "" {
        var ndx := FindSkip(actions, skipTo.value);
        if ndx.Some? {
          actions := [actions[0]] + actions[ndx.value..];
        }
      }
    }

    /** The loop that pops the actions after the current one that cannot be instantiated; false when none is left. */
    method DropLoop(inst: ActionClass -> bool) returns (more: bool)
      requires |actions| >= 1
      modifies this
      ensures actions == DropUninstantiable(old(actions), inst) && current == old(current)
      ensures more <==> |actions| >= 2
    {
      ghost var start := actions;
      while |actions| >= 2 && !inst(actions[1])
        invariant |actions| >= 1 && DropUninstantiable(actions, inst) == DropUninstantiable(start, inst)
        invariant current == old(current)
        decreases |actions|
      {
        actions := [actions[0]] + actions[2..];
      }
      more := |actions| >= 2;
    }
  }


  /** The search for the skip target, from index 1 on. */
  method FindSkip(actions: seq<ActionClass>, target: string) returns (r: Option<nat>)
    ensures r == FindFrom(actions, 1, target, Corrected)
  {
    var ndx := 1;
    while ndx < |actions|
      invariant 1 <= ndx
      invariant FindFrom(actions, ndx, target, Corrected) == FindFrom(actions, 1, target, Corrected)
      decreases |actions| - ndx
    {
      if actions[ndx].name == target {
        return Some(ndx);
      }
      ndx := ndx + 1;
    }
    return None;
  }

  lemma {:induction false} FirstInstantiableAt(actions: seq<ActionClass>, inst: ActionClass -> bool, k: nat)
    requires k < |actions| && inst(actions[k])
    requires forall j :: 0 <= j < k ==> !inst(actions[j])
    ensures FirstInstantiable(actions, inst) == Some(k)
    decreases k
  {
    if k > 0 {
      FirstInstantiableAt(actions[1..], inst, k - 1);
    }
  }

  lemma FirstInstantiableNone(actions: seq<ActionClass>, inst: ActionClass -> bool)
    requires forall j :: 0 <= j < |actions| ==> !inst(actions[j])
    ensures FirstInstantiable(actions, inst) == None
  {
  }
}
