/**
 * The iSCSI support (iscsi.py): parsing the firmware and discovery output
 * of iscsiadm, the targets logged in to, the initiator name that may be
 * set only once, and the kickstart lines.  The output of each iscsiadm
 * run is a parameter; so is each run's success.
 */
module Iscsi {
  import opened Wrappers
  import opened Strings
  import opened Tables

  const FwSep: string := " = "

  /* ---------------------------------------------------------------- */
  /* queryFirmware                                                     */

  /** A firmware line holding " = ": the text before its first occurrence and the text after it. */
  function FwPair(line: string): (r: Option<(string, string)>)
    ensures r.Some? ==> line == r.value.0 + FwSep + r.value.1
  {
    match Find(line, FwSep)
    case None => None
    case Some(idx) =>
      assert line == line[..idx] + FwSep + line[idx + 3..];
      Some((line[..idx], line[idx + 3..]))
  }

  /** A line is ignored exactly when it holds no " = ", and otherwise it is split at the first one. */
  lemma FwPairSplitsAtFirst(line: string)
    ensures FwPair(line).None? <==> !Contains(line, FwSep)
    ensures FwPair(line).Some? ==> forall j: nat :: j < |FwPair(line).value.0| ==> !OccursAt(line, FwSep, j)
  {
  }

  /** The pairs of the lines holding " = ", in order; other lines give nothing. */
  function FwPairs(lines: seq<string>): (r: seq<(string, string)>)
    ensures |r| <= |lines|
    decreases |lines|
  {
    if lines == [] then []
    else
      var n := |lines| - 1;
      match FwPair(lines[n])
      case None => FwPairs(lines[..n])
      case Some(p) => FwPairs(lines[..n]) + [p]
  }

  /** The dictionary queryFirmware returns for the output of `iscsiadm -m fw`. */
  function FirmwareInfo(output: string): map<string, string> {
    MapOf(FwPairs(Split(Strip(output), '\n')))
  }

  /** A line holding " = " sets the text before it to the text after it; any other line changes nothing. */
  lemma FwLineEffect(lines: seq<string>, line: string)
    ensures FwPair(line).None? ==> MapOf(FwPairs(lines + [line])) == MapOf(FwPairs(lines))
    ensures FwPair(line).Some? ==>
              MapOf(FwPairs(lines + [line])) == MapOf(FwPairs(lines))[FwPair(line).value.0 := FwPair(line).value.1]
  {
    assert (lines + [line])[..|lines|] == lines;
    if FwPair(line).Some? {
      MapOfAppend(FwPairs(lines), FwPair(line).value);
    }
  }

  lemma FwStep(lines: seq<string>, i: nat)
    requires i < |lines|
    ensures MapOf(FwPairs(lines[..i + 1])) == match FwPair(lines[i])
                                               case None => MapOf(FwPairs(lines[..i]))
                                               case Some(p) => MapOf(FwPairs(lines[..i]))[p.0 := p.1]
  {
    assert lines[..i + 1][..i] == lines[..i];
    if FwPair(lines[i]).Some? {
      MapOfAppend(FwPairs(lines[..i]), FwPair(lines[i]).value);
    }
  }

  /** A line built as key, " = ", value, with no " = " in the key, reads back as that key and value. */
  lemma {:induction false} FwPairOf(key: string, value: string)
    requires !Contains(key + " =", FwSep)
    ensures FwPair(key + FwSep + value) == Some((key, value))
  {
    var line := key + FwSep + value;
    assert OccursAt(line, FwSep, |key|) by { assert line[|key|..|key| + 3] == FwSep; }
    assert line[..|key| + 2] == key + " =";
    forall j: nat | j < |key| ensures !OccursAt(line, FwSep, j) {
      assert !OccursAt(key + " =", FwSep, j);
    }
    FindAt(line, FwSep, |key|);
  }

  /** queryFirmware: the output is stripped and split into lines, which the loop reads. */
  method QueryFirmware(output: string) returns (retval: map<string, string>)
    ensures retval == FirmwareInfo(output)
  {
    var lines := Split(Strip(output), '\n');
    retval := ReadFirmware(lines);
  }

  /** The loop of queryFirmware over the lines of the output. */
  method ReadFirmware(lines: seq<string>) returns (retval: map<string, string>)
    ensures retval == MapOf(FwPairs(lines))
  {
    retval := map[];
    var i := 0;
    while i < |lines|
      invariant i <= |lines| && retval == MapOf(FwPairs(lines[..i]))
    {
      FwStep(lines, i);
      var pair := FwPair(lines[i]);
      if pair.Some? {
        retval := retval[pair.value.0 := pair.value.1];
      }
      i := i + 1;
    }
    assert lines[..i] == lines;
  }

  /* ---------------------------------------------------------------- */
  /* loginToDefaultDrive                                               */

  const Target: string := "target: "
  const Portal: string := ", portal: "

  /** The target and portal of `iscsiadm -m fw -l` output; commas in the portal become colons. */
  function DefaultDrive(result: string): (r: Option<(string, string)>)
    ensures r.Some? ==> ',' !in r.value.1
  {
    Fields(result, Target, Portal, "]")
  }

  /** The text between marker `t` and marker `p`, and between `p` and the first `e`, with commas made colons. */
  function Fields(result: string, t: string, p: string, e: string): (r: Option<(string, string)>)
    ensures r.Some? ==> ',' !in r.value.1
  {
    var it, ip, ie := Find(result, t), Find(result, p), Find(result, e);
    if it.Some? && ip.Some? && ie.Some? then
      var portal := ReplaceChar(Slice(result, ip.value + |p|, ie.value), ',', ':');
      assert forall k :: 0 <= k < |portal| ==> portal[k] != ',';
      Some((Slice(result, it.value + |t|, ip.value), portal))
    else None
  }

  /** Nothing is returned unless the target, the portal and the closing bracket are all found. */
  lemma DefaultDriveNone(result: string)
    ensures DefaultDrive(result).None? <==> !Contains(result, Target) || !Contains(result, Portal) || !Contains(result, "]")
  {
  }

  /** A login line naming a target and a portal gives them back, the portal's comma turned into a colon. */
  lemma DefaultDriveOf(target: string, portal: string)
    requires ',' !in target && ']' !in target && ']' !in portal
    ensures DefaultDrive(Target + target + Portal + portal + "]") == Some((target, ReplaceChar(portal, ',', ':')))
  {
    MarkerChars();
    var ip, ie := MarkersAt(Target, target, Portal, portal, "]");
    FieldsAt(Target + target + Portal + portal + "]", Target, Portal, "]", ip, ie, target, portal);
  }

  lemma MarkerChars()
    ensures |Target| > 0 && |Portal| > 0 && Portal[0] !in Target && ']' !in Target && ']' !in Portal && "]"[0] == ']'
  {
  }

  /** The closing marker, in none of the four pieces before it, is found right after them. */
  lemma ClosingFound(t: string, target: string, p: string, portal: string, e: string)
    requires |e| == 1 && e[0] !in t && e[0] !in target && e[0] !in p && e[0] !in portal
    ensures Find(t + target + p + portal + e, e) == Some(|t| + |target| + |p| + |portal|)
  {
    var pre := t + target + p + portal;
    assert e[0] !in pre;
    var s := pre + e;
    assert s[..|pre|] == pre && s[|pre|..|pre| + 1] == e;
    FindAfter(s, pre, e);
  }

  /** The first marker is found at the start. */
  lemma OpeningFound(t: string, target: string, p: string, portal: string, e: string)
    requires |t| > 0
    ensures Find(t + target + p + portal + e, t) == Some(0)
  {
    var s := t + target + p + portal + e;
    assert s[..0] == [] && s[..|t|] == t;
    FindAfter(s, [], t);
  }

  /** The second marker, in neither piece before it, is found right after them. */
  lemma MiddleFound(t: string, target: string, p: string, portal: string, e: string)
    requires |p| > 0 && p[0] !in t && p[0] !in target
    ensures Find(t + target + p + portal + e, p) == Some(|t| + |target|)
  {
    var s := t + target + p + portal + e;
    var pre := t + target;
    assert p[0] !in pre;
    assert s == pre + p + (portal + e);
    assert s[..|pre|] == pre && s[|pre|..|pre| + |p|] == p;
    FindAfter(s, pre, p);
  }

  /** Fields once the three markers are found, the first at the start. */
  lemma FieldsAt(result: string, t: string, p: string, e: string, ip: nat, ie: nat, target: string, portal: string)
    requires Find(result, t) == Some(0) && Find(result, p) == Some(ip) && Find(result, e) == Some(ie)
    requires Slice(result, |t|, ip) == target && Slice(result, ip + |p|, ie) == portal
    ensures Fields(result, t, p, e) == Some((target, ReplaceChar(portal, ',', ':')))
  {
  }

  /** Where the three markers are found in a line built from them, and what lies between. */
  lemma MarkersAt(t: string, target: string, p: string, portal: string, e: string) returns (ip: nat, ie: nat)
    requires |t| > 0 && |p| > 0 && p[0] !in t && p[0] !in target
    requires |e| == 1 && e[0] !in t && e[0] !in target && e[0] !in p && e[0] !in portal
    ensures var s := t + target + p + portal + e;
            && Find(s, t) == Some(0) && Find(s, p) == Some(ip) && Find(s, e) == Some(ie)
            && Slice(s, |t|, ip) == target && Slice(s, ip + |p|, ie) == portal
  {
    var s := t + target + p + portal + e;
    ip, ie := |t| + |target|, |t| + |target| + |p| + |portal|;
    ClosingFound(t, target, p, portal, e);
    OpeningFound(t, target, p, portal, e);
    MiddleFound(t, target, p, portal, e);
    Pieces5(t, target, p, portal, e);
  }

  /* ---------------------------------------------------------------- */
  /* iscsiTarget                                                       */

  /** The port argument: absent, a number or a string, as Python callers pass it. */
  datatype Port = NoPort | PortNumber(n: int) | PortText(s: string)

  /** `if not port: port = 3260`, then `str(port)`. */
  function PortString(port: Port): (r: string)
    ensures port in {NoPort, PortNumber(0), PortText("")} ==> r == "3260"
    ensures |r| > 0
  {
    match port
    case NoPort => "3260"
    case PortNumber(n) => if n == 0 then "3260" else IntToString(n)
    case PortText(s) => if |s| == 0 then "3260" else s
  }

  /** A discovery record: a line of exactly two words whose portal starts with the target's address. */
  function Record(line: string, ipaddr: string): (r: Option<(string, string)>)
    ensures r.Some? ==> Words(line) == [r.value.0, r.value.1] && StartsWith(r.value.0, ipaddr)
  {
    if |line| == 0 || Contains(line, "found!") then None
    else
      var pn := Words(line);
      if |pn| != 2 then None
      else if StartsWith(pn[0], ipaddr) then Some((pn[0], pn[1]))
      else None
  }

  /** The records of the first `n` lines of the discovery output, in order. */
  function RecordsTo(lines: seq<string>, ipaddr: string, n: nat): (r: seq<(string, string)>)
    requires n <= |lines|
    ensures |r| <= n
  {
    if n == 0 then []
    else
      match Record(lines[n - 1], ipaddr)
      case None => RecordsTo(lines, ipaddr, n - 1)
      case Some(p) => RecordsTo(lines, ipaddr, n - 1) + [p]
  }

  /** The records of the discovery output's lines, in order. */
  function Records(lines: seq<string>, ipaddr: string): (r: seq<(string, string)>)
    ensures |r| <= |lines|
  {
    RecordsTo(lines, ipaddr, |lines|)
  }

  /** Every record of the first `n` lines comes from one of them. */
  lemma {:induction false} RecordsToFromLines(lines: seq<string>, ipaddr: string, n: nat, k: nat)
    requires n <= |lines| && k < |RecordsTo(lines, ipaddr, n)|
    ensures var r := RecordsTo(lines, ipaddr, n)[k];
            StartsWith(r.0, ipaddr) && exists i :: 0 <= i < n && Words(lines[i]) == [r.0, r.1]
  {
    var init := RecordsTo(lines, ipaddr, n - 1);
    if k < |init| {
      RecordsToFromLines(lines, ipaddr, n - 1, k);
    } else {
      assert RecordsTo(lines, ipaddr, n)[k] == Record(lines[n - 1], ipaddr).value;
    }
  }

  /** Every record comes from a line of exactly two words whose first word, the portal, starts with the address. */
  lemma RecordsFromLines(lines: seq<string>, ipaddr: string, k: nat)
    requires k < |Records(lines, ipaddr)|
    ensures var r := Records(lines, ipaddr)[k];
            StartsWith(r.0, ipaddr) && exists i :: 0 <= i < |lines| && Words(lines[i]) == [r.0, r.1]
  {
    RecordsToFromLines(lines, ipaddr, |lines|, k);
  }

  /** The nodes of the records, in order. */
  function Nodes(rs: seq<(string, string)>): (r: seq<string>)
    ensures |r| == |rs| && forall k :: 0 <= k < |rs| ==> r[k] == rs[k].1
    decreases |rs|
  {
    if rs == [] then [] else Nodes(rs[..|rs| - 1]) + [rs[|rs| - 1].1]
  }

  /** One more record adds its node at the end. */
  lemma NodesSnoc(rs: seq<(string, string)>, p: (string, string))
    ensures Nodes(rs + [p]) == Nodes(rs) + [p.1]
  {
    assert (rs + [p])[..|rs|] == rs;
  }

  /** The portal after discovery: the last record's, or the one held before when there is none. */
  function LastPortal(rs: seq<(string, string)>, before: Option<string>): Option<string> {
    if rs == [] then before else Some(rs[|rs| - 1].0)
  }

  /** The nodes whose login succeeded, in order: the ones autostart is set for. */
  function LoggedIn(nodes: seq<string>, ok: nat -> bool): (r: seq<string>)
    ensures |r| <= |nodes|
    ensures r == [] <==> forall i :: 0 <= i < |nodes| ==> !ok(i)
    decreases |nodes|
  {
    if nodes == [] then []
    else
      var n := |nodes| - 1;
      var init := LoggedIn(nodes[..n], ok);
      if ok(n) then init + [nodes[n]] else init
  }

  /** The records of the discovery output, read line by line: the last portal found and the nodes, in order. */
  method ScanRecords(lines: seq<string>, ipaddr: string) returns (portal: Option<string>, nodes: seq<string>)
    ensures portal == LastPortal(Records(lines, ipaddr), None) && nodes == Nodes(Records(lines, ipaddr))
  {
    portal, nodes := None, [];
    var i := 0;
    while i < |lines|
      invariant i <= |lines|
      invariant portal == LastPortal(RecordsTo(lines, ipaddr, i), None)
      invariant nodes == Nodes(RecordsTo(lines, ipaddr, i))
    {
      var rec := Record(lines[i], ipaddr);
      if rec.Some? {
        NodesSnoc(RecordsTo(lines, ipaddr, i), rec.value);
        portal := Some(rec.value.0);
        nodes := nodes + [rec.value.1];
      }
      i := i + 1;
    }
  }

  class IscsiTarget {
    const ipaddr: string
    const port: string
    const user: Option<string>
    const password: Option<string>
    var portal: Option<string>
    var nodes: seq<string>

    /** Nodes are recorded together with the portal they were found at. */
    predicate Valid()
      reads this
    {
      nodes != [] ==> portal.Some?
    }

    constructor(ipaddr: string, port: Port, user: Option<string>, pw: Option<string>)
      ensures Valid()
      ensures this.ipaddr == ipaddr && this.port == PortString(port) && this.user == user && password == pw
      ensures portal.None? && nodes == []
    {
      this.ipaddr := ipaddr;
      this.port := PortString(port);
      this.user := user;
      password := pw;
      portal := None;
      nodes := [];
    }

    /**
     * The portal property: when no portal is known the discovery output
     * `records` is read, each record setting the portal and adding its node.
     */
    method GetPortal(records: string) returns (r: Option<string>)
      requires Valid()
      modifies this`portal, this`nodes
      ensures Valid()
      ensures old(portal).Some? ==> portal == old(portal) && nodes == old(nodes)
      ensures old(portal).None? ==>
                var rs := Records(Split(Strip(records), '\n'), ipaddr);
                portal == LastPortal(rs, None) && nodes == old(nodes) + Nodes(rs)
      ensures r == portal
    {
      if portal.None? {
        var lines := Split(Strip(records), '\n');
        ReadRecords(lines);
      }
      r := portal;
    }

    /**
     * The portal property's loop over the lines of the discovery output:
     * each record sets the portal and adds its node.
     */
    method ReadRecords(lines: seq<string>)
      requires Valid() && portal.None?
      modifies this`portal, this`nodes
      ensures Valid()
      ensures portal == LastPortal(Records(lines, ipaddr), None) && nodes == old(nodes) + Nodes(Records(lines, ipaddr))
    {
      var found, added := ScanRecords(lines, ipaddr);
      portal := found;
      nodes := nodes + added;
    }

    /** The nodes property: discovery runs only while no node is known. */
    method GetNodes(records: string) returns (r: seq<string>)
      requires Valid()
      modifies this`portal, this`nodes
      ensures Valid()
      ensures old(nodes) != [] ==> nodes == old(nodes) && portal == old(portal)
      ensures r == nodes
    {
      if |nodes| == 0 {
        var _ := GetPortal(records);
      }
      r := nodes;
    }

    /**
     * login(): False without nodes or portal; otherwise each node is
     * logged in to (`ok(i)` is the i-th login's success), autostart is set
     * for those that succeeded, and the result says whether any did.
     */
    method Login(records: string, ok: nat -> bool) returns (ret: bool, autostarted: seq<string>)
      requires Valid()
      modifies this`portal, this`nodes
      ensures Valid()
      ensures old(nodes) != [] ==> nodes == old(nodes)
      ensures nodes == [] ==> !ret && autostarted == []
      ensures nodes != [] ==> autostarted == LoggedIn(nodes, ok)
      ensures ret <==> autostarted != []
    {
      var ns := GetNodes(records);
      if |ns| == 0 {
        return false, [];
      }
      var p := GetPortal(records);
      if p.None? {
        return false, [];
      }
      ret := false;
      autostarted := [];
      var i := 0;
      while i < |ns|
        invariant i <= |ns|
        invariant autostarted == LoggedIn(ns[..i], ok)
        invariant ret <==> autostarted != []
      {
        assert ns[..i + 1][..i] == ns[..i];
        if ok(i) {
          ret := true;
          autostarted := autostarted + [ns[i]];
        }
        i := i + 1;
      }
      assert ns[..i] == ns;
    }
  }

  /* ---------------------------------------------------------------- */
  /* randomIname                                                       */

  const InamePrefix: string := "iqn.2005-03.com.max:01."

  predicate IsHex(c: char) { '0' <= c <= '9' || 'a' <= c <= 'f' }

  /**
   * randomIname: the prefix and six characters of the hex digest `dig`,
   * at the random positions `picks`.
   */
  method RandomIname(dig: string, picks: seq<nat>) returns (s: string)
    requires |dig| == 32 && |picks| == 6 && forall i :: 0 <= i < 6 ==> picks[i] < 32
    ensures |s| == |InamePrefix| + 6 && s[..|InamePrefix|] == InamePrefix
    ensures forall i :: 0 <= i < 6 ==> s[|InamePrefix| + i] == dig[picks[i]]
    ensures (forall k :: 0 <= k < 32 ==> IsHex(dig[k])) ==> forall i :: |InamePrefix| <= i < |s| ==> IsHex(s[i])
  {
    s := InamePrefix;
    var i := 0;
    while i < 6
      invariant i <= 6 && |s| == |InamePrefix| + i && s[..|InamePrefix|] == InamePrefix
      invariant forall k :: 0 <= k < i ==> s[|InamePrefix| + k] == dig[picks[k]]
    {
      s := s + [dig[picks[i]]];
      i := i + 1;
    }
    if forall k :: 0 <= k < 32 ==> IsHex(dig[k]) {
      forall j | |InamePrefix| <= j < |s| ensures IsHex(s[j]) {
        assert s[j] == dig[picks[j - |InamePrefix|]];
      }
    }
  }

  /* ---------------------------------------------------------------- */
  /* The iscsi object                                                  */

  const InitiatorKey: string := "iface.initiatorname"

  /** Why setting the initiator name is refused. */
  datatype InitiatorError = CannotChange | EmptyName

  /** Whether an optional string is present and non-empty (Python truth). */
  predicate Present(o: Option<string>) { o.Some? && |o.value| > 0 }

  /** A target's kickstart line. */
  function TargetLine(t: IscsiTarget): (r: string)
    ensures StartsWith(r, "iscsi --ipaddr " + t.ipaddr + " --port " + t.port) && EndsWith(r, "\n")
    ensures |r| == |"iscsi --ipaddr " + t.ipaddr + " --port " + t.port| + 1 <==> !Present(t.user) && !Present(t.password)
  {
    var head := "iscsi --ipaddr " + t.ipaddr + " --port " + t.port;
    var u := if Present(t.user) then " --user " + t.user.value else "";
    var p := if Present(t.password) then " --password " + t.password.value else "";
    assert (head + u + p + "\n")[..|head|] == head;
    head + u + p + "\n"
  }

  function TargetLines(ts: seq<IscsiTarget>): (r: string)
    ensures ts == [] <==> |r| == 0
  {
    if ts == [] then "" else TargetLine(ts[0]) + TargetLines(ts[1..])
  }

  class IscsiState {
    const fwinfo: map<string, string>
    var targets: seq<IscsiTarget>
    var initiator: string
    var initiatorSet: bool
    var iscsidStarted: bool

    /** An initiator counts as set only once a name is known, from the firmware or from the setter. */
    predicate Valid()
      reads this
    {
      initiatorSet ==> |initiator| > 0 || InitiatorKey in fwinfo
    }

    /** __init__ given the dictionary queryFirmware returned: the firmware's initiator name, when it gives one, is taken as set. */
    constructor(fw: map<string, string>)
      ensures Valid()
      ensures fwinfo == fw && targets == [] && !iscsidStarted
      ensures initiatorSet <==> InitiatorKey in fw
      ensures initiator == if InitiatorKey in fw then fw[InitiatorKey] else ""
    {
      fwinfo := fw;
      targets := [];
      iscsidStarted := false;
      initiator := if InitiatorKey in fw then fw[InitiatorKey] else "";
      initiatorSet := InitiatorKey in fw;
    }

    /** The initiator property: the name set, else the firmware's, else the random name `random`. */
    function Initiator(random: string): (r: string)
      reads this
      ensures |initiator| > 0 ==> r == initiator
      ensures |initiator| == 0 && InitiatorKey !in fwinfo ==> r == random
    {
      if |initiator| > 0 then initiator
      else if InitiatorKey in fwinfo then fwinfo[InitiatorKey]
      else random
    }

    /** Once the initiator counts as set, the random fallback is never used. */
    lemma SetInitiatorNotRandom(r1: string, r2: string)
      requires Valid() && initiatorSet
      ensures Initiator(r1) == Initiator(r2)
    {
    }

    /** The initiator setter: a name may be given only once, and never empty. */
    method SetInitiator(val: string) returns (r: Result<(), InitiatorError>)
      requires Valid()
      modifies this`initiator, this`initiatorSet
      ensures Valid()
      ensures r.Ok? <==> (|old(initiator)| == 0 || val == old(initiator)) && |val| > 0
      ensures r == Err(CannotChange) <==> |old(initiator)| > 0 && val != old(initiator)
      ensures r.Ok? ==> initiator == val && initiatorSet
      ensures r.Err? ==> initiator == old(initiator) && initiatorSet == old(initiatorSet)
    {
      if |initiator| > 0 && val != initiator {
        return Err(CannotChange);
      }
      if |val| == 0 {
        return Err(EmptyName);
      }
      initiator := val;
      initiatorSet := true;
      r := Ok(());
    }

    /**
     * startup(): nothing when already started, when iSCSI is missing
     * (`hasIscsi`) or when no initiator is set; otherwise the daemon is
     * taken as started.
     */
    method Startup(hasIscsi: bool)
      modifies this`iscsidStarted
      ensures iscsidStarted <==> old(iscsidStarted) || (hasIscsi && initiatorSet)
    {
      if iscsidStarted || !hasIscsi || !initiatorSet {
        return;
      }
      iscsidStarted := true;
    }

    /**
     * addTarget(): a target is added only when the daemon runs (starting
     * it if need be), discovery succeeds (`discovered`) and the login to
     * some node succeeds.
     */
    method AddTarget(ipaddr: string, port: Port, user: Option<string>, pw: Option<string>,
                     hasIscsi: bool, discovered: bool, records: string, ok: nat -> bool)
      modifies this`iscsidStarted, this`targets
      ensures iscsidStarted <==> old(iscsidStarted) || (hasIscsi && initiatorSet)
      ensures targets == old(targets) || (iscsidStarted && discovered && |targets| == |old(targets)| + 1
                                          && targets[..|old(targets)|] == old(targets))
      ensures |targets| == |old(targets)| + 1 ==>
                var t := targets[|targets| - 1];
                t.ipaddr == ipaddr && t.port == PortString(port) && t.user == user && t.password == pw
    {
      if !iscsidStarted {
        Startup(hasIscsi);
        if !iscsidStarted {
          return;
        }
      }
      var t := new IscsiTarget(ipaddr, port, user, pw);
      if !discovered {
        return;
      }
      var ret, _ := t.Login(records, ok);
      if !ret {
        return;
      }
      targets := targets + [t];
    }

    /** writeKS: nothing unless the initiator is set; then its name and one line per target. */
    function Kickstart(): (r: string)
      requires Valid()
      reads this, targets
      ensures !initiatorSet <==> |r| == 0
    {
      if !initiatorSet then ""
      else "iscsiname " + Initiator("") + "\n" + TargetLines(targets)
    }
  }

  /** iscsi(): the firmware is queried, then the object is built from its answer. */
  method NewIscsi(fwOutput: string) returns (st: IscsiState)
    ensures fresh(st) && st.Valid()
    ensures st.fwinfo == FirmwareInfo(fwOutput) && st.targets == [] && !st.iscsidStarted
    ensures st.initiatorSet <==> InitiatorKey in st.fwinfo
  {
    var fw := QueryFirmware(fwOutput);
    st := new IscsiState(fw);
  }
}
