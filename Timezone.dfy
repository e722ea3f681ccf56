/**
 * Timezone configuration (pyanaconda/timezone.py): the files written for
 * the installed system, the timezones of a territory, and the regions of
 * the timezone list. pytz's tables are given: `common` is
 * pytz.common_timezones, `countryZones` pytz.country_timezones (None
 * where it raises KeyError). What the file system allows (reading the
 * zone file, the symlink, the writes) and the lines read from
 * /etc/adjtime are given as outcomes.
 */
module Timezone {
  import opened Wrappers
  import opened Strings
  import Localization

  predicate IsDot(c: string) { |c| == 1 && c[0] == '.' }
  predicate IsDotDot(c: string) { |c| == 2 && c[0] == '.' && c[1] == '.' }

  /** A path component normpath keeps as it is: not empty, not `.` or `..`. */
  predicate Plain(c: string) { |c| > 0 && !IsDot(c) && !IsDotDot(c) }

  /** One component of posixpath.normpath's loop: skip empty and `.`, let `..` remove the last kept component when it can. */
  function NormStep(nc: seq<string>, comp: string, absolute: bool): seq<string> {
    if |comp| == 0 || IsDot(comp) then nc
    else if !IsDotDot(comp) || (!absolute && nc == []) || (nc != [] && IsDotDot(nc[|nc| - 1])) then nc + [comp]
    else if nc != [] then nc[..|nc| - 1]
    else nc
  }

  /** The components normpath keeps, one step per component. */
  function NormComps(comps: seq<string>, absolute: bool): seq<string>
    decreases |comps|
  {
    if comps == [] then [] else NormStep(NormComps(comps[..|comps| - 1], absolute), comps[|comps| - 1], absolute)
  }

  function Slashes(n: nat): (r: string)
    ensures |r| == n && forall i :: 0 <= i < n ==> r[i] == '/'
  {
    seq(n, _ => '/')
  }

  /** posixpath.normpath: one leading slash, or two exactly; the kept components joined with `/`; `.` for nothing. */
  function Normpath(p: string): (r: string)
    ensures |r| > 0
  {
    if |p| == 0 then "."
    else
      var initial: nat := if p[0] != '/' then 0
                          else if |p| >= 2 && p[1] == '/' && !(|p| >= 3 && p[2] == '/') then 2
                          else 1;
      var path := Slashes(initial) + Join(NormComps(Split(p, '/'), initial > 0), "/");
      if |path| == 0 then "." else path
  }

  /** Plain components added at the end are kept as they are. */
  lemma {:induction false} NormCompsPlainSuffix(pre: seq<string>, cs: seq<string>, absolute: bool)
    requires forall i :: 0 <= i < |cs| ==> Plain(cs[i])
    ensures NormComps(pre + cs, absolute) == NormComps(pre, absolute) + cs
    decreases |cs|
  {
    if cs == [] {
      assert pre + cs == pre;
    } else {
      var n := |cs| - 1;
      NormCompsPlainSuffix(pre, cs[..n], absolute);
      assert (pre + cs)[..|pre + cs| - 1] == pre + cs[..n];
      assert cs == cs[..n] + [cs[n]];
    }
  }

  /** Pieces without the separator, joined, then the separator and the rest: splitting gives the pieces and then the rest's pieces. */
  lemma {:induction false} SplitAfterJoin(ps: seq<string>, rest: string, sep: char)
    requires |ps| >= 1 && forall i :: 0 <= i < |ps| ==> sep !in ps[i]
    ensures Split(Join(ps, [sep]) + [sep] + rest, sep) == ps + Split(rest, sep)
    decreases |ps|
  {
    if |ps| == 1 {
      SplitFirst(ps[0], rest, sep);
    } else {
      var head, tail := ps[0], ps[1..];
      var after := Join(tail, [sep]) + [sep] + rest;
      assert sep !in head;
      assert forall i :: 0 <= i < |tail| ==> sep !in tail[i] by {
        forall i | 0 <= i < |tail| ensures sep !in tail[i] {
          assert tail[i] == ps[i + 1];
        }
      }
      calc {
        Split(Join(ps, [sep]) + [sep] + rest, sep);
        { assert Join(ps, [sep]) + [sep] + rest == head + [sep] + after; }
        Split(head + [sep] + after, sep);
        { SplitFirst(head, after, sep); }
        [head] + Split(after, sep);
        { SplitAfterJoin(tail, rest, sep); }
        [head] + (tail + Split(rest, sep));
        { assert ps == [head] + tail; }
        ps + Split(rest, sep);
      }
    }
  }

  /** Joining two non-empty lists: the two joins with the separator between. */
  lemma {:induction false} JoinAppend(ps: seq<string>, qs: seq<string>, sep: string)
    requires ps != [] && qs != []
    ensures Join(ps + qs, sep) == Join(ps, sep) + sep + Join(qs, sep)
    decreases |ps|
  {
    if |ps| == 1 {
      JoinCons(ps[0], qs, sep);
      assert ps + qs == [ps[0]] + qs;
    } else {
      var tail := ps[1..];
      JoinAppend(tail, qs, sep);
      JoinCons(ps[0], tail + qs, sep);
      JoinCons(ps[0], tail, sep);
      assert ps + qs == [ps[0]] + (tail + qs);
      assert ps == [ps[0]] + tail;
    }
  }

  /** The zone name's components: not empty, not `.` or `..`. */
  predicate PlainName(tz: string) {
    var cs := Split(tz, '/');
    forall i :: 0 <= i < |cs| ==> Plain(cs[i])
  }

  /** The link to a zone whose name has plain components is the relative path ../usr/share/zoneinfo/<tz>. */
  lemma ZoneLinkTarget(tz: string)
    requires PlainName(tz)
    ensures Normpath("../" + "/usr/share/zoneinfo/" + tz) == "../usr/share/zoneinfo/" + tz
  {
    var pre := ["..", "", "usr", "share", "zoneinfo"];
    var kept := ["..", "usr", "share", "zoneinfo"];
    var cs := Split(tz, '/');
    var p := "../" + "/usr/share/zoneinfo/" + tz;
    ZonePrefixes();
    SplitAfterJoin(pre, tz, '/');
    assert p == Join(pre, "/") + ['/'] + tz;
    NormCompsPlainSuffix(pre, cs, false);
    ZonePrefixComps();
    JoinAppend(kept, cs, "/");
    SplitJoin(tz, '/');
    assert Join(kept + cs, "/") == "../usr/share/zoneinfo" + "/" + tz;
    assert p[0] == '.';
  }

  lemma ZonePrefixes()
    ensures Join(["..", "", "usr", "share", "zoneinfo"], "/") + ['/'] == "../" + "/usr/share/zoneinfo/"
    ensures Join(["..", "usr", "share", "zoneinfo"], "/") == "../usr/share/zoneinfo"
    ensures forall i :: 0 <= i < 5 ==> '/' !in ["..", "", "usr", "share", "zoneinfo"][i]
  {
    ZoneLinkJoin();
    ZoneKeptJoin();
  }

  lemma ZoneLinkJoin()
    ensures Join(["..", "", "usr", "share", "zoneinfo"], "/") + ['/'] == "../" + "/usr/share/zoneinfo/"
  {
    var zone := ["usr", "share", "zoneinfo"];
    ZoneJoin();
    JoinCons("", zone, "/");
    assert ["", "usr", "share", "zoneinfo"] == [""] + zone;
    JoinCons("..", [""] + zone, "/");
    assert ["..", "", "usr", "share", "zoneinfo"] == [".."] + ([""] + zone);
  }

  lemma ZoneKeptJoin()
    ensures Join(["..", "usr", "share", "zoneinfo"], "/") == "../usr/share/zoneinfo"
  {
    var zone := ["usr", "share", "zoneinfo"];
    ZoneJoin();
    JoinCons("..", zone, "/");
    assert ["..", "usr", "share", "zoneinfo"] == [".."] + zone;
  }

  lemma ZoneJoin()
    ensures Join(["usr", "share", "zoneinfo"], "/") == "usr/share/zoneinfo"
  {
    var zone := ["usr", "share", "zoneinfo"];
    assert zone[1..] == ["share", "zoneinfo"];
    assert zone[1..][1..] == ["zoneinfo"];
  }

  lemma ZonePrefixComps()
    ensures NormComps(["..", "", "usr", "share", "zoneinfo"], false) == ["..", "usr", "share", "zoneinfo"]
  {
    var pre := ["..", ""];
    assert pre[..1] == [".."];
    assert NormComps([".."], false) == [".."];
    assert NormComps(pre, false) == [".."];
    NormCompsPlainSuffix(pre, ["usr", "share", "zoneinfo"], false);
    assert pre + ["usr", "share", "zoneinfo"] == ["..", "", "usr", "share", "zoneinfo"];
  }

  /** The source as written, or with the defect this model found fixed. */
  datatype Variant = AsWritten | Corrected

  /** The error write_timezone_config raises, naming the file it could not write; IndexError escapes from a short /etc/adjtime as written. */
  datatype TzError = TimezoneConfigError(file: string) | IndexError

  /** What was written: the symlink (target, link path), /etc/sysconfig/clock, /etc/adjtime. */
  datatype Written = Written(link: Option<(string, string)>, clock: Option<string>, adjtime: Option<string>)

  /** The lines used when /etc/adjtime cannot be read. */
  const DefaultAdjtime: seq<string> := ["0.0 0 0.0\n", "0\n"]

  function ClockText(tz: string): string {
    "ZONE=\"" + tz + "\"\n"
  }

  function ClockMode(isUtc: bool): string {
    if isUtc then "UTC\n" else "LOCAL\n"
  }

  /**
   * The /etc/adjtime writes as written: the file is opened (and emptied)
   * before lines[0] and lines[1] are read, so a file of fewer than two
   * lines is left with what was written and IndexError escapes.
   */
  function AdjtimeAsWritten(lines: seq<string>, isUtc: bool): (string, Option<TzError>) {
    if |lines| == 0 then ("", Some(IndexError))
    else if |lines| == 1 then (lines[0], Some(IndexError))
    else (lines[0] + lines[1] + ClockMode(isUtc), None)
  }

  /** /etc/adjtime with the first two lines kept, a missing one taken from the defaults, and UTC or LOCAL third. */
  function Adjtime(lines: seq<string>, isUtc: bool): string {
    var first := if |lines| > 0 then lines[0] else DefaultAdjtime[0];
    var second := if |lines| > 1 then lines[1] else DefaultAdjtime[1];
    first + second + ClockMode(isUtc)
  }

  /** An empty /etc/adjtime: as written the file is left empty and IndexError escapes; corrected, the default lines are written. */
  lemma AdjtimeShortFileAsWritten(isUtc: bool)
    ensures AdjtimeAsWritten([], isUtc) == ("", Some(IndexError))
    ensures Adjtime([], isUtc) == "0.0 0 0.0\n0\n" + ClockMode(isUtc)
  {
  }

  /** With two lines or more both agree: the first two lines, then the mode; the default lines give `0.0 0 0.0`, `0`. */
  lemma AdjtimeKeepsTwoLines(lines: seq<string>, isUtc: bool)
    requires |lines| >= 2
    ensures AdjtimeAsWritten(lines, isUtc) == (Adjtime(lines, isUtc), None)
    ensures Adjtime(lines, isUtc) == lines[0] + lines[1] + (if isUtc then "UTC\n" else "LOCAL\n")
    ensures Adjtime(DefaultAdjtime, isUtc) == "0.0 0 0.0\n" + "0\n" + ClockMode(isUtc)
  {
  }

  /**
   * write_timezone_config. The link is made only when the zone file is
   * readable and the symlink succeeds (a failure is only logged). A
   * failed clock write raises before /etc/adjtime is touched. /etc/adjtime
   * is read first (the default lines when it cannot be read), then
   * reopened for writing: it gets its first two lines and UTC or LOCAL.
   * As written a file of fewer than two lines raises IndexError once the
   * file has been emptied; corrected, a missing line is a default one.
   */
  method WriteTimezoneConfig(tz: string, isUtc: bool, root: string, zoneReadable: bool, symlinkOk: bool,
                             clockOk: bool, adjtimeLines: Option<seq<string>>, adjtimeOk: bool, variant: Variant)
    returns (w: Written, err: Option<TzError>)
    ensures w.link == if zoneReadable && symlinkOk
                      then Some((Normpath("../" + "/usr/share/zoneinfo/" + tz), Normpath(root + "/etc/localtime")))
                      else None
    ensures !clockOk ==> err == Some(TimezoneConfigError("/etc/sysconfig/clock")) && w.clock.None? && w.adjtime.None?
    ensures clockOk ==> w.clock == Some(ClockText(tz))
    ensures clockOk && !adjtimeOk ==> err == Some(TimezoneConfigError("/etc/adjtime")) && w.adjtime.None?
    ensures clockOk && adjtimeOk && variant == AsWritten ==>
              var (text, e) := AdjtimeAsWritten(adjtimeLines.GetOr(DefaultAdjtime), isUtc);
              w.adjtime == Some(text) && err == e
    ensures clockOk && adjtimeOk && variant == Corrected ==>
              err.None? && w.adjtime == Some(Adjtime(adjtimeLines.GetOr(DefaultAdjtime), isUtc))
  {
    var tzFile := "/usr/share/zoneinfo/" + tz;
    assert "../" + tzFile == "../" + "/usr/share/zoneinfo/" + tz;
    var relativePath := Normpath("../" + tzFile);
    var linkPath := Normpath(root + "/etc/localtime");
    w := Written(None, None, None);
    if zoneReadable && symlinkOk {
      w := w.(link := Some((relativePath, linkPath)));
    }
    if !clockOk {
      return w, Some(TimezoneConfigError("/etc/sysconfig/clock"));
    }
    w := w.(clock := Some(ClockText(tz)));
    var lines := if adjtimeLines.Some? then adjtimeLines.value else DefaultAdjtime;
    if !adjtimeOk {
      return w, Some(TimezoneConfigError("/etc/adjtime"));
    }
    if variant == AsWritten && |lines| < 2 {
      var written := if |lines| == 1 then lines[0] else "";
      return w.(adjtime := Some(written)), Some(IndexError);
    }
    var first := if |lines| > 0 then lines[0] else DefaultAdjtime[0];
    var second := if |lines| > 1 then lines[1] else DefaultAdjtime[1];
    var text := first + second;
    if isUtc {
      text := text + "UTC\n";
    } else {
      text := text + "LOCAL\n";
    }
    w := w.(adjtime := Some(text));
    err := None;
  }

  /** The territory argument: a LocaleInfo, whose territory is used, or the territory itself. */
  datatype Territory = Info(info: Localization.LocaleInfo) | Code(code: Option<string>)

  function TerritoryKey(t: Territory): Option<string> {
    match t
    case Info(l) => l.territory
    case Code(c) => c
  }

  /** get_all_territory_timezones: pytz's list for the territory, empty when pytz has none. */
  function TerritoryTimezones(t: Territory, countryZones: Option<string> -> Option<seq<string>>): (r: seq<string>)
    ensures countryZones(TerritoryKey(t)).None? ==> r == []
    ensures countryZones(TerritoryKey(t)).Some? ==> r == countryZones(TerritoryKey(t)).value
  {
    var key := if t.Info? then t.info.territory else t.code;
    match countryZones(key)
    case None => []
    case Some(zs) => zs
  }

  /** get_preferred_timezone: the first of the territory's timezones, None when it has none. */
  function PreferredTimezone(t: Territory, countryZones: Option<string> -> Option<seq<string>>): (r: Option<string>)
  {
    var zs := TerritoryTimezones(t, countryZones);
    if |zs| == 0 then None else Some(zs[0])
  }

  /** The preferred timezone is one of the territory's, the first; there is none only when the territory has none; a LocaleInfo gives its territory's. */
  lemma PreferredIsFirst(t: Territory, countryZones: Option<string> -> Option<seq<string>>)
    ensures PreferredTimezone(t, countryZones).None? <==> TerritoryTimezones(t, countryZones) == []
    ensures PreferredTimezone(t, countryZones).Some? ==>
              PreferredTimezone(t, countryZones).value == TerritoryTimezones(t, countryZones)[0] &&
              PreferredTimezone(t, countryZones).value in TerritoryTimezones(t, countryZones)
    ensures t.Info? ==> PreferredTimezone(t, countryZones) == PreferredTimezone(Code(t.info.territory), countryZones)
  {
  }

  /** tz.split("/", 1) when there are two parts: the region before the first `/` and the rest. */
  function SplitOnce(tz: string): (r: Option<(string, string)>)
    ensures r.None? <==> '/' !in tz
    ensures r.Some? ==> tz == r.value.0 + "/" + r.value.1 && '/' !in r.value.0
  {
    match FindChar(tz, '/')
    case None => FindCharNone(tz, '/'); None
    case Some(k) =>
      FindCharAt(tz, '/', k);
      assert tz == tz[..k] + "/" + tz[k + 1..];
      Some((tz[..k], tz[k + 1..]))
  }

  /** The regions in order of first appearance, and each region's set of names after the `/`. */
  datatype Regions = Regions(order: seq<string>, zones: map<string, set<string>>)

  /** One timezone of the loop: a name with a `/` adds its region (when new) and its remainder. */
  function RegionStep(acc: Regions, tz: string): Regions {
    match SplitOnce(tz)
    case None => acc
    case Some((region, rest)) =>
      if region in acc.zones then Regions(acc.order, acc.zones[region := acc.zones[region] + {rest}])
      else Regions(acc.order + [region], acc.zones[region := {rest}])
  }

  function RegionsOf(tzs: seq<string>): Regions
    decreases |tzs|
  {
    if tzs == [] then Regions([], map[]) else RegionStep(RegionsOf(tzs[..|tzs| - 1]), tzs[|tzs| - 1])
  }

  /** A region and a remainder come from some timezone of the list. */
  predicate Names(tzs: seq<string>, region: string, rest: string) {
    exists i :: 0 <= i < |tzs| && SplitOnce(tzs[i]) == Some((region, rest))
  }

  /** What one step keeps: the pairs before it and the new timezone's pair; the regions with no empty set; the order without repeats. */
  lemma RegionStepFacts(acc: Regions, tz: string)
    requires forall region :: region in acc.order <==> region in acc.zones
    requires forall i, j :: 0 <= i < j < |acc.order| ==> acc.order[i] != acc.order[j]
    ensures var r := RegionStep(acc, tz);
            (forall region, rest :: region in r.zones && rest in r.zones[region] <==>
               (region in acc.zones && rest in acc.zones[region]) || SplitOnce(tz) == Some((region, rest))) &&
            (forall region :: region in r.zones ==> region in acc.zones || r.zones[region] != {}) &&
            (forall region :: region in acc.zones ==> region in r.zones && acc.zones[region] <= r.zones[region]) &&
            (forall region :: region in r.order <==> region in r.zones) &&
            (forall i, j :: 0 <= i < j < |r.order| ==> r.order[i] != r.order[j])
  {
  }

  /** A pair named by the list with one more timezone: named by the shorter list, or by the last timezone. */
  lemma NamesSnoc(tzs: seq<string>, region: string, rest: string)
    requires tzs != []
    ensures Names(tzs, region, rest) <==>
              Names(tzs[..|tzs| - 1], region, rest) || SplitOnce(tzs[|tzs| - 1]) == Some((region, rest))
  {
    var pre := tzs[..|tzs| - 1];
    if Names(tzs, region, rest) {
      var i :| 0 <= i < |tzs| && SplitOnce(tzs[i]) == Some((region, rest));
      if i < |pre| {
        assert pre[i] == tzs[i];
      }
    }
    if Names(pre, region, rest) {
      var i :| 0 <= i < |pre| && SplitOnce(pre[i]) == Some((region, rest));
      assert tzs[i] == pre[i];
    }
  }

  /** The order lists each region of the map once. */
  ghost predicate OrderMatches(r: Regions) {
    (forall region :: region in r.order <==> region in r.zones) &&
    (forall i, j :: 0 <= i < j < |r.order| ==> r.order[i] != r.order[j])
  }

  /**
   * The regions are exactly the parts before the first `/` of the names
   * that have one, each mapped to the set of what follows; names without
   * `/` are left out; no region has an empty set; the order lists each
   * region once.
   */
  lemma {:induction false} RegionsIff(tzs: seq<string>)
    ensures var r := RegionsOf(tzs);
            (forall region, rest :: region in r.zones && rest in r.zones[region] <==> Names(tzs, region, rest)) &&
            (forall region :: region in r.zones ==> r.zones[region] != {}) &&
            OrderMatches(r)
    decreases |tzs|
  {
    if tzs != [] {
      var n := |tzs| - 1;
      var pre := tzs[..n];
      var acc := RegionsOf(pre);
      RegionsIff(pre);
      RegionStepFacts(acc, tzs[n]);
      forall region, rest {
        NamesSnoc(tzs, region, rest);
      }
    }
  }

  /** get_all_regions_and_timezones: the loop over pytz.common_timezones. */
  method AllRegionsAndTimezones(common: seq<string>) returns (r: Regions)
    ensures r == RegionsOf(common)
  {
    r := Regions([], map[]);
    var i := 0;
    while i < |common|
      invariant i <= |common|
      invariant r == RegionsOf(common[..i])
    {
      assert common[..i + 1][..i] == common[..i];
      var tz := common[i];
      var parts := SplitOnce(tz);
      if parts.Some? {
        var (region, rest) := parts.value;
        if region in r.zones {
          r := r.(zones := r.zones[region := r.zones[region] + {rest}]);
        } else {
          r := Regions(r.order + [region], r.zones[region := {rest}]);
        }
      }
      i := i + 1;
    }
    assert common[..i] == common;
  }

  /** is_valid_timezone: the name is one of pytz's common timezones. */
  predicate IsValidTimezone(tz: string, common: seq<string>) {
    tz in common
  }

  /** A valid timezone with a `/` is listed under its region. */
  lemma ValidTimezoneListed(tz: string, common: seq<string>)
    requires IsValidTimezone(tz, common) && '/' in tz
    ensures var r := RegionsOf(common); var (region, rest) := SplitOnce(tz).value;
            region in r.zones && rest in r.zones[region] && region in r.order
  {
    RegionsIff(common);
    var i :| 0 <= i < |common| && common[i] == tz;
    var (region, rest) := SplitOnce(tz).value;
    assert Names(common, region, rest);
  }
}
