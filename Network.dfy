/**
 * network.py: host name and address validation, the text of an ifcfg file,
 * name servers, the kickstart `network` lines, the dracut network arguments
 * and the persistent udev naming rule.
 *
 * Settings are read the way simpleconfig's get reads them: a missing key
 * gives the empty string (`Val`).  simpleconfig itself is not part of this
 * model.
 */
module Network {
  import opened Wrappers
  import opened Strings
  import opened Sorting

  /** An ifcfg file's settings; a key may hold Python's None. */
  type Info = map<string, Option<string>>

  /** get(key), with a missing key and a None value both read as "". */
  function Val(info: Info, key: string): string {
    if key in info && info[key].Some? then info[key].value else ""
  }

  // ------------------------------------------------------------ host names

  datatype HostnameError = HostnameTooLong | BadFirstChar | BadChar

  predicate HostChar(c: char) { IsAlnum(c) || c == '.' || c == '-' }

  /** Whether a character of `h` from index `i` on is outside letters, digits, '.' and '-'. */
  function BadCharFrom(h: string, i: nat): (b: bool)
    requires i <= |h|
    ensures b <==> exists j :: i <= j < |h| && !HostChar(h[j])
    decreases |h| - i
  {
    if i == |h| then false
    else !HostChar(h[i]) || BadCharFrom(h, i + 1)
  }

  /** sanityCheckHostname: None when the name is acceptable (or empty), else the complaint. */
  function SanityCheckHostname(h: string): (r: Option<HostnameError>)
    ensures r.None? <==> h == [] || (|h| <= 255 && IsAlnum(h[0]) && forall j :: 1 <= j < |h| ==> HostChar(h[j]))
    ensures r == Some(HostnameTooLong) <==> |h| > 255
    ensures r == Some(BadFirstChar) <==> 1 <= |h| <= 255 && !IsAlnum(h[0])
  {
    if |h| < 1 then None
    else if |h| > 255 then Some(HostnameTooLong)
    else if !IsAlnum(h[0]) then Some(BadFirstChar)
    else if BadCharFrom(h, 1) then Some(BadChar)
    else None
  }

  // ------------------------------------------------------------- addresses

  datatype Family = Inet | Inet6

  /** IPMissing, IPError (with the family whose parser refused it, if one was tried) or success. */
  datatype IpCheck = IpOk(family: Family) | IpMissing | IpInvalid(tried: Option<Family>)

  /** The family sanityCheckIPString chooses from where ':' and '.' occur. */
  function GuessFamily(ip: string): (f: Option<Family>)
    ensures f == Some(Inet) <==> ':' !in ip && '.' in ip && ip[0] != '.'
    ensures f == Some(Inet6) <==> '.' !in ip && ':' in ip && ip[0] != ':'
  {
    var colon := FindChar(ip, ':');
    var dot := FindChar(ip, '.');
    if colon.None? && dot.Some? && dot.value > 0 then Some(Inet)
    else if colon.Some? && colon.value > 0 && dot.None? then Some(Inet6)
    else None
  }

  /**
   * sanityCheckIPString.  `inetPton` holds the (family, text) pairs that
   * socket.inet_pton accepts; the C library is not part of this model.
   */
  function SanityCheckIPString(ip: string, inetPton: set<(Family, string)>): (r: IpCheck)
    ensures r == IpMissing <==> Strip(ip) == []
    ensures r.IpOk? ==> (r.family, ip) in inetPton && GuessFamily(ip) == Some(r.family)
    ensures r.IpInvalid? && r.tried.Some? ==> (r.tried.value, ip) !in inetPton
    ensures r.IpInvalid? ==> r.tried == GuessFamily(ip)
    ensures Strip(ip) != [] && GuessFamily(ip).Some? && (GuessFamily(ip).value, ip) in inetPton ==>
      r == IpOk(GuessFamily(ip).value)
  {
    if Strip(ip) == [] then IpMissing
    else
      match GuessFamily(ip)
      case None => IpInvalid(None)
      case Some(f) => if (f, ip) in inetPton then IpOk(f) else IpInvalid(Some(f))
  }

  /** A text holding both ':' and '.' (an IPv4-mapped IPv6 address, say) is refused before any parser runs. */
  lemma MixedAddressRefused(ip: string, inetPton: set<(Family, string)>)
    requires ':' in ip && '.' in ip && Strip(ip) != []
    ensures SanityCheckIPString(ip, inetPton) == IpInvalid(None)
  {
  }

  /** The family is never guessed from a text that starts with its own separator. */
  lemma LeadingSeparatorRefused(ip: string, inetPton: set<(Family, string)>)
    requires ip != [] && (ip[0] == '.' || ip[0] == ':')
    ensures !SanityCheckIPString(ip, inetPton).IpOk?
  {
    assert ip[0] in ip;
  }

  // ---------------------------------------------------------- ifcfg text

  /** ETHTOOL_OPTS with "autoneg off " put in front when it does not mention autoneg. */
  function WithAutoneg(info: Info): (r: Info)
    ensures r.Keys == info.Keys
    ensures forall k :: k in info && k != "ETHTOOL_OPTS" ==> r[k] == info[k]
    ensures "ETHTOOL_OPTS" in info && info["ETHTOOL_OPTS"].Some? ==>
      Contains(Val(r, "ETHTOOL_OPTS"), "autoneg")
  {
    if "ETHTOOL_OPTS" in info && info["ETHTOOL_OPTS"].Some? then
      var e := info["ETHTOOL_OPTS"].value;
      if Contains(e, "autoneg") then info
      else
        var v := "autoneg off " + e;
        assert OccursAt(v, "autoneg", 0);
        info["ETHTOOL_OPTS" := Some(v)]
    else info
  }

  /** The keys __str__ writes, in the order it writes them. */
  function RenderKeys(keys: set<string>, s390: bool): (r: seq<string>)
    ensures r != [] && r[0] == "DEVICE"
    ensures "KEY" !in r && "DEVICE" !in r[1..]
    ensures s390 ==> "HWADDR" !in r
    ensures StrictlySorted(r[1..])
    ensures forall k :: k in r[1..] <==>
      k in keys && k != "DEVICE" && k != "KEY" && !(s390 && k == "HWADDR")
    ensures "DEVICE" in keys ==> forall k :: k in r ==> k in keys
  {
    var dropped := if s390 then {"DEVICE", "KEY", "HWADDR"} else {"DEVICE", "KEY"};
    var rest := SortedSet(keys - dropped);
    assert ["DEVICE"] + rest == [ "DEVICE"] + rest && (["DEVICE"] + rest)[1..] == rest;
    ["DEVICE"] + rest
  }

  /** One `KEY="value"` line; a None value writes nothing. */
  function IfcfgLine(info: Info, k: string): string
    requires k in info
  {
    match info[k]
    case None => ""
    case Some(v) => k + "=\"" + v + "\"\n"
  }

  function IfcfgText(info: Info, ks: seq<string>): string
    requires forall k :: k in ks ==> k in info
  {
    if ks == [] then ""
    else IfcfgText(info, ks[..|ks| - 1]) + IfcfgLine(info, ks[|ks| - 1])
  }

  lemma {:induction false} IfcfgTextPrefix(info: Info, ks: seq<string>, n: nat)
    requires forall k :: k in ks ==> k in info
    requires 1 <= n <= |ks|
    ensures StartsWith(IfcfgText(info, ks), IfcfgText(info, ks[..n]))
    decreases |ks|
  {
    if n < |ks| {
      assert ks[..|ks| - 1][..n] == ks[..n];
      IfcfgTextPrefix(info, ks[..|ks| - 1], n);
      PrefixStartsWith(IfcfgText(info, ks[..|ks| - 1]), IfcfgLine(info, ks[|ks| - 1]));
      assert IfcfgText(info, ks) == IfcfgText(info, ks[..|ks| - 1]) + IfcfgLine(info, ks[|ks| - 1]);
    } else {
      assert ks[..n] == ks;
      PrefixStartsWith(IfcfgText(info, ks), "");
    }
  }

  /** The loop of __str__ that appends one line per key. */
  method WriteLines(info: Info, keys: seq<string>) returns (s: string)
    requires forall k :: k in keys ==> k in info
    ensures s == IfcfgText(info, keys)
  {
    s := "";
    var i := 0;
    while i < |keys|
      invariant 0 <= i <= |keys|
      invariant s == IfcfgText(info, keys[..i])
    {
      var next := keys[..i + 1];
      assert next[..|next| - 1] == keys[..i] && next[|next| - 1] == keys[i];
      assert IfcfgText(info, next) == IfcfgText(info, keys[..i]) + IfcfgLine(info, keys[i]);
      s := s + IfcfgLine(info, keys[i]);
      i := i + 1;
    }
    assert keys[..|keys|] == keys;
  }

  datatype RenderError = NoDeviceKey | EthtoolIsNone

  class NetworkDevice {
    var iface: string
    var info: Info
    var description: string

    /** A ctc interface is typed CTC from the start (IfcfgFile's own constructor is not part of this model). */
    constructor (iface: string)
      ensures this.iface == iface && description == ""
      ensures info == if StartsWith(iface, "ctc") then map["TYPE" := Some("CTC")] else map[]
    {
      this.iface := iface;
      description := "";
      info := if StartsWith(iface, "ctc") then map["TYPE" := Some("CTC")] else map[];
    }

    /** set((key, value)) */
    method Set(key: string, value: string)
      modifies this`info
      ensures info == old(info)[key := Some(value)]
    {
      info := info[key := Some(value)];
    }

    /** The loop of setDNS: server i (from 0), stripped, is set as DNS<i+1>. */
    method StoreNameServers(dns: seq<string>)
      modifies this`info
      ensures info == WithDns(old(info), StripAll(dns), |dns|)
    {
      var i := 0;
      while i < |dns|
        invariant 0 <= i <= |dns|
        invariant info == WithDns(old(info), StripAll(dns), i)
      {
        var addr := Strip(dns[i]);
        assert addr == StripAll(dns)[i];
        assert WithDns(old(info), StripAll(dns), i + 1) == WithDns(old(info), StripAll(dns), i)[DnsKey(i + 1) := Some(addr)];
        Set(DnsKey(i + 1), addr);
        i := i + 1;
      }
    }

    /** clear: every setting goes, except the CTC type of a ctc interface. */
    method Clear()
      modifies this`info
      ensures info == if StartsWith(iface, "ctc") then map["TYPE" := Some("CTC")] else map[]
    {
      info := map[];
      if StartsWith(iface, "ctc") {
        info := info["TYPE" := Some("CTC")];
      }
    }

    /**
     * __str__: DEVICE first, then the other keys sorted, without KEY (and
     * HWADDR on s390).  A missing DEVICE makes keys.remove raise; a None
     * ETHTOOL_OPTS makes the autoneg test raise.  Otherwise ETHTOOL_OPTS is
     * completed in place before the lines are written.
     */
    method Render(s390: bool) returns (r: Result<string, RenderError>)
      modifies this`info
      ensures "DEVICE" !in old(info) ==> r == Err(NoDeviceKey)
      ensures "DEVICE" in old(info) && "ETHTOOL_OPTS" in old(info) && old(info)["ETHTOOL_OPTS"].None? ==>
        r == Err(EthtoolIsNone)
      ensures r.Err? ==> info == old(info)
      ensures r.Ok? ==> info == WithAutoneg(old(info)) && "DEVICE" in info
      ensures r.Ok? ==> r.value == IfcfgText(info, RenderKeys(info.Keys, s390))
    {
      if "DEVICE" !in info {
        return Err(NoDeviceKey);
      }
      if "ETHTOOL_OPTS" in info {
        if info["ETHTOOL_OPTS"].None? {
          return Err(EthtoolIsNone);
        }
        info := WithAutoneg(info);
      }
      var text := WriteLines(info, RenderKeys(info.Keys, s390));
      return Ok(text);
    }

    /**
     * One line of the persistent-net udev rules: none without a MAC
     * address; otherwise a comment naming the device (or its description)
     * and a rule matching the lower-case address and the name without its
     * trailing digits.
     */
    method UdevRule() returns (rule: Option<string>)
      ensures rule == UdevRuleFor(Val(info, "DEVICE"), Val(info, "HWADDR"), description)
    {
      var addr := Val(info, "HWADDR");
      if addr == "" {
        return None;
      }
      var devname := Val(info, "DEVICE");
      var basename := devname;
      while basename != "" && IsDigit(basename[|basename| - 1])
        invariant BaseName(basename) == BaseName(devname)
        decreases |basename|
      {
        basename := basename[..|basename| - 1];
      }
      addr := ToLower(addr);
      var comment := if |description| > 0 then description else devname;
      return Some(UdevText(comment, addr, basename, devname));
    }
  }

  /** The interface name without its trailing digits: the KERNEL match prefix. */
  function BaseName(name: string): (b: string)
    ensures StartsWith(name, b)
    ensures b == [] || !IsDigit(b[|b| - 1])
    ensures forall j :: |b| <= j < |name| ==> IsDigit(name[j])
  {
    if name != [] && IsDigit(name[|name| - 1]) then BaseName(name[..|name| - 1]) else name
  }

  function UdevText(comment: string, addr: string, base: string, devname: string): string {
    "# " + comment + " (rule written by anaconda)\n"
    + "SUBSYSTEM==\"net\", ACTION==\"add\", DRIVERS==\"?*\", ATTR{address}==\"" + addr
    + "\", ATTR{type}==\"1\", KERNEL==\"" + base + "*\", NAME=\"" + devname + "\"\n"
  }

  function UdevRuleFor(devname: string, addr: string, description: string): Option<string> {
    if addr == "" then None
    else Some(UdevText(if |description| > 0 then description else devname, ToLower(addr), BaseName(devname), devname))
  }

  // ------------------------------------------------------------ name servers

  function DnsKey(n: nat): string { "DNS" + NatToString(n) }

  /** DNS1 .. DNS<n> */
  function DnsKeys(n: nat): set<string> {
    if n == 0 then {} else DnsKeys(n - 1) + {DnsKey(n)}
  }

  /** Each piece stripped of surrounding white space. */
  function StripAll(xs: seq<string>): (r: seq<string>)
    ensures |r| == |xs|
  {
    seq(|xs|, i requires 0 <= i < |xs| => Strip(xs[i]))
  }

  /** The settings after setDNS has stored the first `n` of `addrs` as DNS1 .. DNS<n>. */
  function WithDns(info: Info, addrs: seq<string>, n: nat): Info
    requires n <= |addrs|
  {
    if n == 0 then info
    else WithDns(info, addrs, n - 1)[DnsKey(n) := Some((addrs[n - 1]))]
  }

  lemma DnsKeyDistinct(a: nat, b: nat)
    requires a != b
    ensures DnsKey(a) != DnsKey(b)
  {
    if DnsKey(a) == DnsKey(b) {
      assert NatToString(a) == DnsKey(a)[3..] && NatToString(b) == DnsKey(b)[3..];
      NatToStringInjective(a, b);
    }
  }

  /** After n name servers are stored, server j (counting from 0) is in DNS<j+1>. */
  lemma {:induction false} DnsStored(info: Info, addrs: seq<string>, n: nat, j: nat)
    requires j < n <= |addrs|
    ensures DnsKey(j + 1) in WithDns(info, addrs, n)
    ensures WithDns(info, addrs, n)[DnsKey(j + 1)] == Some((addrs[j]))
  {
    var m := WithDns(info, addrs, n - 1);
    var v := Some((addrs[n - 1]));
    assert WithDns(info, addrs, n) == m[DnsKey(n) := v];
    if j + 1 < n {
      var kj := DnsKey(j + 1);
      assert kj != DnsKey(n) by { DnsKeyDistinct(j + 1, n); }
      DnsStored(info, addrs, n - 1, j);
      assert kj in m && m[kj] == Some((addrs[j]));
      assert m[DnsKey(n) := v][kj] == m[kj];
    }
  }

  /** Keys other than DNS1 .. DNS<n> keep their settings. */
  lemma {:induction false} DnsOthersKept(info: Info, addrs: seq<string>, n: nat, k: string)
    requires n <= |addrs| && k in info && k !in DnsKeys(n)
    ensures k in WithDns(info, addrs, n) && WithDns(info, addrs, n)[k] == info[k]
  {
    if n > 0 {
      DnsOthersKept(info, addrs, n - 1, k);
    }
  }

  // --------------------------------------------------------------- kickstart

  predicate UsableHostname(hostname: string) {
    hostname != "" && hostname != "localhost.localdomain"
  }

  /** The DNS keys of a device, in sorted order, and their values joined with commas. */
  function DnsLine(info: Info): string {
    Join(DnsValues(info, SortedSet(info.Keys)), ",")
  }

  function DnsValues(info: Info, ks: seq<string>): seq<string> {
    if ks == [] then []
    else (if StartsWith(ToUpper(ks[0]), "DNS") then [Val(info, ks[0])] else []) + DnsValues(info, ks[1..])
  }

  function DhcpOptions(info: Info, hostname: string, overrideDhcp: bool): string {
    " --bootproto dhcp"
    + (if Val(info, "DHCPCLASS") != "" then " --dhcpclass " + Val(info, "DHCPCLASS") else "")
    + (if overrideDhcp && UsableHostname(hostname) then " --hostname " + hostname else "")
  }

  function StaticOptions(info: Info, hostname: string): string {
    " --bootproto static --ip " + Val(info, "IPADDR")
    + (if Val(info, "NETMASK") != "" then " --netmask " + Val(info, "NETMASK") else "")
    + (if Val(info, "GATEWAY") != "" then " --gateway " + Val(info, "GATEWAY") else "")
    + (if DnsLine(info) != "" then " --nameserver " + DnsLine(info) else "")
    + (if UsableHostname(hostname) then " --hostname " + hostname else "")
  }

  predicate IsDhcp(info: Info) { ToLower(Val(info, "BOOTPROTO")) == "dhcp" }

  /** The `network` line of one device, or nothing for a device neither dhcp nor given an address. */
  function KsLine(info: Info, hostname: string, overrideDhcp: bool): (r: string)
    ensures r != [] <==> IsDhcp(info) || Val(info, "IPADDR") != ""
  {
    if IsDhcp(info) || Val(info, "IPADDR") != "" then
      "network --device " + Val(info, "DEVICE")
      + (if Val(info, "MTU") != "" then " --mtu=" + Val(info, "MTU") else "")
      + (if Val(info, "ONBOOT") == "no" then " --onboot no" else "")
      + (if IsDhcp(info) then DhcpOptions(info, hostname, overrideDhcp) else StaticOptions(info, hostname))
      + "\n"
    else ""
  }

  lemma KsLineShape(info: Info, hostname: string, overrideDhcp: bool)
    requires IsDhcp(info) || Val(info, "IPADDR") != ""
    ensures StartsWith(KsLine(info, hostname, overrideDhcp), "network --device " + Val(info, "DEVICE"))
    ensures EndsWith(KsLine(info, hostname, overrideDhcp), "\n")
  {
    var head := "network --device " + Val(info, "DEVICE");
    var r := KsLine(info, hostname, overrideDhcp);
    var tail := r[|head|..];
    assert r == head + tail;
    PrefixStartsWith(head, tail);
  }

  function KsText(devs: map<string, Info>, names: seq<string>, hostname: string, overrideDhcp: bool): string
    requires forall n :: n in names ==> n in devs
  {
    if names == [] then ""
    else
      KsText(devs, names[..|names| - 1], hostname, overrideDhcp)
      + KsLine(devs[names[|names| - 1]], hostname, overrideDhcp)
  }

  lemma KsTextStep(devs: map<string, Info>, names: seq<string>, i: nat, hostname: string, overrideDhcp: bool)
    requires forall n :: n in names ==> n in devs
    requires i < |names|
    ensures KsText(devs, names[..i + 1], hostname, overrideDhcp)
      == KsText(devs, names[..i], hostname, overrideDhcp) + KsLine(devs[names[i]], hostname, overrideDhcp)
  {
    assert names[..i + 1][..i] == names[..i];
  }

  /** A device without a line contributes nothing, wherever it sorts. */
  lemma {:induction false} KsTextSilent(devs: map<string, Info>, names: seq<string>, hostname: string, overrideDhcp: bool)
    requires forall n :: n in names ==> n in devs
    requires forall n :: n in names ==> !IsDhcp(devs[n]) && Val(devs[n], "IPADDR") == ""
    ensures KsText(devs, names, hostname, overrideDhcp) == ""
    decreases |names|
  {
    if names != [] {
      var n := names[|names| - 1];
      assert n in names;
      KsTextSilent(devs, names[..|names| - 1], hostname, overrideDhcp);
    }
  }

  /** writeKS on the devices' settings: their lines, in the sorted order of their names. */
  method WriteKsSorted(devs: map<string, Info>, hostname: string, overrideDhcp: bool) returns (out: string)
    ensures out == KsText(devs, SortedSet(devs.Keys), hostname, overrideDhcp)
  {
    var names := SortedSet(devs.Keys);
    out := WriteKsLines(devs, names, hostname, overrideDhcp);
  }

  /** The loop of writeKS over the sorted device names. */
  method WriteKsLines(devs: map<string, Info>, names: seq<string>, hostname: string, overrideDhcp: bool)
    returns (out: string)
    requires forall n :: n in names ==> n in devs
    ensures out == KsText(devs, names, hostname, overrideDhcp)
  {
    out := "";
    var i := 0;
    while i < |names|
      invariant 0 <= i <= |names|
      invariant out == KsText(devs, names[..i], hostname, overrideDhcp)
    {
      KsTextStep(devs, names, i, hostname, overrideDhcp);
      out := out + KsLine(devs[names[i]], hostname, overrideDhcp);
      i := i + 1;
    }
    assert names[..|names|] == names;
  }

  // ---------------------------------------------------------------- dracut

  /** The storage device a network root depends on: its bound NIC and its host address. */
  datatype StorageTarget = StorageTarget(nic: Option<string>, hostAddress: Option<string>)

  /** route.split()[0] on a reply that is all white space. */
  datatype DracutError = BlankRouteReply

  function IndexOf(s: seq<string>, x: string): (r: Option<nat>)
    ensures r.Some? ==> r.value < |s| && s[r.value] == x && x !in s[..r.value]
    ensures r.None? <==> x !in s
  {
    if s == [] then None
    else if s[0] == x then Some(0)
    else match IndexOf(s[1..], x)
      case None => None
      case Some(i) =>
        assert s[..i + 1] == [s[0]] + s[1..][..i];
        Some(i + 1)
  }

  /** str.strip("'\"") */
  function StripQuotes(s: string): string
    decreases |s|
  {
    if s != [] && (s[0] == '\'' || s[0] == '"') then StripQuotes(s[1..])
    else if s != [] && (s[|s| - 1] == '\'' || s[|s| - 1] == '"') then StripQuotes(s[..|s| - 1])
    else s
  }

  function NonEmpty(pieces: seq<string>): (r: seq<string>)
    ensures forall i :: 0 <= i < |r| ==> r[i] != ""
  {
    if pieces == [] then []
    else (if pieces[0] != "" then [pieces[0]] else []) + NonEmpty(pieces[1..])
  }

  function Spaced(a: string, b: string): string {
    if a != "" then a + " " + b else b
  }

  predicate Nonblank(o: Option<string>) { o.Some? && o.value != "" }

  /** The interface a route reply names, if the reply has the expected shape. */
  function RouteNic(words: seq<string>, host: Option<string>): Option<string>
    requires words != []
  {
    if host.None? || words[0] != host.value || |words| < 5 then None
    else match IndexOf(words, "dev")
      case None => None
      case Some(i) => if i > 3 then None else Some(words[i + 1])
  }

  /** The `ip=` argument: only for a storage device reached through a host address. */
  function IpArg(info: Info, nic: string, hostAddress: Option<string>, hostname: string): string {
    if !Nonblank(hostAddress) then ""
    else if IsDhcp(info) then "ip=" + nic + ":dhcp"
    else
      "ip=" + Val(info, "IPADDR") + "::" + Val(info, "GATEWAY") + ":" + Val(info, "NETMASK")
      + ":" + hostname + ":" + nic + ":none"
  }

  /** The `ifname=` argument, with the MAC address in lower case, when the device has one. */
  function HwArg(args: string, info: Info, nic: string): (r: string)
    ensures args != "" ==> StartsWith(r, args)
  {
    if Val(info, "HWADDR") == "" then args
    else
      var r := Spaced(args, "ifname=" + nic + ":" + ToLower(Val(info, "HWADDR")));
      assert args != "" ==> r == args + r[|args|..];
      r
  }

  /** The s390 `rd_CCW=` argument with the options, quotes stripped, appended by commas. */
  function CcwArg(args: string, info: Info, s390: bool): (r: string)
    ensures args != "" ==> StartsWith(r, args)
  {
    if s390 && Val(info, "NETTYPE") != "" && Val(info, "SUBCHANNELS") != "" then
      var ccw := Spaced(args, "rd_CCW=" + Val(info, "NETTYPE") + "," + Val(info, "SUBCHANNELS"));
      var options := StripQuotes(Val(info, "OPTIONS"));
      var r := if options != "" then ccw + "," + Join(NonEmpty(Split(options, ' ')), ",") else ccw;
      assert args != "" ==> r == args + r[|args|..];
      r
    else args
  }

  /** The arguments once the interface is known; "" for an interface the installer does not know. */
  function DracutArgs(devs: map<string, Info>, hostname: string, s390: bool, nic: string, hostAddress: Option<string>): string {
    if nic !in devs then ""
    else
      var info := devs[nic];
      CcwArg(HwArg(IpArg(info, nic, hostAddress, hostname), info, nic), info, s390)
  }

  /**
   * dracutSetupString.  `route` is what `ip route get to <host>` printed
   * (the process call is not part of this model); "" stands for no output.
   */
  function DracutSetupString(devs: map<string, Info>, hostname: string, s390: bool, t: StorageTarget, route: string):
    (r: Result<string, DracutError>)
    ensures r.Err? <==> !Nonblank(t.nic) && route != "" && Words(route) == []
    ensures Nonblank(t.nic) && t.nic.value !in devs ==> r == Ok("")
  {
    if Nonblank(t.nic) then Ok(DracutArgs(devs, hostname, s390, t.nic.value, t.hostAddress))
    else if route == "" then Ok("")
    else
      var words := Words(route);
      if words == [] then Err(BlankRouteReply)
      else match RouteNic(words, t.hostAddress)
        case None => Ok("")
        case Some(nic) => Ok(DracutArgs(devs, hostname, s390, nic, t.hostAddress))
  }

  /** Replies naming another host, too short, or with `dev` missing or late give no arguments. */
  lemma UnexpectedRouteRefused(devs: map<string, Info>, hostname: string, s390: bool, t: StorageTarget, route: string)
    requires !Nonblank(t.nic) && Words(route) != []
    requires t.hostAddress.None? || Words(route)[0] != t.hostAddress.value || |Words(route)| < 5
      || "dev" !in Words(route) || IndexOf(Words(route), "dev").value > 3
    ensures DracutSetupString(devs, hostname, s390, t, route) == Ok("")
  {
    assert route != "";
  }

  /** A dhcp interface reached through the host address is named with `:dhcp`. */
  lemma DhcpArgument(devs: map<string, Info>, hostname: string, s390: bool, nic: string, hostAddress: Option<string>)
    requires nic in devs && IsDhcp(devs[nic]) && Nonblank(hostAddress)
    ensures StartsWith(DracutArgs(devs, hostname, s390, nic, hostAddress), "ip=" + nic + ":dhcp")
  {
    var info := devs[nic];
    var ip := IpArg(info, nic, hostAddress, hostname);
    assert ip == "ip=" + nic + ":dhcp";
    var hw := HwArg(ip, info, nic);
    StartsWithTransitive(CcwArg(hw, info, s390), hw, ip);
  }

  // --------------------------------------------------------------- Network

  class Network {
    var hostname: string
    var overrideDHCPhostname: bool
    var netdevices: map<string, NetworkDevice>

    constructor (hostname: string)
      ensures this.hostname == hostname && !overrideDHCPhostname && netdevices == map[]
    {
      this.hostname := hostname;
      overrideDHCPhostname := false;
      netdevices := map[];
    }

    function Settings(): (r: map<string, Info>)
      reads this, netdevices.Values
      ensures r.Keys == netdevices.Keys
    {
      map k | k in netdevices :: netdevices[k].info
    }

    /**
     * setDNS: the comma-separated servers, stripped, become DNS1, DNS2, ...
     * of the device; an unknown device raises KeyError before anything is set.
     */
    method SetDNS(ns: string, device: string) returns (found: bool)
      modifies if device in netdevices then {netdevices[device]} else {}
      ensures found <==> device in netdevices
      ensures found ==> var dns := StripAll(Split(ns, ',')); netdevices[device].info == WithDns(old(netdevices[device].info), dns, |dns|)
    {
      if device !in netdevices {
        return false;
      }
      netdevices[device].StoreNameServers(Split(ns, ','));
      return true;
    }

    function OnbootIfaces(): set<string>
      reads this, netdevices.Values
    {
      set k | k in netdevices && Val(netdevices[k].info, "ONBOOT") == "yes" && netdevices[k].info["ONBOOT"].Some?
    }

    /** getOnbootIfaces: each device whose ONBOOT is "yes", once, in dictionary order. */
    method GetOnbootIfaces() returns (ifaces: seq<string>)
      ensures forall k :: k in ifaces <==> k in OnbootIfaces()
      ensures forall i, j :: 0 <= i < j < |ifaces| ==> ifaces[i] != ifaces[j]
    {
      ifaces := [];
      var todo := netdevices.Keys;
      while todo != {}
        invariant todo <= netdevices.Keys
        invariant forall k :: k in ifaces <==> k in OnbootIfaces() && k !in todo
        invariant forall i, j :: 0 <= i < j < |ifaces| ==> ifaces[i] != ifaces[j]
        decreases todo
      {
        var k :| k in todo;
        var info := netdevices[k].info;
        if "ONBOOT" in info && info["ONBOOT"] == Some("yes") {
          ifaces := ifaces + [k];
        }
        todo := todo - {k};
      }
    }

    /** writeKS: the `network` lines, device names in sorted order. */
    method WriteKS() returns (out: string)
      ensures out == KsText(Settings(), SortedSet(netdevices.Keys), hostname, overrideDHCPhostname)
    {
      out := WriteKsSorted(Settings(), hostname, overrideDHCPhostname);
    }
  }
}
