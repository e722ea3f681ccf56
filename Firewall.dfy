/**
 * The firewall screen's Next handler (iw/firewall_gui.py, getNext): the
 * security level chosen sets the firewall's `enabled` and `policy`; in
 * the custom configuration the checked devices become trusted, the
 * service check boxes are copied, and the comma-separated port list is
 * validated token by token into `port:protocol` entries. One bad token
 * keeps the user on the screen and leaves the stored port list alone.
 * The widgets' states are given as a Screen value.
 */
module Firewall {
  import opened Wrappers
  import opened Strings

  /** What one token contributes: an entry, a rejection of the token, or nothing (an empty token, or one starting with `:`). */
  datatype Verdict = Accept(entry: string) | Reject(token: string) | Skip

  /** A port number given in a token that lies outside 1..65535; a token that is not a number is not out of range. */
  predicate OutOfRange(n: Option<int>) {
    n.Some? && (n.value < 1 || n.value > 65535)
  }

  predicate Protocol(p: string) {
    p == "tcp" || p == "udp"
  }

  /**
   * One token of the list. A colon at index 0 makes `string.index` return
   * 0, which is false, so such a token is passed over. A token without a
   * colon makes `string.index` raise, and is read as a bare port.
   */
  function Classify(token: string): (v: Verdict)
  {
    match FindChar(token, ':')
    case Some(k) => if k == 0 then Skip else ColonVerdict(token)
    case None => if |token| == 0 then Skip else BareVerdict(token)
  }

  /** A token with a colon needs exactly one, a port in range when it is a number, and protocol tcp or udp; it is kept as it is. */
  function ColonVerdict(token: string): Verdict {
    var parts := Split(token, ':');
    if |parts| != 2 then Reject(token)
    else if OutOfRange(PyInt(parts[0])) then Reject(token)
    else if Protocol(parts[1]) then Accept(token) else Reject(token)
  }

  /** A token without a colon needs a port in range when it is a number, and gets `:tcp`. */
  function BareVerdict(token: string): Verdict {
    if OutOfRange(PyInt(token)) then Reject(token) else Accept(token + ":tcp")
  }

  /** A stored entry: a non-empty port, one colon, tcp or udp, and a number in range when the port is a number. */
  predicate WellFormed(e: string) {
    var parts := Split(e, ':');
    |parts| == 2 && |parts[0]| > 0 && Protocol(parts[1]) && !OutOfRange(PyInt(parts[0]))
  }

  /** Every entry a token gives is well formed. */
  lemma AcceptedWellFormed(token: string)
    requires Classify(token).Accept?
    ensures WellFormed(Classify(token).entry)
  {
    match FindChar(token, ':')
    case None =>
      BareWellFormed(token);
    case Some(k) =>
      SplitAt(token, ':', k);
  }

  lemma BareWellFormed(token: string)
    requires FindChar(token, ':').None? && |token| > 0 && BareVerdict(token).Accept?
    ensures WellFormed(BareVerdict(token).entry)
  {
    FindCharNone(token, ':');
    TcpSplit(token);
  }

  /** A bare port and `:tcp` split back into the port and "tcp". */
  lemma TcpSplit(token: string)
    requires ':' !in token
    ensures Split(token + ":tcp", ':') == [token, "tcp"]
  {
    TcpSuffix();
    SplitTwo(token, "tcp", ':');
    assert token + ":tcp" == token + [':'] + "tcp";
  }

  lemma TcpSuffix()
    ensures ":tcp" == [':'] + "tcp" && ':' !in "tcp"
  {
  }

  lemma SplitTwo(p: string, q: string, sep: char)
    requires sep !in p && sep !in q
    ensures Split(p + [sep] + q, sep) == [p, q]
  {
    SplitFirst(p, q, sep);
    FindCharNone(q, sep);
  }

  /** A well-formed entry given again is kept as it is. */
  lemma WellFormedAccepted(e: string)
    requires WellFormed(e)
    ensures Classify(e) == Accept(e)
  {
    match FindChar(e, ':')
    case None =>
      SplitNone(e, ':');
    case Some(k) =>
      SplitAt(e, ':', k);
  }

  /** `f` applied to each element, built up from the front. */
  function MapEach<A, B>(f: A -> B, xs: seq<A>): (ys: seq<B>)
    ensures |ys| == |xs|
    decreases |xs|
  {
    if xs == [] then []
    else
      var n := |xs| - 1;
      MapEach(f, xs[..n]) + [f(xs[n])]
  }

  /** Element i of the map is `f` of element i. */
  lemma {:induction false} MapEachAt<A, B>(f: A -> B, xs: seq<A>, i: nat)
    requires i < |xs|
    ensures MapEach(f, xs)[i] == f(xs[i])
    decreases |xs|
  {
    var n := |xs| - 1;
    if i < n {
      MapEachAt(f, xs[..n], i);
      assert xs[..n][i] == xs[i];
    }
  }

  /** The verdict of each token. */
  function Verdicts(tokens: seq<string>): (vs: seq<Verdict>)
    ensures |vs| == |tokens|
  {
    MapEach(Classify, tokens)
  }

  /** Verdict i is token i's. */
  lemma VerdictAt(tokens: seq<string>, i: nat)
    requires i < |tokens|
    ensures Verdicts(tokens)[i] == Classify(tokens[i])
  {
    MapEachAt(Classify, tokens, i);
  }

  /** One more token adds its verdict. */
  lemma VerdictsStep(tokens: seq<string>, i: nat)
    requires i < |tokens|
    ensures Verdicts(tokens[..i + 1]) == Verdicts(tokens[..i]) + [Classify(tokens[i])]
  {
    assert tokens[..i + 1][..i] == tokens[..i];
  }

  /** The entries of the verdicts, in order. */
  function EntriesOf(vs: seq<Verdict>): (es: seq<string>)
    ensures |es| <= |vs|
    decreases |vs|
  {
    if vs == [] then []
    else
      var n := |vs| - 1;
      match vs[n]
      case Accept(e) => EntriesOf(vs[..n]) + [e]
      case _ => EntriesOf(vs[..n])
  }

  /** The token of the last rejection, which the warning names. */
  function LastBadOf(vs: seq<Verdict>): (b: Option<string>)
    decreases |vs|
  {
    if vs == [] then None
    else
      var n := |vs| - 1;
      if vs[n].Reject? then Some(vs[n].token) else LastBadOf(vs[..n])
  }

  /** The entries of the tokens, in input order. */
  function Entries(tokens: seq<string>): seq<string> {
    EntriesOf(Verdicts(tokens))
  }

  /** The last token rejected. */
  function LastBad(tokens: seq<string>): Option<string> {
    LastBadOf(Verdicts(tokens))
  }

  /** No token is named bad exactly when none is rejected, and a named one is a rejected token. */
  lemma {:induction false} LastBadOfIff(vs: seq<Verdict>)
    ensures LastBadOf(vs).None? <==> forall i :: 0 <= i < |vs| ==> !vs[i].Reject?
    ensures LastBadOf(vs).Some? ==> Reject(LastBadOf(vs).value) in vs
    decreases |vs|
  {
    if vs != [] {
      var n := |vs| - 1;
      LastBadOfIff(vs[..n]);
      if !vs[n].Reject? {
        if forall i :: 0 <= i < n ==> !vs[..n][i].Reject? {
          forall i | 0 <= i < |vs| ensures !vs[i].Reject? {
            if i < n { assert vs[i] == vs[..n][i]; }
          }
        } else {
          var i :| 0 <= i < n && vs[..n][i].Reject?;
          assert vs[i] == vs[..n][i];
        }
        if LastBadOf(vs[..n]).Some? {
          var i :| 0 <= i < n && vs[..n][i] == Reject(LastBadOf(vs).value);
          assert vs[i] == vs[..n][i];
        }
      } else {
        assert vs[n] == Reject(vs[n].token);
      }
    }
  }

  /** No token is named bad exactly when none is rejected; a token named bad is in the list and rejected. */
  lemma LastBadIff(tokens: seq<string>)
    ensures LastBad(tokens).None? <==> forall i :: 0 <= i < |tokens| ==> !Classify(tokens[i]).Reject?
    ensures LastBad(tokens).Some? ==> exists i :: 0 <= i < |tokens| && tokens[i] == LastBad(tokens).value &&
                                                 Classify(tokens[i]).Reject?
  {
    var vs := Verdicts(tokens);
    LastBadOfIff(vs);
    forall i | 0 <= i < |tokens| ensures vs[i] == Classify(tokens[i]) {
      VerdictAt(tokens, i);
    }
    if LastBad(tokens).Some? {
      var i :| 0 <= i < |vs| && vs[i] == Reject(LastBad(tokens).value);
      RejectNamesToken(tokens[i]);
    }
  }

  /** A rejection names the token rejected. */
  lemma RejectNamesToken(token: string)
    requires Classify(token).Reject?
    ensures Classify(token).token == token
  {
  }

  /** Every entry of the list is the entry of an accepting verdict. */
  lemma {:induction false} EntriesFrom(vs: seq<Verdict>)
    ensures forall j :: 0 <= j < |EntriesOf(vs)| ==> Accept(EntriesOf(vs)[j]) in vs
    decreases |vs|
  {
    if vs != [] {
      var n := |vs| - 1;
      EntriesFrom(vs[..n]);
      assert forall v :: v in vs[..n] ==> v in vs;
    }
  }

  /** Every entry of the list is well formed. */
  lemma EntriesWellFormed(tokens: seq<string>)
    ensures forall j :: 0 <= j < |Entries(tokens)| ==> WellFormed(Entries(tokens)[j])
  {
    var vs := Verdicts(tokens);
    EntriesFrom(vs);
    forall j | 0 <= j < |EntriesOf(vs)| ensures WellFormed(EntriesOf(vs)[j]) {
      var i :| 0 <= i < |vs| && vs[i] == Accept(EntriesOf(vs)[j]);
      VerdictAt(tokens, i);
      AcceptedWellFormed(tokens[i]);
    }
  }

  /** Every entry holds no comma when no token does. */
  lemma EntriesNoComma(tokens: seq<string>)
    requires forall i :: 0 <= i < |tokens| ==> ',' !in tokens[i]
    ensures forall j :: 0 <= j < |Entries(tokens)| ==> ',' !in Entries(tokens)[j]
  {
    var vs := Verdicts(tokens);
    EntriesFrom(vs);
    forall j | 0 <= j < |EntriesOf(vs)| ensures ',' !in EntriesOf(vs)[j] {
      var i :| 0 <= i < |vs| && vs[i] == Accept(EntriesOf(vs)[j]);
      VerdictAt(tokens, i);
      AcceptedNoComma(tokens[i]);
    }
  }

  /** An entry adds no comma to its token. */
  lemma AcceptedNoComma(t: string)
    requires ',' !in t && Classify(t).Accept?
    ensures ',' !in Classify(t).entry
  {
    match FindChar(t, ':')
    case None =>
      assert Classify(t) == BareVerdict(t);
      NoCommaTcp(t);
    case Some(k) =>
      assert Classify(t).entry == t;
  }

  /** Appending the default protocol adds no comma. */
  lemma NoCommaTcp(t: string)
    requires ',' !in t
    ensures ',' !in t + ":tcp"
  {
    assert forall j :: 0 <= j < |t + ":tcp"| ==> (t + ":tcp")[j] == (if j < |t| then t[j] else ":tcp"[j - |t|]);
  }

  /** Verdicts that all accept give their entries, in order. */
  lemma {:induction false} EntriesOfAccepts(vs: seq<Verdict>, es: seq<string>)
    requires |vs| == |es| && forall i :: 0 <= i < |vs| ==> vs[i] == Accept(es[i])
    ensures EntriesOf(vs) == es
    decreases |vs|
  {
    if vs != [] {
      var n := |vs| - 1;
      EntriesOfAccepts(vs[..n], es[..n]);
      assert es == es[..n] + [es[n]];
    }
  }

  /** Tokens that are already entries give themselves back, in order. */
  lemma EntriesOfEntries(es: seq<string>)
    requires forall i :: 0 <= i < |es| ==> WellFormed(es[i])
    ensures Entries(es) == es
  {
    var vs := Verdicts(es);
    forall i | 0 <= i < |es| ensures vs[i] == Accept(es[i]) {
      VerdictAt(es, i);
      WellFormedAccepted(es[i]);
    }
    EntriesOfAccepts(vs, es);
  }

  /** The port list read from a text box: nothing for blank text, else the stripped text split at commas. */
  function Tokens(text: string): (ts: seq<string>)
    ensures forall i :: 0 <= i < |ts| ==> ',' !in ts[i]
  {
    var s := Strip(text);
    if |s| == 0 then [] else SplitPieces(s)
  }

  /** Split at commas, with the fact that no piece holds one. */
  function SplitPieces(s: string): (ts: seq<string>)
    ensures ts == Split(s, ',')
    ensures forall i :: 0 <= i < |ts| ==> ',' !in ts[i]
    decreases |s|
  {
    match FindChar(s, ',')
    case None => [s]
    case Some(i) => [s[..i]] + SplitPieces(s[i + 1..])
  }

  /**
   * The stored list, shown again in the text box and accepted again,
   * gives itself back: the entries of a list that is already stored are
   * that list.
   */
  lemma Reentered(text: string)
    requires LastBad(Tokens(text)).None?
    requires Strip(Join(Entries(Tokens(text)), ",")) == Join(Entries(Tokens(text)), ",")
    ensures Join(Entries(Tokens(Join(Entries(Tokens(text)), ","))), ",") == Join(Entries(Tokens(text)), ",")
  {
    var es := Entries(Tokens(text));
    EntriesWellFormed(Tokens(text));
    EntriesNoComma(Tokens(text));
    EntriesNonEmpty(Tokens(text));
    if es != [] {
      assert Join(es, ",") == Join(es, [',']);
      SplitOfJoin(es, ',');
      EntriesOfEntries(es);
      JoinNonEmpty(es);
    }
  }

  /** An entry is never empty. */
  lemma AcceptedNonEmpty(token: string)
    requires Classify(token).Accept?
    ensures |Classify(token).entry| > 0
  {
  }

  /** The entries of the tokens start with a non-empty one. */
  lemma EntriesNonEmpty(tokens: seq<string>)
    ensures var es := Entries(tokens); es != [] ==> |es[0]| > 0
  {
    var vs := Verdicts(tokens);
    var es := EntriesOf(vs);
    EntriesFrom(vs);
    if es != [] {
      var k :| 0 <= k < |vs| && vs[k] == Accept(es[0]);
      VerdictAt(tokens, k);
      AcceptedNonEmpty(tokens[k]);
    }
  }

  /** One more verdict: its entry is added, or its token becomes the last bad one. */
  lemma SnocStep(vs: seq<Verdict>, v: Verdict)
    ensures EntriesOf(vs + [v]) == if v.Accept? then EntriesOf(vs) + [v.entry] else EntriesOf(vs)
    ensures LastBadOf(vs + [v]) == if v.Reject? then Some(v.token) else LastBadOf(vs)
  {
    assert (vs + [v])[..|vs|] == vs;
  }

  /** A join whose first piece is not empty is not empty. */
  lemma JoinNonEmpty(es: seq<string>)
    requires es != [] && |es[0]| > 0
    ensures |Join(es, ",")| > 0
  {
    if |es| > 1 {
      assert Join(es, ",") == es[0] + "," + Join(es[1..], ",");
    }
  }

  /** The firewall settings getNext writes. */
  class Settings {
    var enabled: int
    var policy: int
    var trustdevs: seq<string>
    var dhcp: int
    var ssh: int
    var telnet: int
    var http: int
    var smtp: int
    var ftp: int
    var portlist: string

    constructor(enabled: int, policy: int, trustdevs: seq<string>, portlist: string)
      ensures this.enabled == enabled && this.policy == policy
      ensures this.trustdevs == trustdevs && this.portlist == portlist
      ensures dhcp == 0 && ssh == 0 && telnet == 0 && http == 0 && smtp == 0 && ftp == 0
    {
      this.enabled := enabled;
      this.policy := policy;
      this.trustdevs := trustdevs;
      this.portlist := portlist;
      dhcp, ssh, telnet, http, smtp, ftp := 0, 0, 0, 0, 0, 0;
    }
  }

  /**
   * The states of the screen's widgets: whether the screen was built,
   * the security-level and configuration radio buttons, the devices and
   * whether row i of the trusted list is checked (1), the service rows
   * (name, check value) in the order shown, and the ports text.
   */
  datatype Screen = Screen(shown: bool, none: bool, high: bool, medium: bool, useDefault: bool, custom: bool,
                           devices: seq<string>, trusted: nat -> int, incoming: seq<(string, int)>,
                           ports: string)

  /** The devices whose row is checked, in list order. */
  function Trusted(devices: seq<string>, trusted: nat -> int): (r: seq<string>)
    ensures |r| <= |devices|
    ensures forall d :: d in r ==> d in devices
    decreases |devices|
  {
    if devices == [] then []
    else
      var n := |devices| - 1;
      Trusted(devices[..n], trusted) + (if trusted(n) == 1 then [devices[n]] else [])
  }

  /** A device is trusted exactly when a row of it is checked. */
  lemma {:induction false} TrustedIff(devices: seq<string>, trusted: nat -> int, d: string)
    ensures d in Trusted(devices, trusted) <==> exists i :: 0 <= i < |devices| && devices[i] == d && trusted(i) == 1
    decreases |devices|
  {
    if devices != [] {
      var n := |devices| - 1;
      TrustedIff(devices[..n], trusted, d);
      if exists i :: 0 <= i < |devices| && devices[i] == d && trusted(i) == 1 {
        var i :| 0 <= i < |devices| && devices[i] == d && trusted(i) == 1;
        if i < n { assert devices[..n][i] == d; }
      }
      if d in Trusted(devices[..n], trusted) {
        var i :| 0 <= i < n && devices[..n][i] == d && trusted(i) == 1;
        assert devices[i] == d;
      }
    }
  }

  /** The check value of the last service row with this name, or `dflt` when there is none. */
  function ServiceValue(rows: seq<(string, int)>, name: string, dflt: int): (v: int)
    ensures (forall i :: 0 <= i < |rows| ==> rows[i].0 != name) ==> v == dflt
    decreases |rows|
  {
    if rows == [] then dflt
    else
      var n := |rows| - 1;
      if rows[n].0 == name then rows[n].1 else ServiceValue(rows[..n], name, dflt)
  }

  /** One more row: it sets its service's value. */
  lemma ServiceStep(rows: seq<(string, int)>, i: nat, name: string, dflt: int)
    requires i < |rows|
    ensures ServiceValue(rows[..i + 1], name, dflt) ==
            if rows[i].0 == name then rows[i].1 else ServiceValue(rows[..i], name, dflt)
  {
    assert rows[..i + 1][..i] == rows[..i];
  }

  /** With one row per service, the value copied is that row's. */
  lemma {:induction false} ServiceValueOfRow(rows: seq<(string, int)>, i: nat, dflt: int)
    requires i < |rows| && forall j :: 0 <= j < |rows| && j != i ==> rows[j].0 != rows[i].0
    ensures ServiceValue(rows, rows[i].0, dflt) == rows[i].1
    decreases |rows|
  {
    var n := |rows| - 1;
    if i < n {
      ServiceValueOfRow(rows[..n], i, dflt);
    }
  }

  /** What getNext does: go on to the next screen, or stay and warn about a token. */
  datatype Next = Next | StayOnScreen(badToken: string)

  /** The firewall screen: its configuration choice (0 default, 1 custom) and the settings it edits. */
  class FirewallWindow {
    var firewallState: int
    const firewall: Settings

    constructor(firewall: Settings)
      ensures this.firewall == firewall && firewallState == 0
    {
      this.firewall := firewall;
      firewallState := 0;
    }

    /** The loop over the tokens: the accepted entries joined with commas, and the last bad token, if any. */
    static method ScanTokens(tokens: seq<string>) returns (portlist: string, badTokenFound: bool, badToken: string)
      ensures portlist == Join(Entries(tokens), ",")
      ensures badTokenFound <==> LastBad(tokens).Some?
      ensures badTokenFound ==> badToken == LastBad(tokens).value
    {
      portlist := "";
      badTokenFound := false;
      badToken := "";
      var i := 0;
      while i < |tokens|
        invariant i <= |tokens|
        invariant portlist == Join(Entries(tokens[..i]), ",")
        invariant badTokenFound <==> LastBad(tokens[..i]).Some?
        invariant badTokenFound ==> badToken == LastBad(tokens[..i]).value
      {
        portlist, badTokenFound, badToken := ScanToken(tokens, i, portlist, badTokenFound, badToken);
        i := i + 1;
      }
      assert tokens[..i] == tokens;
    }

    /** One pass of that loop, on token i. */
    static method ScanToken(tokens: seq<string>, i: nat, portlist: string, badTokenFound: bool, badToken: string)
      returns (portlist': string, badTokenFound': bool, badToken': string)
      requires i < |tokens|
      requires portlist == Join(Entries(tokens[..i]), ",")
      requires badTokenFound <==> LastBad(tokens[..i]).Some?
      requires badTokenFound ==> badToken == LastBad(tokens[..i]).value
      ensures portlist' == Join(Entries(tokens[..i + 1]), ",")
      ensures badTokenFound' <==> LastBad(tokens[..i + 1]).Some?
      ensures badTokenFound' ==> badToken' == LastBad(tokens[..i + 1]).value
    {
      portlist', badTokenFound', badToken' := portlist, badTokenFound, badToken;
      var token := tokens[i];
      ghost var vs := Verdicts(tokens[..i]);
      var es := EntriesOf(vs);
      EntriesNonEmpty(tokens[..i]);
      if es != [] {
        JoinNonEmpty(es);
      }
      var v := CheckToken(token);
      VerdictsStep(tokens, i);
      SnocStep(vs, v);
      match v {
        case Accept(e) =>
          if |portlist| == 0 {
            portlist' := e;
          } else {
            JoinSnoc(es, ",", e);
            portlist' := portlist + "," + e;
          }
        case Reject(_) =>
          RejectNamesToken(token);
          badTokenFound' := true;
          badToken' := token;
        case Skip =>
      }
    }

    /** The checks getNext makes on one token. */
    static method CheckToken(token: string) returns (v: Verdict)
      ensures v == Classify(token)
    {
      var colon := FindChar(token, ':');
      if colon.Some? {
        if colon.value == 0 {
          return Skip;
        }
        var parts := Split(token, ':');
        SplitAt(token, ':', colon.value);
        var portnum := PyInt(parts[0]);
        if |parts| > 2 || OutOfRange(portnum) {
          return Reject(token);
        }
        if parts[1] == "tcp" || parts[1] == "udp" {
          return Accept(token);
        }
        return Reject(token);
      }
      if |token| == 0 {
        return Skip;
      }
      var portnum := PyInt(token);
      if OutOfRange(portnum) {
        return Reject(token);
      }
      v := Accept(token + ":tcp");
    }

    /** Copying each known service's check value from the rows into the settings. */
    method CopyServices(rows: seq<(string, int)>)
      modifies firewall
      ensures firewall.dhcp == ServiceValue(rows, "DHCP", old(firewall.dhcp))
      ensures firewall.ssh == ServiceValue(rows, "SSH", old(firewall.ssh))
      ensures firewall.telnet == ServiceValue(rows, "Telnet", old(firewall.telnet))
      ensures firewall.http == ServiceValue(rows, "WWW (HTTP)", old(firewall.http))
      ensures firewall.smtp == ServiceValue(rows, "Mail (SMTP)", old(firewall.smtp))
      ensures firewall.ftp == ServiceValue(rows, "FTP", old(firewall.ftp))
      ensures firewall.enabled == old(firewall.enabled) && firewall.policy == old(firewall.policy)
      ensures firewall.trustdevs == old(firewall.trustdevs) && firewall.portlist == old(firewall.portlist)
    {
      var dhcp, ssh, telnet, http, smtp, ftp := ScanServices(rows,
        firewall.dhcp, firewall.ssh, firewall.telnet, firewall.http, firewall.smtp, firewall.ftp);
      firewall.dhcp, firewall.ssh, firewall.telnet, firewall.http, firewall.smtp, firewall.ftp :=
        dhcp, ssh, telnet, http, smtp, ftp;
    }

    /** The loop over the service rows: each known service takes the value of its last row. */
    static method ScanServices(rows: seq<(string, int)>, dhcp0: int, ssh0: int, telnet0: int, http0: int, smtp0: int, ftp0: int)
      returns (dhcp: int, ssh: int, telnet: int, http: int, smtp: int, ftp: int)
      ensures dhcp == ServiceValue(rows, "DHCP", dhcp0)
      ensures ssh == ServiceValue(rows, "SSH", ssh0)
      ensures telnet == ServiceValue(rows, "Telnet", telnet0)
      ensures http == ServiceValue(rows, "WWW (HTTP)", http0)
      ensures smtp == ServiceValue(rows, "Mail (SMTP)", smtp0)
      ensures ftp == ServiceValue(rows, "FTP", ftp0)
    {
      dhcp, ssh, telnet, http, smtp, ftp := dhcp0, ssh0, telnet0, http0, smtp0, ftp0;
      var i := 0;
      while i < |rows|
        invariant i <= |rows|
        invariant dhcp == ServiceValue(rows[..i], "DHCP", dhcp0)
        invariant ssh == ServiceValue(rows[..i], "SSH", ssh0)
        invariant telnet == ServiceValue(rows[..i], "Telnet", telnet0)
        invariant http == ServiceValue(rows[..i], "WWW (HTTP)", http0)
        invariant smtp == ServiceValue(rows[..i], "Mail (SMTP)", smtp0)
        invariant ftp == ServiceValue(rows[..i], "FTP", ftp0)
      {
        ServiceStep(rows, i, "DHCP", dhcp0);
        ServiceStep(rows, i, "SSH", ssh0);
        ServiceStep(rows, i, "Telnet", telnet0);
        ServiceStep(rows, i, "WWW (HTTP)", http0);
        ServiceStep(rows, i, "Mail (SMTP)", smtp0);
        ServiceStep(rows, i, "FTP", ftp0);
        var (service, val) := rows[i];
        if service == "DHCP" {
          dhcp := val;
        } else if service == "SSH" {
          ssh := val;
        } else if service == "Telnet" {
          telnet := val;
        } else if service == "WWW (HTTP)" {
          http := val;
        } else if service == "Mail (SMTP)" {
          smtp := val;
        } else if service == "FTP" {
          ftp := val;
        }
        i := i + 1;
      }
      assert rows[..i] == rows;
    }

    /** The loop over the devices: the checked ones, in list order. */
    static method TrustedDevices(devices: seq<string>, trusted: nat -> int) returns (trustdevs: seq<string>)
      ensures trustdevs == Trusted(devices, trusted)
    {
      trustdevs := [];
      var count := 0;
      while count < |devices|
        invariant count <= |devices|
        invariant trustdevs == Trusted(devices[..count], trusted)
      {
        assert devices[..count + 1][..count] == devices[..count];
        if trusted(count) == 1 {
          trustdevs := trustdevs + [devices[count]];
        }
        count := count + 1;
      }
      assert devices[..count] == devices;
    }

    /**
     * getNext. No firewall: disabled with policy 1 and nothing else read.
     * Otherwise high sets policy 0, medium policy 1, both enabling; the
     * configuration choice is recorded, and in the custom one the trusted
     * devices, the services and the port list are taken from the screen.
     */
    method GetNext(screen: Screen) returns (r: Next)
      modifies this, firewall
      ensures !screen.shown ==> r == Next && unchanged(this) && unchanged(firewall)
      ensures screen.shown && screen.none ==>
                r == Next && firewall.enabled == 0 && firewall.policy == 1 && firewallState == old(firewallState) &&
                firewall.trustdevs == old(firewall.trustdevs) && firewall.portlist == old(firewall.portlist)
      ensures screen.shown && !screen.none && screen.high ==> firewall.policy == 0 && firewall.enabled == 1
      ensures screen.shown && !screen.none && !screen.high && screen.medium ==> firewall.policy == 1 && firewall.enabled == 1
      ensures screen.shown && !screen.none && !screen.high && !screen.medium ==>
                firewall.policy == old(firewall.policy) && firewall.enabled == old(firewall.enabled)
      ensures screen.shown && !screen.none ==>
                firewallState == (if screen.custom then 1 else if screen.useDefault then 0 else old(firewallState))
      ensures screen.shown && !screen.none && !screen.custom ==>
                r == Next && firewall.trustdevs == old(firewall.trustdevs) && firewall.portlist == old(firewall.portlist)
      ensures screen.shown && !screen.none && screen.custom ==> Custom(screen, r, old(firewall.portlist))
      ensures screen.shown && !screen.none && screen.custom ==>
                firewall.dhcp == ServiceValue(screen.incoming, "DHCP", old(firewall.dhcp)) &&
                firewall.ssh == ServiceValue(screen.incoming, "SSH", old(firewall.ssh)) &&
                firewall.telnet == ServiceValue(screen.incoming, "Telnet", old(firewall.telnet)) &&
                firewall.http == ServiceValue(screen.incoming, "WWW (HTTP)", old(firewall.http)) &&
                firewall.smtp == ServiceValue(screen.incoming, "Mail (SMTP)", old(firewall.smtp)) &&
                firewall.ftp == ServiceValue(screen.incoming, "FTP", old(firewall.ftp))
    {
      if !screen.shown {
        return Next;
      }
      if screen.none {
        firewall.enabled := 0;
        firewall.policy := 1;
        return Next;
      }
      if screen.high {
        firewall.policy := 0;
        firewall.enabled := 1;
      } else if screen.medium {
        firewall.policy := 1;
        firewall.enabled := 1;
      }
      if screen.useDefault {
        firewallState := 0;
      }
      if !screen.custom {
        return Next;
      }
      firewallState := 1;
      r := ReadCustom(screen);
    }

    /**
     * The custom configuration after getNext: the checked devices are
     * trusted, and a bad token keeps the user on the screen with the
     * port list unchanged; otherwise the accepted entries are stored.
     */
    ghost predicate Custom(screen: Screen, r: Next, oldPortlist: string)
      reads firewall
    {
      var tokens := Tokens(screen.ports);
      firewall.trustdevs == Trusted(screen.devices, screen.trusted) &&
      (LastBad(tokens).Some? ==> r == StayOnScreen(LastBad(tokens).value) && firewall.portlist == oldPortlist) &&
      (LastBad(tokens).None? ==> r == Next && firewall.portlist == Join(Entries(tokens), ","))
    }

    /** The custom part of getNext: devices, services, then the ports. */
    method ReadCustom(screen: Screen) returns (r: Next)
      modifies firewall
      ensures Custom(screen, r, old(firewall.portlist))
      ensures firewall.enabled == old(firewall.enabled) && firewall.policy == old(firewall.policy)
      ensures firewall.dhcp == ServiceValue(screen.incoming, "DHCP", old(firewall.dhcp))
      ensures firewall.ssh == ServiceValue(screen.incoming, "SSH", old(firewall.ssh))
      ensures firewall.telnet == ServiceValue(screen.incoming, "Telnet", old(firewall.telnet))
      ensures firewall.http == ServiceValue(screen.incoming, "WWW (HTTP)", old(firewall.http))
      ensures firewall.smtp == ServiceValue(screen.incoming, "Mail (SMTP)", old(firewall.smtp))
      ensures firewall.ftp == ServiceValue(screen.incoming, "FTP", old(firewall.ftp))
    {
      var devs := TrustedDevices(screen.devices, screen.trusted);
      firewall.trustdevs := devs;
      CopyServices(screen.incoming);
      var portstring := Strip(screen.ports);
      var tokens := if |portstring| == 0 then [] else SplitPieces(portstring);
      var portlist, badTokenFound, badToken := ScanTokens(tokens);
      if badTokenFound {
        return StayOnScreen(badToken);
      }
      firewall.portlist := portlist;
      r := Next;
    }
  }
}
