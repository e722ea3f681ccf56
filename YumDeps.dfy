/**
 * The dependency pass of the installer's yum subclass (yuminstall.py,
 * YumSorter): every member of the transaction that is to be installed has
 * its requirements looked up; a provider not yet in the transaction is
 * added to it and checked in the next round, and the requiring member
 * records that it depends on the provider. yum's own tables are given as
 * a `Repo`: what provides a requirement, what each package requires and
 * provides, yum's choice among several candidates (an index), and the
 * whiteout pairs.
 */
module YumDeps {
  import opened Wrappers
  import opened Strings

  /** A requirement or provide: name, flags, version. */
  datatype Req = Req(name: string, flags: string, version: string)

  /** A package tuple: name, arch, epoch, version, release. */
  datatype PkgTup = PkgTup(name: string, arch: string, epoch: string, version: string, release: string)

  /** A transaction member: whether its output state is an install state, and its relations (package tuple, kind). */
  datatype TxMember = TxMember(installing: bool, relatedto: seq<(PkgTup, string)>)

  datatype Repo = Repo(
    whatProvides: Req -> seq<PkgTup>,
    requirements: PkgTup -> seq<Req>,
    provisions: PkgTup -> seq<Req>,
    best: seq<PkgTup> -> nat,
    whiteout: set<(string, string)>)

  /** The solver's state: the cache of resolved requirements and the transaction's members by package tuple. */
  datatype Tx = Tx(deps: map<Req, PkgTup>, members: map<PkgTup, TxMember>)

  function Tups(s: seq<PkgTup>): set<PkgTup> {
    set x | x in s
  }

  predicate Distinct(s: seq<PkgTup>) {
    forall i, j :: 0 <= i < j < |s| ==> s[i] != s[j]
  }

  /** The relations already name this package tuple. */
  predicate HasRel(rels: seq<(PkgTup, string)>, tup: PkgTup) {
    exists k :: 0 <= k < |rels| && rels[k].0 == tup
  }

  /** The first package of the list that is already in the transaction. */
  function FirstMember(list: seq<PkgTup>, members: map<PkgTup, TxMember>): (r: Option<nat>)
    ensures r.Some? ==> r.value < |list| && list[r.value] in members
    ensures r.Some? ==> forall j :: 0 <= j < r.value ==> list[j] !in members
    ensures r.None? ==> forall j :: 0 <= j < |list| ==> list[j] !in members
  {
    if list == [] then None
    else if list[0] in members then Some(0)
    else match FirstMember(list[1..], members)
      case None => None
      case Some(k) => Some(k + 1)
  }

  /**
   * _provideToPkg: of the packages providing the requirement, the first
   * one already in the transaction; otherwise yum's choice among them;
   * None when nothing provides it.
   */
  function Provider(req: Req, members: map<PkgTup, TxMember>, repo: Repo): (r: Option<PkgTup>)
  {
    var list := repo.whatProvides(req);
    match FirstMember(list, members)
    case Some(k) => Some(list[k])
    case None => if list == [] then None else Some(list[repo.best(list) % |list|])
  }

  /** The provider is one of the packages providing the requirement, there is one exactly when some package provides it, and a provider already in the transaction wins over the others. */
  lemma ProviderChoice(req: Req, members: map<PkgTup, TxMember>, repo: Repo)
    ensures Provider(req, members, repo).None? <==> repo.whatProvides(req) == []
    ensures Provider(req, members, repo).Some? ==> Provider(req, members, repo).value in repo.whatProvides(req)
    ensures (exists j :: 0 <= j < |repo.whatProvides(req)| && repo.whatProvides(req)[j] in members) ==>
              Provider(req, members, repo).value in members
  {
    var list := repo.whatProvides(req);
    if list != [] && FirstMember(list, members).None? {
      assert list[repo.best(list) % |list|] in list;
    }
  }

  /** The requirement is looked up: not an rpmlib( or config( requirement, and not provided by the package itself. */
  predicate Considered(req: Req, t: PkgTup, repo: Repo) {
    !StartsWith(req.name, "rpmlib(") && !StartsWith(req.name, "config(") && req !in repo.provisions(t)
  }

  /** A provider is recorded for the member: it has another name, and the pair is not whited out. */
  predicate Linked(dep: PkgTup, t: PkgTup, repo: Repo) {
    dep.name != t.name && (dep.name, t.name) !in repo.whiteout
  }

  /** setAsDep unless a relation to the package is already there. */
  function Relate(ms: map<PkgTup, TxMember>, t: PkgTup, dep: PkgTup): map<PkgTup, TxMember>
    requires t in ms
  {
    if HasRel(ms[t].relatedto, dep) then ms
    else ms[t := ms[t].(relatedto := ms[t].relatedto + [(dep, "dependson")])]
  }

  /** One requirement of member `t`: the new state and the member added to the transaction, if any. */
  function ReqStep(s: Tx, t: PkgTup, req: Req, repo: Repo): (r: (Tx, seq<PkgTup>))
    requires t in s.members
    ensures s.members.Keys <= r.0.members.Keys
  {
    if !Considered(req, t, repo) then (s, [])
    else
      var cached := req in s.deps;
      var d := if cached then Some(s.deps[req]) else Provider(req, s.members, repo);
      var deps := if !cached && d.Some? then s.deps[req := d.value] else s.deps;
      if d.None? || !Linked(d.value, t, repo) then (Tx(deps, s.members), [])
      else
        var dep := d.value;
        var ms := if dep in s.members then s.members else s.members[dep := TxMember(true, [])];
        (Tx(deps, Relate(ms, t, dep)), if dep in s.members then [] else [dep])
  }

  /** The requirements of member `t`, one after the other. */
  function ReqsFold(s: Tx, t: PkgTup, reqs: seq<Req>, repo: Repo): (r: (Tx, seq<PkgTup>))
    requires t in s.members
    ensures s.members.Keys <= r.0.members.Keys
    decreases |reqs|
  {
    if reqs == [] then (s, [])
    else
      var prev := ReqsFold(s, t, reqs[..|reqs| - 1], repo);
      var next := ReqStep(prev.0, t, reqs[|reqs| - 1], repo);
      (next.0, prev.1 + next.1)
  }

  /** One member of tsCheck: redhat-lsb and members not being installed are passed over. */
  function MemberStep(s: Tx, t: PkgTup, repo: Repo): (r: (Tx, seq<PkgTup>))
    requires t in s.members
    ensures s.members.Keys <= r.0.members.Keys
  {
    if t.name == "redhat-lsb" || !s.members[t].installing then (s, [])
    else ReqsFold(s, t, repo.requirements(t), repo)
  }

  /** tsCheck over a list of members: the new state and the members it added, in order. */
  function TsFold(s: Tx, tocheck: seq<PkgTup>, repo: Repo): (r: (Tx, seq<PkgTup>))
    requires forall i :: 0 <= i < |tocheck| ==> tocheck[i] in s.members
    ensures s.members.Keys <= r.0.members.Keys
    decreases |tocheck|
  {
    if tocheck == [] then (s, [])
    else
      var prev := TsFold(s, tocheck[..|tocheck| - 1], repo);
      var next := MemberStep(prev.0, tocheck[|tocheck| - 1], repo);
      (next.0, prev.1 + next.1)
  }

  /** The cache only gains entries, members are never removed, and a member's relations only grow at the end. */
  predicate Grows(a: Tx, b: Tx) {
    (forall r :: r in a.deps ==> r in b.deps && b.deps[r] == a.deps[r]) &&
    (forall x :: x in a.members ==> x in b.members && b.members[x].installing == a.members[x].installing &&
                                    a.members[x].relatedto <= b.members[x].relatedto)
  }

  /** A requirement cached during the pass is cached with one of its providers. */
  predicate DepsFrom(a: Tx, b: Tx, repo: Repo) {
    forall r :: r in b.deps && r !in a.deps ==> b.deps[r] in repo.whatProvides(r)
  }

  /** Members outside `ts` are untouched, and members added are to be installed with no relations. */
  predicate Touches(a: Tx, b: Tx, ts: set<PkgTup>) {
    forall x :: x in b.members && x !in ts ==>
      b.members[x] == (if x in a.members then a.members[x] else TxMember(true, []))
  }

  /** Some cached requirement resolves to this package. */
  predicate Cached(deps: map<Req, PkgTup>, x: PkgTup) {
    exists r :: r in deps && deps[r] == x
  }

  /** The members added are exactly the new keys, each once, none there before, each a cached provider. */
  predicate NewOnes(a: Tx, b: Tx, added: seq<PkgTup>) {
    b.members.Keys == a.members.Keys + Tups(added) &&
    (forall i :: 0 <= i < |added| ==> added[i] !in a.members && Cached(b.deps, added[i])) &&
    Distinct(added)
  }

  /** Each relation added is a dependency on a member with another name, not whited out, and its package appears once among the member's relations. */
  predicate AddedOnce(a: Tx, b: Tx, repo: Repo) {
    forall x :: x in a.members && x in b.members ==>
      var before := a.members[x].relatedto;
      var after := b.members[x].relatedto;
      forall i :: |before| <= i < |after| ==>
        after[i].1 == "dependson" && after[i].0 in b.members && Linked(after[i].0, x, repo) &&
        forall j :: 0 <= j < |after| && j != i ==> after[j].0 != after[i].0
  }

  /** What a pass of the checker keeps. */
  predicate PassFacts(a: Tx, b: Tx, added: seq<PkgTup>, repo: Repo, ts: set<PkgTup>) {
    Grows(a, b) && DepsFrom(a, b, repo) && Touches(a, b, ts) && NewOnes(a, b, added) && AddedOnce(a, b, repo)
  }

  lemma PassFactsRefl(a: Tx, repo: Repo, ts: set<PkgTup>)
    ensures PassFacts(a, a, [], repo, ts)
  {
    assert Tups([]) == {};
  }

  lemma GrowsTrans(a: Tx, b: Tx, c: Tx)
    requires Grows(a, b) && Grows(b, c)
    ensures Grows(a, c)
  {
    forall x | x in a.members
      ensures a.members[x].relatedto <= c.members[x].relatedto
    {
      assert a.members[x].relatedto <= b.members[x].relatedto;
    }
  }

  lemma DepsFromTrans(a: Tx, b: Tx, c: Tx, repo: Repo)
    requires Grows(a, b) && Grows(b, c) && DepsFrom(a, b, repo) && DepsFrom(b, c, repo)
    ensures DepsFrom(a, c, repo)
  {
  }

  lemma TouchesTrans(a: Tx, b: Tx, c: Tx, ts: set<PkgTup>)
    requires Touches(a, b, ts) && Touches(b, c, ts) && a.members.Keys <= b.members.Keys
    ensures Touches(a, c, ts)
  {
  }

  lemma NewOnesTrans(a: Tx, b: Tx, c: Tx, u1: seq<PkgTup>, u2: seq<PkgTup>)
    requires Grows(b, c) && NewOnes(a, b, u1) && NewOnes(b, c, u2)
    ensures NewOnes(a, c, u1 + u2)
  {
    var u := u1 + u2;
    assert Tups(u) == Tups(u1) + Tups(u2) by {
      forall x ensures x in Tups(u) <==> x in Tups(u1) || x in Tups(u2) {
        if x in Tups(u) {
          var i :| 0 <= i < |u| && u[i] == x;
          if i >= |u1| {
            assert u2[i - |u1|] == x;
          }
        }
        if x in Tups(u2) {
          var i :| 0 <= i < |u2| && u2[i] == x;
          assert u[|u1| + i] == x;
        }
      }
    }
    forall i | 0 <= i < |u|
      ensures u[i] !in a.members && Cached(c.deps, u[i])
    {
      if i < |u1| {
        assert u[i] == u1[i] && Cached(b.deps, u1[i]);
        var r :| r in b.deps && b.deps[r] == u[i];
        assert c.deps[r] == u[i];
      } else {
        assert u[i] == u2[i - |u1|];
      }
    }
    forall i, j | 0 <= i < j < |u| ensures u[i] != u[j] {
      if i < |u1| && j >= |u1| {
        assert u[i] in Tups(u1);
        assert u[j] == u2[j - |u1|];
      } else if i >= |u1| {
        assert u[i] == u2[i - |u1|] && u[j] == u2[j - |u1|];
      }
    }
  }

  lemma AddedOnceTrans(a: Tx, b: Tx, c: Tx, repo: Repo)
    requires Grows(a, b) && Grows(b, c) && AddedOnce(a, b, repo) && AddedOnce(b, c, repo)
    ensures AddedOnce(a, c, repo)
  {
    forall x | x in a.members && x in c.members
      ensures var before := a.members[x].relatedto;
              var after := c.members[x].relatedto;
              forall i :: |before| <= i < |after| ==>
                after[i].1 == "dependson" && after[i].0 in c.members && Linked(after[i].0, x, repo) &&
                forall j :: 0 <= j < |after| && j != i ==> after[j].0 != after[i].0
    {
      var before := a.members[x].relatedto;
      var mid := b.members[x].relatedto;
      var after := c.members[x].relatedto;
      assert mid <= after;
      forall i | |before| <= i < |after|
        ensures after[i].1 == "dependson" && after[i].0 in c.members && Linked(after[i].0, x, repo)
        ensures forall j :: 0 <= j < |after| && j != i ==> after[j].0 != after[i].0
      {
        if i < |mid| {
          assert after[i] == mid[i];
          forall j | 0 <= j < |after| && j != i ensures after[j].0 != after[i].0 {
            if j < |mid| {
              assert after[j] == mid[j];
            }
          }
        }
      }
    }
  }

  lemma PassFactsTrans(a: Tx, b: Tx, c: Tx, u1: seq<PkgTup>, u2: seq<PkgTup>, repo: Repo, ts: set<PkgTup>)
    requires PassFacts(a, b, u1, repo, ts) && PassFacts(b, c, u2, repo, ts)
    ensures PassFacts(a, c, u1 + u2, repo, ts)
  {
    GrowsTrans(a, b, c);
    DepsFromTrans(a, b, c, repo);
    TouchesTrans(a, b, c, ts);
    NewOnesTrans(a, b, c, u1, u2);
    AddedOnceTrans(a, b, c, repo);
  }

  /** Relate adds one relation to the member unless its package is already named. */
  lemma RelateFacts(ms: map<PkgTup, TxMember>, t: PkgTup, dep: PkgTup)
    requires t in ms
    ensures var r := Relate(ms, t, dep);
            r.Keys == ms.Keys && HasRel(r[t].relatedto, dep) &&
            (forall x :: x in ms && x != t ==> r[x] == ms[x]) &&
            r[t].installing == ms[t].installing && ms[t].relatedto <= r[t].relatedto &&
            |r[t].relatedto| <= |ms[t].relatedto| + 1 &&
            (|r[t].relatedto| > |ms[t].relatedto| ==>
               r[t].relatedto[|ms[t].relatedto|] == (dep, "dependson") && !HasRel(ms[t].relatedto, dep))
  {
    if !HasRel(ms[t].relatedto, dep) {
      var rels := ms[t].relatedto + [(dep, "dependson")];
      assert rels[|rels| - 1].0 == dep;
    }
  }

  /** One requirement keeps the pass facts, touching only `t`. */
  lemma ReqStepFacts(s: Tx, t: PkgTup, req: Req, repo: Repo)
    requires t in s.members
    ensures var r := ReqStep(s, t, req, repo); PassFacts(s, r.0, r.1, repo, {t})
  {
    var r := ReqStep(s, t, req, repo);
    if Considered(req, t, repo) {
      var cached := req in s.deps;
      var d := if cached then Some(s.deps[req]) else Provider(req, s.members, repo);
      ProviderChoice(req, s.members, repo);
      var deps := if !cached && d.Some? then s.deps[req := d.value] else s.deps;
      assert DepsFrom(s, Tx(deps, s.members), repo);
      if d.Some? && Linked(d.value, t, repo) {
        var dep := d.value;
        assert deps[req] == dep;
        var ms := if dep in s.members then s.members else s.members[dep := TxMember(true, [])];
        LinkStepFacts(s, Tx(deps, Relate(ms, t, dep)), t, dep, ms, repo);
      } else {
        CacheStepFacts(s, deps, t, repo);
      }
    } else {
      PassFactsRefl(s, repo, {t});
    }
  }

  /** A step that may only add a cache entry. */
  lemma CacheStepFacts(s: Tx, deps: map<Req, PkgTup>, t: PkgTup, repo: Repo)
    requires forall r :: r in s.deps ==> r in deps && deps[r] == s.deps[r]
    requires DepsFrom(s, Tx(deps, s.members), repo)
    ensures PassFacts(s, Tx(deps, s.members), [], repo, {t})
  {
    assert Tups([]) == {};
  }

  /** A step that records `dep` for `t`, adding it to the transaction when it is new. */
  lemma LinkStepFacts(s: Tx, b: Tx, t: PkgTup, dep: PkgTup, ms: map<PkgTup, TxMember>, repo: Repo)
    requires t in s.members && Linked(dep, t, repo)
    requires forall r :: r in s.deps ==> r in b.deps && b.deps[r] == s.deps[r]
    requires DepsFrom(s, b, repo) && Cached(b.deps, dep)
    requires ms == if dep in s.members then s.members else s.members[dep := TxMember(true, [])]
    requires b.members == Relate(ms, t, dep)
    ensures PassFacts(s, b, if dep in s.members then [] else [dep], repo, {t})
  {
    RelateFacts(ms, t, dep);
    assert forall x :: x in s.members && x != t ==> x in b.members && b.members[x] == s.members[x];
    assert b.members.Keys == s.members.Keys + (if dep in s.members then {} else {dep});
    AddedOnceStep(s, b, t, dep, repo);
    GrowsOne(s, b, t);
    if dep !in s.members {
      LinkNewFacts(s, b, t, dep, repo);
    } else {
      LinkOldFacts(s, b, t);
    }
  }

  /** The member-set part of a step whose provider is already in the transaction. */
  lemma LinkOldFacts(s: Tx, b: Tx, t: PkgTup)
    requires b.members.Keys == s.members.Keys
    requires forall x :: x in s.members && x != t ==> b.members[x] == s.members[x]
    ensures NewOnes(s, b, []) && Touches(s, b, {t})
  {
    assert Tups([]) == {};
  }

  /** A step that changes only member `t`, by adding relations at the end, and may add cache entries and members. */
  lemma GrowsOne(s: Tx, b: Tx, t: PkgTup)
    requires forall r :: r in s.deps ==> r in b.deps && b.deps[r] == s.deps[r]
    requires forall x :: x in s.members && x != t ==> x in b.members && b.members[x] == s.members[x]
    requires t in s.members && t in b.members && b.members[t].installing == s.members[t].installing
    requires s.members[t].relatedto <= b.members[t].relatedto
    ensures Grows(s, b)
  {
  }

  /** The member-set part of a step that adds `dep` to the transaction. */
  lemma LinkNewFacts(s: Tx, b: Tx, t: PkgTup, dep: PkgTup, repo: Repo)
    requires t in s.members && dep !in s.members && Cached(b.deps, dep)
    requires b.members.Keys == s.members.Keys + {dep}
    requires b.members[dep] == TxMember(true, [])
    ensures NewOnes(s, b, [dep]) && Touches(s, b, {t})
    requires forall x :: x in s.members && x != t ==> b.members[x] == s.members[x]
  {
    assert Tups([dep]) == {dep};
  }

  lemma AddedOnceStep(s: Tx, b: Tx, t: PkgTup, dep: PkgTup, repo: Repo)
    requires t in s.members && t in b.members && dep in b.members && Linked(dep, t, repo)
    requires forall x :: x in s.members && x != t ==> x in b.members && b.members[x] == s.members[x]
    requires s.members[t].relatedto <= b.members[t].relatedto
    requires |b.members[t].relatedto| <= |s.members[t].relatedto| + 1
    requires |b.members[t].relatedto| > |s.members[t].relatedto| ==>
               b.members[t].relatedto[|s.members[t].relatedto|] == (dep, "dependson") && !HasRel(s.members[t].relatedto, dep)
    ensures AddedOnce(s, b, repo)
  {
    var before := s.members[t].relatedto;
    var after := b.members[t].relatedto;
    if |after| > |before| {
      forall j | 0 <= j < |before| ensures after[j].0 != dep {
        assert after[j] == before[j];
      }
    }
  }

  /** The requirements of one member keep the pass facts. */
  lemma {:induction false} ReqsFoldFacts(s: Tx, t: PkgTup, reqs: seq<Req>, repo: Repo)
    requires t in s.members
    ensures var r := ReqsFold(s, t, reqs, repo); PassFacts(s, r.0, r.1, repo, {t})
    decreases |reqs|
  {
    if reqs == [] {
      PassFactsRefl(s, repo, {t});
    } else {
      var prev := ReqsFold(s, t, reqs[..|reqs| - 1], repo);
      ReqsFoldFacts(s, t, reqs[..|reqs| - 1], repo);
      ReqStepFacts(prev.0, t, reqs[|reqs| - 1], repo);
      var next := ReqStep(prev.0, t, reqs[|reqs| - 1], repo);
      PassFactsTrans(s, prev.0, next.0, prev.1, next.1, repo, {t});
    }
  }

  /** Facts stated for a smaller set of touched members hold for a larger one. */
  lemma TouchesWiden(a: Tx, b: Tx, added: seq<PkgTup>, repo: Repo, ts: set<PkgTup>, us: set<PkgTup>)
    requires PassFacts(a, b, added, repo, ts) && ts <= us
    ensures PassFacts(a, b, added, repo, us)
  {
  }

  /**
   * tsCheck over a list keeps the pass facts: only the listed members gain
   * relations, members added are new, distinct and cached providers, and
   * each relation added names a package once.
   */
  lemma {:induction false} TsFoldFacts(s: Tx, tocheck: seq<PkgTup>, repo: Repo)
    requires forall i :: 0 <= i < |tocheck| ==> tocheck[i] in s.members
    ensures var r := TsFold(s, tocheck, repo); PassFacts(s, r.0, r.1, repo, Tups(tocheck))
    decreases |tocheck|
  {
    if tocheck == [] {
      PassFactsRefl(s, repo, Tups(tocheck));
    } else {
      var n := |tocheck| - 1;
      var t := tocheck[n];
      var prev := TsFold(s, tocheck[..n], repo);
      TsFoldFacts(s, tocheck[..n], repo);
      assert Tups(tocheck[..n]) <= Tups(tocheck) by {
        forall x | x in Tups(tocheck[..n]) ensures x in Tups(tocheck) {
          var i :| 0 <= i < n && tocheck[..n][i] == x;
          assert tocheck[i] == x;
        }
      }
      TouchesWiden(s, prev.0, prev.1, repo, Tups(tocheck[..n]), Tups(tocheck));
      var next := MemberStep(prev.0, t, repo);
      if t.name == "redhat-lsb" || !prev.0.members[t].installing {
        PassFactsRefl(prev.0, repo, Tups(tocheck));
      } else {
        ReqsFoldFacts(prev.0, t, repo.requirements(t), repo);
        TouchesWiden(prev.0, next.0, next.1, repo, {t}, Tups(tocheck));
      }
      PassFactsTrans(s, prev.0, next.0, prev.1, next.1, repo, Tups(tocheck));
    }
  }

  /**
   * After the pass, a requirement of `t` that is looked up is either
   * unresolvable (nothing provides it) or cached, and when its cached
   * provider may be recorded, `t` names it among its relations.
   */
  predicate Settled(b: Tx, t: PkgTup, req: Req, repo: Repo)
    requires t in b.members
  {
    Considered(req, t, repo) ==>
      (req !in b.deps ==> repo.whatProvides(req) == []) &&
      (req in b.deps && Linked(b.deps[req], t, repo) ==> HasRel(b.members[t].relatedto, b.deps[req]))
  }

  lemma ReqStepSettles(s: Tx, t: PkgTup, req: Req, repo: Repo)
    requires t in s.members
    ensures Settled(ReqStep(s, t, req, repo).0, t, req, repo)
  {
    if Considered(req, t, repo) {
      ProviderChoice(req, s.members, repo);
      var cached := req in s.deps;
      var d := if cached then Some(s.deps[req]) else Provider(req, s.members, repo);
      if d.Some? && Linked(d.value, t, repo) {
        var ms := if d.value in s.members then s.members else s.members[d.value := TxMember(true, [])];
        RelateFacts(ms, t, d.value);
      }
    }
  }

  /** Later steps keep a requirement settled: its cache entry stays, and relations only grow. */
  lemma SettledKept(a: Tx, b: Tx, t: PkgTup, req: Req, repo: Repo)
    requires t in a.members && Grows(a, b) && DepsFrom(a, b, repo) && Settled(a, t, req, repo)
    ensures Settled(b, t, req, repo)
  {
    if Considered(req, t, repo) && req in a.deps && Linked(a.deps[req], t, repo) {
      var k :| 0 <= k < |a.members[t].relatedto| && a.members[t].relatedto[k].0 == a.deps[req];
      assert b.members[t].relatedto[k] == a.members[t].relatedto[k];
    }
  }

  /** Every requirement of the list is settled once the member has been checked. */
  lemma {:induction false} ReqsFoldSettles(s: Tx, t: PkgTup, reqs: seq<Req>, repo: Repo)
    requires t in s.members
    ensures forall i :: 0 <= i < |reqs| ==> Settled(ReqsFold(s, t, reqs, repo).0, t, reqs[i], repo)
    decreases |reqs|
  {
    if reqs != [] {
      var n := |reqs| - 1;
      var prev := ReqsFold(s, t, reqs[..n], repo);
      var next := ReqStep(prev.0, t, reqs[n], repo);
      ReqsFoldSettles(s, t, reqs[..n], repo);
      ReqStepSettles(prev.0, t, reqs[n], repo);
      ReqStepFacts(prev.0, t, reqs[n], repo);
      forall i | 0 <= i < n ensures Settled(next.0, t, reqs[i], repo) {
        assert reqs[..n][i] == reqs[i];
        SettledKept(prev.0, next.0, t, reqs[i], repo);
      }
    }
  }

  lemma TsFoldGrows(s: Tx, tocheck: seq<PkgTup>, repo: Repo)
    requires forall i :: 0 <= i < |tocheck| ==> tocheck[i] in s.members
    ensures Grows(s, TsFold(s, tocheck, repo).0) && DepsFrom(s, TsFold(s, tocheck, repo).0, repo)
  {
    TsFoldFacts(s, tocheck, repo);
  }

  lemma MemberStepGrows(s: Tx, t: PkgTup, repo: Repo)
    requires t in s.members
    ensures Grows(s, MemberStep(s, t, repo).0) && DepsFrom(s, MemberStep(s, t, repo).0, repo)
  {
    if t.name != "redhat-lsb" && s.members[t].installing {
      ReqsFoldFacts(s, t, repo.requirements(t), repo);
    } else {
      PassFactsRefl(s, repo, {t});
    }
  }

  /** Every requirement of `t` is settled. */
  predicate MemberSettled(b: Tx, t: PkgTup, repo: Repo)
    requires t in b.members
  {
    forall k :: 0 <= k < |repo.requirements(t)| ==> Settled(b, t, repo.requirements(t)[k], repo)
  }

  lemma MemberSettledKept(a: Tx, b: Tx, t: PkgTup, repo: Repo)
    requires t in a.members && Grows(a, b) && DepsFrom(a, b, repo) && MemberSettled(a, t, repo)
    ensures MemberSettled(b, t, repo)
  {
    forall k | 0 <= k < |repo.requirements(t)| ensures Settled(b, t, repo.requirements(t)[k], repo) {
      SettledKept(a, b, t, repo.requirements(t)[k], repo);
    }
  }

  /** The members tsCheck looks at: in the list, not redhat-lsb, to be installed. */
  predicate Checked(s: Tx, tocheck: seq<PkgTup>, i: int)
    requires forall i :: 0 <= i < |tocheck| ==> tocheck[i] in s.members
  {
    0 <= i < |tocheck| && tocheck[i].name != "redhat-lsb" && s.members[tocheck[i]].installing
  }

  /**
   * tsCheck settles every requirement of every listed member that is to be
   * installed, other than redhat-lsb.
   */
  lemma {:induction false} TsFoldSettles(s: Tx, tocheck: seq<PkgTup>, repo: Repo)
    requires forall i :: 0 <= i < |tocheck| ==> tocheck[i] in s.members
    ensures var b := TsFold(s, tocheck, repo).0;
            forall i :: Checked(s, tocheck, i) ==> MemberSettled(b, tocheck[i], repo)
    decreases |tocheck|
  {
    if tocheck != [] {
      var n := |tocheck| - 1;
      var t := tocheck[n];
      var prev := TsFold(s, tocheck[..n], repo);
      var next := MemberStep(prev.0, t, repo);
      TsFoldSettles(s, tocheck[..n], repo);
      TsFoldGrows(s, tocheck[..n], repo);
      MemberStepGrows(prev.0, t, repo);
      if t.name != "redhat-lsb" && prev.0.members[t].installing {
        ReqsFoldSettles(prev.0, t, repo.requirements(t), repo);
      }
      forall i | Checked(s, tocheck, i) ensures MemberSettled(next.0, tocheck[i], repo) {
        if i < n {
          assert tocheck[..n][i] == tocheck[i];
          assert Checked(s, tocheck[..n], i);
          MemberSettledKept(prev.0, next.0, tocheck[i], repo);
        }
      }
    }
  }

  /** Every package yum can name as a provider lies in `universe`. */
  ghost predicate Closed(repo: Repo, universe: set<PkgTup>) {
    forall r, p :: p in repo.whatProvides(r) ==> p in universe
  }

  /** The elements of a set, each once, in an order the set leaves open. */
  method Enumerate(keys: set<PkgTup>) returns (s: seq<PkgTup>)
    ensures Tups(s) == keys && Distinct(s)
  {
    s := [];
    var rest := keys;
    while rest != {}
      invariant Tups(s) + rest == keys && Tups(s) !! rest && Distinct(s)
      decreases |rest|
    {
      var k :| k in rest;
      TupsSnoc(s, k);
      DistinctSnoc(s, k);
      s := s + [k];
      rest := rest - {k};
    }
  }

  lemma TupsSnoc(s: seq<PkgTup>, k: PkgTup)
    ensures Tups(s + [k]) == Tups(s) + {k}
  {
    forall x | x in Tups(s + [k]) ensures x in Tups(s) + {k} {
      var i :| 0 <= i < |s + [k]| && (s + [k])[i] == x;
      if i < |s| {
        assert s[i] == x;
      }
    }
    forall x | x in Tups(s) ensures x in Tups(s + [k]) {
      var i :| 0 <= i < |s| && s[i] == x;
      assert (s + [k])[i] == x;
    }
  }

  lemma DistinctSnoc(s: seq<PkgTup>, k: PkgTup)
    requires Distinct(s) && k !in Tups(s)
    ensures Distinct(s + [k])
  {
    forall i | 0 <= i < |s| ensures s[i] != k {
      assert s[i] in Tups(s);
    }
  }

  lemma DistinctCard(s: seq<PkgTup>)
    requires Distinct(s)
    ensures |Tups(s)| == |s|
  {
    if s != [] {
      var n := |s| - 1;
      DistinctCard(s[..n]);
      assert Tups(s) == Tups(s[..n]) + {s[n]};
      assert s[n] !in Tups(s[..n]);
    }
  }

  class YumSorter {
    var deps: map<Req, PkgTup>
    var members: map<PkgTup, TxMember>
    var path: seq<PkgTup>
    var loops: seq<PkgTup>
    const repo: Repo

    constructor(members: map<PkgTup, TxMember>, repo: Repo)
      ensures this.members == members && this.repo == repo
      ensures deps == map[] && path == [] && loops == []
    {
      this.members := members;
      this.repo := repo;
      deps := map[];
      path := [];
      loops := [];
    }

    function State(): Tx
      reads this
    {
      Tx(deps, members)
    }

    /** _provideToPkg: the provider, cached when there is one. */
    method ProvideToPkg(req: Req) returns (r: Option<PkgTup>)
      modifies this`deps
      ensures r == Provider(req, members, repo)
      ensures deps == if r.Some? then old(deps)[req := r.value] else old(deps)
    {
      var list := repo.whatProvides(req);
      var satisfiers: seq<PkgTup> := [];
      var i := 0;
      while i < |list|
        invariant i <= |list|
        invariant satisfiers == list[..i]
        invariant forall j :: 0 <= j < i ==> list[j] !in members
      {
        var po := list[i];
        if po in members {
          deps := deps[req := po];
          FirstMemberAt(list, members, i);
          return Some(po);
        }
        satisfiers := satisfiers + [po];
        i := i + 1;
      }
      assert satisfiers == list;
      if satisfiers != [] {
        var best := satisfiers[repo.best(satisfiers) % |satisfiers|];
        deps := deps[req := best];
        return Some(best);
      }
      return None;
    }

    /** The loop over a member's relations: is the package already related? */
    static method FindRelation(rels: seq<(PkgTup, string)>, tup: PkgTup) returns (found: bool)
      ensures found <==> HasRel(rels, tup)
    {
      var k := 0;
      while k < |rels|
        invariant k <= |rels|
        invariant forall j :: 0 <= j < k ==> rels[j].0 != tup
      {
        if rels[k].0 == tup {
          return true;
        }
        k := k + 1;
      }
      return false;
    }

    /** One requirement of member `t` in tsCheck. */
    method CheckReq(t: PkgTup, req: Req) returns (added: seq<PkgTup>)
      requires t in members
      modifies this
      ensures (State(), added) == ReqStep(old(State()), t, req, repo)
    {
      if StartsWith(req.name, "rpmlib(") || StartsWith(req.name, "config(") || req in repo.provisions(t) {
        return [];
      }
      var dep: PkgTup;
      if req in deps {
        dep := deps[req];
      } else {
        var p := ProvideToPkg(req);
        if p.None? {
          // unresolvable: only logged
          return [];
        }
        dep := p.value;
      }
      if t.name == dep.name || (dep.name, t.name) in repo.whiteout {
        return [];
      }
      added := [];
      if dep !in members {
        members := members[dep := TxMember(true, [])];
        added := [dep];
      }
      var found := FindRelation(members[t].relatedto, dep);
      if !found {
        members := members[t := members[t].(relatedto := members[t].relatedto + [(dep, "dependson")])];
      }
    }

    /** One member of tsCheck: its requirements one by one. */
    method CheckMember(t: PkgTup) returns (added: seq<PkgTup>)
      requires t in members
      modifies this
      ensures (State(), added) == MemberStep(old(State()), t, repo)
    {
      if t.name == "redhat-lsb" || !members[t].installing {
        return [];
      }
      var reqs := repo.requirements(t);
      added := [];
      var i := 0;
      while i < |reqs|
        invariant i <= |reqs| && t in members
        invariant (State(), added) == ReqsFold(old(State()), t, reqs[..i], repo)
      {
        assert reqs[..i + 1][..i] == reqs[..i];
        var more := CheckReq(t, reqs[i]);
        added := added + more;
        i := i + 1;
      }
      assert reqs[..i] == reqs;
    }

    /** tsCheck: the members it added to the transaction, to be checked next. */
    method TsCheck(tocheck: seq<PkgTup>) returns (unresolved: seq<PkgTup>)
      requires forall i :: 0 <= i < |tocheck| ==> tocheck[i] in members
      modifies this
      ensures (State(), unresolved) == TsFold(old(State()), tocheck, repo)
    {
      unresolved := [];
      var i := 0;
      while i < |tocheck|
        invariant i <= |tocheck|
        invariant (State(), unresolved) == TsFold(old(State()), tocheck[..i], repo)
        invariant old(members).Keys <= members.Keys
      {
        assert tocheck[..i + 1][..i] == tocheck[..i];
        var more := CheckMember(tocheck[i]);
        unresolved := unresolved + more;
        i := i + 1;
      }
      assert tocheck[..i] == tocheck;
    }

    /** tsInfo.getMembers(): every member once, in whatever order the dictionary gives. */
    method AllMembers() returns (s: seq<PkgTup>)
      ensures Tups(s) == members.Keys && Distinct(s)
    {
      s := Enumerate(members.Keys);
    }

    /** The while loop of resolveDeps: tsCheck on the members to check until a round adds none. */
    method Rounds(tocheck: seq<PkgTup>, ghost universe: set<PkgTup>)
      requires RoundsInv(State(), State(), tocheck, repo, universe)
      modifies this
      ensures RoundsInv(old(State()), State(), [], repo, universe)
    {
      ghost var start := State();
      var unresolved := tocheck;
      while |unresolved| > 0
        invariant RoundsInv(start, State(), unresolved, repo, universe)
        decreases |universe - members.Keys| + |unresolved|
      {
        ghost var before := State();
        ghost var current := unresolved;
        TsFoldFacts(before, unresolved, repo);
        unresolved := TsCheck(unresolved);
        Round(start, before, State(), current, unresolved, repo, universe);
      }
    }

    /**
     * resolveDeps: tsCheck rounds until one adds nothing; the cache, loops
     * and path are then cleared. The rounds end because every member added
     * is a provider yum names, and there are finitely many.
     */
    method ResolveDeps(ghost universe: set<PkgTup>) returns (rc: int, msgs: seq<string>)
      requires Closed(repo, universe)
      requires forall r :: r in deps ==> deps[r] in universe
      modifies this
      ensures rc == 2 && msgs == ["Success - deps resolved"]
      ensures deps == map[] && loops == [] && path == []
      ensures old(members).Keys <= members.Keys <= old(members).Keys + universe
      ensures forall x :: x in old(members) ==> members[x].installing == old(members)[x].installing &&
                                                 old(members)[x].relatedto <= members[x].relatedto
      ensures AddedOnce(old(State()), State(), repo)
    {
      ghost var start := State();
      var unresolved := AllMembers();
      RoundsStart(start, unresolved, repo, universe);
      Rounds(unresolved, universe);
      ghost var last := State();
      deps := map[];
      loops := [];
      path := [];
      rc, msgs := 2, ["Success - deps resolved"];
      Resolved(start, last, State(), [], repo, universe);
    }
  }

  /** Before the first round: all members are to be checked. */
  lemma RoundsStart(start: Tx, unresolved: seq<PkgTup>, repo: Repo, universe: set<PkgTup>)
    requires Closed(repo, universe) && forall r :: r in start.deps ==> start.deps[r] in universe
    requires Tups(unresolved) == start.members.Keys && Distinct(unresolved)
    ensures RoundsInv(start, start, unresolved, repo, universe)
  {
    forall i | 0 <= i < |unresolved| ensures unresolved[i] in start.members {
      assert unresolved[i] in Tups(unresolved);
    }
  }

  /** The rounds' invariant, read back once the cache is cleared. */
  lemma Resolved(start: Tx, last: Tx, final: Tx, unresolved: seq<PkgTup>, repo: Repo, universe: set<PkgTup>)
    requires RoundsInv(start, last, unresolved, repo, universe) && final.members == last.members
    ensures start.members.Keys <= final.members.Keys <= start.members.Keys + universe
    ensures forall x :: x in start.members ==> final.members[x].installing == start.members[x].installing &&
                                               start.members[x].relatedto <= final.members[x].relatedto
    ensures AddedOnce(start, final, repo)
  {
  }

  lemma FirstMemberAt(list: seq<PkgTup>, members: map<PkgTup, TxMember>, i: nat)
    requires i < |list| && list[i] in members && forall j :: 0 <= j < i ==> list[j] !in members
    ensures FirstMember(list, members) == Some(i)
  {
    var f := FirstMember(list, members);
    if f.None? || f.value != i {
      assert false;
    }
  }

  /** What holds between the rounds of resolveDeps. */
  ghost predicate RoundsInv(start: Tx, s: Tx, unresolved: seq<PkgTup>, repo: Repo, universe: set<PkgTup>) {
    Closed(repo, universe) && (forall r :: r in s.deps ==> s.deps[r] in universe) &&
    start.members.Keys <= s.members.Keys <= start.members.Keys + universe &&
    Grows(start, s) && AddedOnce(start, s, repo) &&
    Distinct(unresolved) && (forall i :: 0 <= i < |unresolved| ==> unresolved[i] in s.members)
  }

  /** After a round the invariant holds of the members it added, and the rounds' measure has dropped. */
  lemma Round(start: Tx, before: Tx, after: Tx, tocheck: seq<PkgTup>, added: seq<PkgTup>, repo: Repo, universe: set<PkgTup>)
    requires RoundsInv(start, before, tocheck, repo, universe) && |tocheck| > 0
    requires PassFacts(before, after, added, repo, Tups(tocheck))
    ensures RoundsInv(start, after, added, repo, universe)
    ensures |universe - after.members.Keys| + |added| < |universe - before.members.Keys| + |tocheck|
  {
    RoundDeps(before, after, repo, universe);
    RoundAdded(after, added, universe);
    GrowsTrans(start, before, after);
    AddedOnceTrans(start, before, after, repo);
    DistinctCard(added);
    RoundShrinks(universe, before.members.Keys, after.members.Keys, Tups(added));
  }

  lemma RoundDeps(before: Tx, after: Tx, repo: Repo, universe: set<PkgTup>)
    requires Closed(repo, universe) && forall r :: r in before.deps ==> before.deps[r] in universe
    requires forall r :: r in before.deps ==> r in after.deps && after.deps[r] == before.deps[r]
    requires DepsFrom(before, after, repo)
    ensures forall r :: r in after.deps ==> after.deps[r] in universe
  {
  }

  lemma RoundAdded(after: Tx, added: seq<PkgTup>, universe: set<PkgTup>)
    requires forall r :: r in after.deps ==> after.deps[r] in universe
    requires forall i :: 0 <= i < |added| ==> Cached(after.deps, added[i])
    ensures Tups(added) <= universe
  {
    forall x | x in Tups(added) ensures x in universe {
      var i :| 0 <= i < |added| && added[i] == x;
      assert Cached(after.deps, added[i]);
      var r :| r in after.deps && after.deps[r] == x;
    }
  }

  /** Adding new members from the universe shrinks what is left of it by their number. */
  lemma RoundShrinks(universe: set<PkgTup>, k1: set<PkgTup>, k2: set<PkgTup>, added: set<PkgTup>)
    requires k2 == k1 + added && added <= universe && added !! k1
    ensures |universe - k1| == |universe - k2| + |added|
  {
    assert universe - k1 == (universe - k2) + added;
    assert (universe - k2) !! added;
  }
}
