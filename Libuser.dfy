/**
 * The account database the installer edits through libuser: users and
 * groups by name. Only what the user-creation code sets is kept. A GID is
 * kept as the name of the group that owns it, and an automatically
 * assigned number is None.
 */
module Libuser {
  import opened Wrappers

  /**
   * A user entry. `madeHome` is the directory libuser's addUser created,
   * `home` the HOMEDIRECTORY field stored, `gids` the names of the user's
   * groups, the private one first, `password` the crypted value given to
   * setpassUser.
   */
  datatype Account = Account(
    home: string, madeHome: string, shell: Option<string>, uid: Option<int>,
    gecos: Option<string>, gids: seq<string>, password: Option<string>, locked: bool)

  datatype Group = Group(gid: Option<int>, members: set<string>)

  /** The passwd and group files of the system being installed. */
  class Accounts {
    var users: map<string, Account>
    var groups: map<string, Group>

    constructor(users: map<string, Account>, groups: map<string, Group>)
      ensures this.users == users && this.groups == groups
    {
      this.users := users;
      this.groups := groups;
    }
  }

  /** The groups named in `names` gain `user` as a member; the others are kept. */
  function WithMember(groups: map<string, Group>, names: set<string>, user: string): (r: map<string, Group>)
    ensures r.Keys == groups.Keys
    ensures forall g :: g in groups ==> r[g].gid == groups[g].gid
    ensures forall g :: g in groups ==> r[g].members == if g in names then groups[g].members + {user} else groups[g].members
  {
    map g | g in groups :: if g in names then groups[g].(members := groups[g].members + {user}) else groups[g]
  }

  /** The names of `wanted` that are groups, in order, repeats kept: the filter over lookupGroupByName. */
  function Existing(wanted: seq<string>, groups: map<string, Group>): (r: seq<string>)
    ensures forall g :: g in r <==> g in wanted && g in groups
    ensures |r| <= |wanted|
  {
    if wanted == [] then []
    else (if wanted[0] in groups then [wanted[0]] else []) + Existing(wanted[1..], groups)
  }

  function Elements(s: seq<string>): set<string> {
    set g | g in s
  }

  /** Adding a member to the groups of a list one at a time adds it to the list's groups. */
  lemma WithMemberStep(groups: map<string, Group>, names: set<string>, g: string, user: string)
    requires g in groups
    ensures WithMember(WithMember(groups, names, user), {g}, user) == WithMember(groups, names + {g}, user)
  {
    var a := WithMember(WithMember(groups, names, user), {g}, user);
    var b := WithMember(groups, names + {g}, user);
    assert a.Keys == b.Keys;
    forall h | h in a ensures a[h] == b[h] {
      if h == g {
        assert a[h].members == groups[h].members + {user};
      }
    }
  }
}
