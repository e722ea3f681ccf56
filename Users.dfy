/**
 * Root password and user accounts (pyanaconda/users.py): the salt that
 * cryptPassword builds, the algorithm read from the authconfig string,
 * account and group creation in the installed system's database, setting
 * the root password, and the kickstart `rootpw` line. `random.choice`
 * is the draw function `pick` (draw i takes character pick(i) % 64),
 * `crypt.crypt` the function `crypt`. The forked child and chroot are
 * not modelled: the child's edits are made to the database directly and
 * its exit status is the boolean returned.
 */
module Users {
  import opened Wrappers
  import opened Strings
  import opened Libuser

  /** Character k of string.letters (C locale) + string.digits + './', the 64 salt characters. */
  function SaltAlphabet(k: nat): (c: char)
    requires k < 64
  {
    if k < 26 then ('a' as int + k) as char
    else if k < 52 then ('A' as int + k - 26) as char
    else if k < 62 then ('0' as int + k - 52) as char
    else if k == 62 then '.'
    else '/'
  }

  predicate IsSaltChar(c: char) {
    IsAlnum(c) || c == '.' || c == '/'
  }

  /** KeyError: an algorithm with no salt prefix; NoSuchUser: a password set for a user that does not exist. */
  datatype UsersError = KeyError(algo: string) | NoSuchUser(name: string)

  /** The crypt salt prefixes: `$1$` MD5, `$5$` SHA-256, `$6$` SHA-512. */
  function SaltPrefix(algo: string): Option<string> {
    if algo == "md5" then Some("$1$")
    else if algo == "sha256" then Some("$5$")
    else if algo == "sha512" then Some("$6$")
    else None
  }

  /** The first n draws, as salt characters. */
  function Drawn(n: nat, pick: nat -> nat): (r: string)
    ensures |r| == n
  {
    if n == 0 then [] else Drawn(n - 1, pick) + [SaltAlphabet(pick(n - 1) % 64)]
  }

  /** Every drawn character is a letter, a digit, `.` or `/`. */
  lemma {:induction false} DrawnChars(n: nat, pick: nat -> nat)
    ensures forall i :: 0 <= i < n ==> IsSaltChar(Drawn(n, pick)[i])
  {
    if n > 0 {
      DrawnChars(n - 1, pick);
      AlphabetChars(pick(n - 1) % 64);
    }
  }

  lemma AlphabetChars(k: nat)
    requires k < 64
    ensures IsSaltChar(SaltAlphabet(k))
  {
  }

  /** The salt cryptPassword uses: the algorithm's prefix and 16 drawn characters; sha512 when no algorithm is given. */
  function SaltFor(algo: Option<string>, pick: nat -> nat): Result<string, UsersError> {
    var a := algo.GetOr("sha512");
    match SaltPrefix(a)
    case None => Err(KeyError(a))
    case Some(p) => Ok(p + Drawn(16, pick))
  }

  function Crypted(password: string, algo: Option<string>, pick: nat -> nat, crypt: (string, string) -> string): Result<string, UsersError> {
    match SaltFor(algo, pick)
    case Err(e) => Err(e)
    case Ok(salt) => Ok(crypt(password, salt))
  }

  /** The salt has 19 characters: `$`, the algorithm's digit, `$`, and 16 from the salt alphabet; only md5, sha256 and sha512 have one. */
  lemma SaltShape(algo: Option<string>, pick: nat -> nat)
    ensures var a := algo.GetOr("sha512"); SaltFor(algo, pick).Ok? <==> a == "md5" || a == "sha256" || a == "sha512"
    ensures SaltFor(algo, pick).Ok? ==>
              var s := SaltFor(algo, pick).value;
              |s| == 19 && s[0] == '$' && s[2] == '$' && (forall i :: 3 <= i < 19 ==> IsSaltChar(s[i]))
    ensures algo.None? ==> SaltFor(algo, pick).value[..3] == "$6$"
  {
    DrawnChars(16, pick);
  }

  /** cryptPassword: the salt built by a loop of random draws, then crypt. */
  method CryptPassword(password: string, algo: Option<string>, pick: nat -> nat, crypt: (string, string) -> string)
    returns (r: Result<string, UsersError>)
    ensures r == Crypted(password, algo, pick, crypt)
  {
    var a := if algo.None? then "sha512" else algo.value;
    var saltlen := 2;
    if a == "md5" || a == "sha256" || a == "sha512" {
      saltlen := 16;
    }
    var prefix := SaltPrefix(a);
    if prefix.None? {
      return Err(KeyError(a));
    }
    var saltstr := prefix.value;
    var i := 0;
    while i < saltlen
      invariant i <= saltlen == 16
      invariant saltstr == prefix.value + Drawn(i, pick)
    {
      saltstr := saltstr + [SaltAlphabet(pick(i) % 64)];
      i := i + 1;
    }
    return Ok(crypt(password, saltstr));
  }

  /** getPassAlgo: md5 first, then sha256, then sha512, read from the authconfig arguments. */
  function GetPassAlgo(auth: string): (r: Option<string>)
    ensures r.None? || SaltPrefix(r.value).Some?
  {
    if Find(auth, "--enablemd5").Some? || Find(auth, "--passalgo=md5").Some? then Some("md5")
    else if Find(auth, "--passalgo=sha256").Some? then Some("sha256")
    else if Find(auth, "--passalgo=sha512").Some? then Some("sha512")
    else None
  }

  /** md5 is chosen exactly when either md5 option appears; sha256 only when neither does; no algorithm when no option appears. */
  lemma PassAlgoPrecedence(auth: string)
    ensures GetPassAlgo(auth) == Some("md5") <==> Contains(auth, "--enablemd5") || Contains(auth, "--passalgo=md5")
    ensures GetPassAlgo(auth) == Some("sha256") <==>
              !Contains(auth, "--enablemd5") && !Contains(auth, "--passalgo=md5") && Contains(auth, "--passalgo=sha256")
    ensures GetPassAlgo(auth).None? <==>
              !Contains(auth, "--enablemd5") && !Contains(auth, "--passalgo=md5") &&
              !Contains(auth, "--passalgo=sha256") && !Contains(auth, "--passalgo=sha512")
  {
  }

  /** The algorithm getPassAlgo reads always has a salt, so cryptPassword never raises KeyError for it. */
  lemma PassAlgoCrypts(auth: string, pick: nat -> nat)
    ensures SaltFor(GetPassAlgo(auth), pick).Ok?
  {
    var r := GetPassAlgo(auth);
    if r.Some? {
      assert SaltPrefix(r.value).Some?;
    }
  }

  /** The text of libuser.conf for an install root and a crypt style. */
  function LuserConf(instPath: string, algoname: string): (r: string)
  {
    "\n[defaults]\nskeleton = " + instPath + "/etc/skel\nmailspooldir = " + instPath +
    "/var/mail\ncrypt_style = " + algoname + "\nmodules = files shadow\ncreate_modules = files shadow\n[files]\ndirectory = " +
    instPath + "/etc\n[shadow]\ndirectory = " + instPath + "/etc\n"
  }

  /** `%s` of an optional string: Python prints None as "None". */
  function PyStr(o: Option<string>): string {
    match o
    case None => "None"
    case Some(s) => s
  }

  /** The crypt style write puts in libuser.conf as written: getPassAlgo's value, None included. */
  function CryptStyleAsWritten(auth: string): string {
    PyStr(GetPassAlgo(auth))
  }

  /** The crypt style with createLuserConf's own default when getPassAlgo finds none. */
  function CryptStyle(auth: string): string {
    GetPassAlgo(auth).GetOr("sha512")
  }

  /** With no algorithm option, libuser.conf says `crypt_style = None` while the root password gets a `$6$` (sha512) salt. */
  lemma CryptStyleMismatchAsWritten(pick: nat -> nat)
    ensures CryptStyleAsWritten("") == "None"
    ensures SaltPrefix(CryptStyleAsWritten("")).None?
    ensures SaltFor(GetPassAlgo(""), pick).value[..3] == "$6$"
  {
    assert !Contains("", "--enablemd5") && !Contains("", "--passalgo=md5");
    assert !Contains("", "--passalgo=sha256") && !Contains("", "--passalgo=sha512");
    SaltShape(None, pick);
  }

  /** The corrected style names exactly the algorithm whose prefix the root password's salt carries. */
  lemma CryptStyleMatchesSalt(auth: string, pick: nat -> nat)
    ensures SaltPrefix(CryptStyle(auth)).Some?
    ensures SaltFor(GetPassAlgo(auth), pick) == Ok(SaltPrefix(CryptStyle(auth)).value + Drawn(16, pick))
  {
    PassAlgoCrypts(auth, pick);
  }

  /** The kickstart user data createUser reads; an empty string is an option not given. */
  datatype UserData = UserData(
    name: string, groups: seq<string>, homedir: string, shell: string, uid: Option<int>,
    gecos: string, password: string, isCrypted: bool, lock: bool, algo: Option<string>)

  datatype GroupData = GroupData(name: string, gid: Option<int>)

  /** What setpassUser is given for a new user: nothing without a password, the password when crypted, else its crypt. */
  function StoredPassword(u: UserData, pick: nat -> nat, crypt: (string, string) -> string): Result<Option<string>, UsersError> {
    if |u.password| == 0 then Ok(None)
    else if u.isCrypted then Ok(Some(u.password))
    else match Crypted(u.password, u.algo, pick, crypt)
      case Err(e) => Err(e)
      case Ok(c) => Ok(Some(c))
  }

  /** The home directory: the one given, else /home/<name>. */
  function HomeOf(u: UserData): string {
    if |u.homedir| > 0 then u.homedir else "/home/" + u.name
  }

  /**
   * The entry createUser fills in before adding it: the home directory,
   * the shell, gecos when given, the UID only when one >= 0 is given, and
   * the private group then the groups asked for that exist.
   */
  function NewAccount(u: UserData, groups: map<string, Group>): Account {
    Account(HomeOf(u), HomeOf(u),
            if |u.shell| > 0 then Some(u.shell) else None,
            if u.uid.Some? && u.uid.value >= 0 then u.uid else None,
            if |u.gecos| > 0 then Some(u.gecos) else None,
            [u.name] + Existing(u.groups, groups), None, false)
  }

  /** The home directory defaults to /home/<name>; the UID is set exactly when one >= 0 is given; the private group comes first, and only existing groups follow. */
  lemma NewAccountFields(u: UserData, groups: map<string, Group>)
    ensures var a := NewAccount(u, groups);
            (|u.homedir| == 0 ==> a.home == "/home/" + u.name) &&
            (a.uid.Some? <==> u.uid.Some? && u.uid.value >= 0) &&
            a.gids[0] == u.name && forall g :: g in a.gids[1..] ==> g in groups && g in u.groups
  {
    var a := NewAccount(u, groups);
    assert a.gids[1..] == Existing(u.groups, groups);
  }

  /** The root password as the installer keeps it. */
  datatype RootPassword = RootPassword(isCrypted: bool, password: string, lock: bool)

  /** The kickstart line: always `--iscrypted`, then `--lock` when locked. */
  function RootpwLine(value: string, lock: bool): string {
    "rootpw " + RootpwArgs(value, lock) + "\n"
  }

  function RootpwArgs(value: string, lock: bool): string {
    " --iscrypted " + value + (if lock then " --lock" else "")
  }

  /** The line names the password as crypted, and ends with `--lock` exactly when locked (for a value that does not itself end so). */
  lemma RootpwLineShape(value: string, lock: bool)
    ensures StartsWith(RootpwLine(value, lock), "rootpw  --iscrypted " + value)
    ensures lock ==> EndsWith(RootpwLine(value, lock), " --lock\n")
    ensures !lock ==> EndsWith(RootpwLine(value, lock), value + "\n")
  {
    var line := RootpwLine(value, lock);
    var head := "rootpw  --iscrypted " + value;
    if lock {
      assert line == head + " --lock\n";
    } else {
      assert line == "rootpw  --iscrypted " + (value + "\n");
    }
  }

  class Users {
    var rootPassword: RootPassword
    const db: Accounts

    /** The root password starts out not crypted, empty and not locked. */
    constructor(db: Accounts)
      ensures this.db == db && rootPassword == RootPassword(false, "", false)
    {
      this.db := db;
      rootPassword := RootPassword(false, "", false);
    }

    /** createGroup: false when the group exists; else the group is added, with its GID when one >= 0 is given. */
    method CreateGroup(name: string, gid: Option<int>) returns (ok: bool)
      modifies db
      ensures ok <==> name !in old(db.groups)
      ensures db.users == old(db.users)
      ensures !ok ==> db.groups == old(db.groups)
      ensures ok ==> db.groups == old(db.groups)[name := Group(if gid.Some? && gid.value >= 0 then gid else None, {})]
    {
      if name in db.groups {
        return false;
      }
      var g := Group(None, {});
      if gid.Some? && gid.value >= 0 {
        g := g.(gid := gid);
      }
      db.groups := db.groups[name := g];
      return true;
    }

    /**
     * createUser: false when the user exists. Otherwise the account is
     * added, then its private group (which fails when a group of that name
     * exists), then the password (which fails when crypt has no salt for
     * the algorithm) and the lock; last the user joins the groups asked
     * for that exist, and its private group. A failure after addUser
     * leaves what was done so far.
     */
    method CreateUser(u: UserData, pick: nat -> nat, crypt: (string, string) -> string) returns (ok: bool)
      modifies db
      ensures u.name in old(db.users) ==> !ok && db.users == old(db.users) && db.groups == old(db.groups)
      ensures ok <==> u.name !in old(db.users) && u.name !in old(db.groups) && StoredPassword(u, pick, crypt).Ok?
      ensures u.name !in old(db.users) ==>
                var stored := StoredPassword(u, pick, crypt);
                var pw := if u.name !in old(db.groups) && stored.Ok? then stored.value else None;
                db.users == old(db.users)[u.name := NewAccount(u, old(db.groups)).(password := pw, locked := ok && u.lock)]
      ensures u.name !in old(db.users) && u.name in old(db.groups) ==> db.groups == old(db.groups)
      ensures u.name !in old(db.users) && u.name !in old(db.groups) ==>
                var own := old(db.groups)[u.name := Group(None, {})];
                db.groups == if ok then WithMember(own, Elements(Existing(u.groups, old(db.groups)) + [u.name]), u.name)
                             else own
    {
      if u.name in db.users {
        return false;
      }
      var grpLst := Existing(u.groups, db.groups);
      var ent := BuildEntry(u, grpLst);
      // addUser; the password and the lock below are written to the same entry
      if u.name in db.groups {
        db.users := db.users[u.name := ent];
        return false;
      }
      var own := db.groups[u.name := Group(None, {})];
      db.groups := own;
      var stored := PasswordToSet(u, pick, crypt);
      if stored.Err? {
        db.users := db.users[u.name := ent];
        return false;
      }
      ent := ent.(password := stored.value);
      if u.lock {
        ent := ent.(locked := true);
      }
      db.users := db.users[u.name := ent];
      JoinGroups(grpLst + [u.name], u.name);
      return true;
    }

    /** The entry's fields, set one after another. */
    static method BuildEntry(u: UserData, grpLst: seq<string>) returns (ent: Account)
      ensures ent == Account(HomeOf(u), HomeOf(u),
                             if |u.shell| > 0 then Some(u.shell) else None,
                             if u.uid.Some? && u.uid.value >= 0 then u.uid else None,
                             if |u.gecos| > 0 then Some(u.gecos) else None,
                             [u.name] + grpLst, None, false)
    {
      ent := Account("", "", None, None, None, [u.name] + grpLst, None, false);
      if |u.homedir| > 0 {
        ent := ent.(home := u.homedir);
      } else {
        ent := ent.(home := "/home/" + u.name);
      }
      if |u.shell| > 0 {
        ent := ent.(shell := Some(u.shell));
      }
      if u.uid.Some? && u.uid.value >= 0 {
        ent := ent.(uid := u.uid);
      }
      if |u.gecos| > 0 {
        ent := ent.(gecos := Some(u.gecos));
      }
      ent := ent.(madeHome := ent.home);
    }

    /** The value createUser gives setpassUser, or the KeyError cryptPassword raises. */
    static method PasswordToSet(u: UserData, pick: nat -> nat, crypt: (string, string) -> string)
      returns (r: Result<Option<string>, UsersError>)
      ensures r == StoredPassword(u, pick, crypt)
    {
      if |u.password| == 0 {
        return Ok(None);
      }
      if u.isCrypted {
        return Ok(Some(u.password));
      }
      var c := CryptPassword(u.password, u.algo, pick, crypt);
      if c.Err? {
        return Err(c.error);
      }
      return Ok(Some(c.value));
    }

    /** The loop adding the user as a member of each group of the list, in turn. */
    method JoinGroups(members: seq<string>, user: string)
      requires forall g :: g in members ==> g in db.groups
      modifies db
      ensures db.users == old(db.users)
      ensures db.groups == WithMember(old(db.groups), Elements(members), user)
    {
      ghost var own := db.groups;
      var i := 0;
      while i < |members|
        invariant i <= |members|
        invariant db.users == old(db.users)
        invariant db.groups == WithMember(own, Elements(members[..i]), user)
      {
        WithMemberStep(own, Elements(members[..i]), members[i], user);
        assert Elements(members[..i + 1]) == Elements(members[..i]) + {members[i]} by {
          assert members[..i + 1] == members[..i] + [members[i]];
        }
        db.groups := WithMember(db.groups, {members[i]}, user);
        i := i + 1;
      }
      assert members[..i] == members;
    }

    /** checkUserExists. */
    method CheckUserExists(name: string) returns (r: bool)
      ensures r <==> name in db.users
    {
      r := name in db.users;
    }

    /**
     * setUserPassword: the crypted value is computed first (KeyError),
     * then the user is looked up (a missing user makes setpassUser fail);
     * the password is set, and the account locked when asked. Unlocking
     * is never done.
     */
    method SetUserPassword(username: string, password: string, isCrypted: bool, lock: bool, algo: Option<string>,
                           pick: nat -> nat, crypt: (string, string) -> string)
      returns (err: Option<UsersError>)
      modifies db
      ensures db.groups == old(db.groups)
      ensures !isCrypted && Crypted(password, algo, pick, crypt).Err? ==>
                err == Some(Crypted(password, algo, pick, crypt).error) && db.users == old(db.users)
      ensures (isCrypted || Crypted(password, algo, pick, crypt).Ok?) && username !in old(db.users) ==>
                err == Some(NoSuchUser(username)) && db.users == old(db.users)
      ensures err.None? <==> (isCrypted || Crypted(password, algo, pick, crypt).Ok?) && username in old(db.users)
      ensures err.None? ==>
                var value := if isCrypted then password else Crypted(password, algo, pick, crypt).value;
                var a := old(db.users)[username];
                db.users == old(db.users)[username := a.(password := Some(value), locked := a.locked || lock)]
    {
      var value: string;
      if isCrypted {
        value := password;
      } else {
        var c := CryptPassword(password, algo, pick, crypt);
        if c.Err? {
          return Some(c.error);
        }
        value := c.value;
      }
      if username !in db.users {
        return Some(NoSuchUser(username));
      }
      var user := db.users[username];
      user := user.(password := Some(value));
      db.users := db.users[username := user];
      if lock {
        user := user.(locked := true);
        db.users := db.users[username := user];
      }
      return None;
    }

    /** setRootPassword: setUserPassword for root with the stored root password. */
    method SetRootPassword(algo: Option<string>, pick: nat -> nat, crypt: (string, string) -> string)
      returns (err: Option<UsersError>)
      modifies db
      ensures db.groups == old(db.groups)
      ensures err.None? <==> (rootPassword.isCrypted || Crypted(rootPassword.password, algo, pick, crypt).Ok?) && "root" in old(db.users)
      ensures err.None? ==>
                var value := if rootPassword.isCrypted then rootPassword.password
                             else Crypted(rootPassword.password, algo, pick, crypt).value;
                var a := old(db.users)["root"];
                db.users == old(db.users)["root" := a.(password := Some(value), locked := a.locked || rootPassword.lock)]
      ensures err.Some? ==> db.users == old(db.users)
      ensures err.Some? && (rootPassword.isCrypted || Crypted(rootPassword.password, algo, pick, crypt).Ok?) ==>
                err == Some(NoSuchUser("root"))
    {
      err := SetUserPassword("root", rootPassword.password, rootPassword.isCrypted, rootPassword.lock, algo, pick, crypt);
    }

    /**
     * write: libuser.conf (returned as text, with the corrected crypt
     * style: see CryptStyleMismatchAsWritten), the root password with the
     * algorithm getPassAlgo reads, then every kickstart group and user;
     * the names that could not be created are returned in order. An
     * error setting the root password is raised before any is created.
     */
    method Write(instPath: string, auth: string, groupList: seq<GroupData>, userList: seq<UserData>,
                 pick: nat -> nat, crypt: (string, string) -> string)
      returns (conf: string, r: Result<(seq<string>, seq<string>), UsersError>)
      modifies db
      ensures conf == LuserConf(instPath, CryptStyle(auth))
      ensures r.Err? <==> "root" !in old(db.users)
      ensures r.Err? ==> r.error == NoSuchUser("root") && db.users == old(db.users) && db.groups == old(db.groups)
      ensures old(db.users).Keys <= db.users.Keys && old(db.groups).Keys <= db.groups.Keys
      ensures r.Ok? ==> forall j :: 0 <= j < |groupList| && groupList[j].name in old(db.groups) ==> groupList[j].name in r.value.0
      ensures r.Ok? ==> forall j :: 0 <= j < |userList| && userList[j].name in old(db.users) ==> userList[j].name in r.value.1
    {
      var algo := GetPassAlgo(auth);
      conf := LuserConf(instPath, algo.GetOr("sha512"));
      PassAlgoCrypts(auth, pick);
      var err := SetRootPassword(algo, pick, crypt);
      if err.Some? {
        return conf, Err(err.value);
      }
      var failedGroups := CreateGroups(groupList);
      var failedUsers := CreateUsers(userList, algo, pick, crypt);
      return conf, Ok((failedGroups, failedUsers));
    }

    /** The loop over the kickstart groups; the names that already existed are returned in order. */
    method CreateGroups(groupList: seq<GroupData>) returns (failed: seq<string>)
      modifies db
      ensures db.users == old(db.users) && old(db.groups).Keys <= db.groups.Keys
      ensures forall j :: 0 <= j < |groupList| ==> (groupList[j].name in old(db.groups) ==> groupList[j].name in failed)
      ensures forall n :: n in failed ==> n in old(db.groups) || exists j :: 0 <= j < |groupList| && groupList[j].name == n
    {
      failed := [];
      var i := 0;
      while i < |groupList|
        invariant i <= |groupList|
        invariant db.users == old(db.users) && old(db.groups).Keys <= db.groups.Keys
        invariant forall j :: 0 <= j < i ==> (groupList[j].name in old(db.groups) ==> groupList[j].name in failed)
        invariant forall n :: n in failed ==> exists j :: 0 <= j < i && groupList[j].name == n
      {
        var ok := CreateGroup(groupList[i].name, groupList[i].gid);
        if !ok {
          failed := failed + [groupList[i].name];
        }
        i := i + 1;
      }
    }

    /** The loop over the kickstart users, each created with the algorithm given; the names not created are returned in order. */
    method CreateUsers(userList: seq<UserData>, algo: Option<string>, pick: nat -> nat, crypt: (string, string) -> string)
      returns (failed: seq<string>)
      modifies db
      ensures old(db.users).Keys <= db.users.Keys && old(db.groups).Keys <= db.groups.Keys
      ensures forall j :: 0 <= j < |userList| ==> (userList[j].name in old(db.users) ==> userList[j].name in failed)
      ensures forall n :: n in failed ==> exists j :: 0 <= j < |userList| && userList[j].name == n
    {
      failed := [];
      var i := 0;
      while i < |userList|
        invariant i <= |userList|
        invariant old(db.users).Keys <= db.users.Keys && old(db.groups).Keys <= db.groups.Keys
        invariant forall j :: 0 <= j < i ==> (userList[j].name in old(db.users) ==> userList[j].name in failed)
        invariant forall n :: n in failed ==> exists j :: 0 <= j < i && userList[j].name == n
      {
        var ok := CreateUser(userList[i].(algo := algo), pick, crypt);
        if !ok {
          failed := failed + [userList[i].name];
        }
        i := i + 1;
      }
    }

    /** writeKS: the root password as a crypted value (crypting a plain one with getPassAlgo's algorithm), locked when set so. */
    method WriteKS(auth: string, pick: nat -> nat, crypt: (string, string) -> string) returns (line: string)
      ensures line == RootpwLine(if rootPassword.isCrypted then rootPassword.password
                                 else Crypted(rootPassword.password, GetPassAlgo(auth), pick, crypt).value,
                                 rootPassword.lock)
    {
      var value: string;
      if rootPassword.isCrypted {
        value := rootPassword.password;
      } else {
        PassAlgoCrypts(auth, pick);
        var c := CryptPassword(rootPassword.password, GetPassAlgo(auth), pick, crypt);
        value := c.value;
      }
      var args := " --iscrypted " + value;
      if rootPassword.lock {
        args := args + " --lock";
      }
      assert args == RootpwArgs(value, rootPassword.lock);
      line := "rootpw " + args + "\n";
    }
  }
}
