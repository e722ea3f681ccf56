/**
 * The older account code (users.py): an MD5 or DES salt, user creation
 * that reports only whether the user existed, and the root password.
 * libuser's setpassUser stores the value given when told it is crypted,
 * and its own hash `luHash` of the value otherwise.
 */
module LegacyUsers {
  import opened Wrappers
  import opened Libuser
  import Users

  /** The source as written, or with the defect this model found fixed. */
  datatype Variant = AsWritten | Corrected

  /** cryptPassword's salt: `$1$` and 8 drawn characters for MD5, else 2 drawn characters with no prefix. */
  function LegacySalt(useMD5: bool, pick: nat -> nat): string {
    if useMD5 then "$1$" + Users.Drawn(8, pick) else Users.Drawn(2, pick)
  }

  /** An MD5 salt is 11 characters starting `$1$`, a DES salt 2; every drawn character is from the salt alphabet. */
  lemma LegacySaltShape(useMD5: bool, pick: nat -> nat)
    ensures var s := LegacySalt(useMD5, pick);
            (useMD5 ==> |s| == 11 && s[..3] == "$1$" && forall i :: 3 <= i < 11 ==> Users.IsSaltChar(s[i])) &&
            (!useMD5 ==> |s| == 2 && forall i :: 0 <= i < 2 ==> Users.IsSaltChar(s[i]))
  {
    Users.DrawnChars(8, pick);
    Users.DrawnChars(2, pick);
  }

  /** cryptPassword: the salt built by a loop of draws, then crypt. */
  method CryptPassword(password: string, useMD5: bool, pick: nat -> nat, crypt: (string, string) -> string)
    returns (r: string)
    ensures r == crypt(password, LegacySalt(useMD5, pick))
  {
    var salt: string;
    var saltLen: nat;
    if useMD5 {
      salt := "$1$";
      saltLen := 8;
    } else {
      salt := "";
      saltLen := 2;
    }
    ghost var prefix := salt;
    var i := 0;
    while i < saltLen
      invariant i <= saltLen
      invariant salt == prefix + Users.Drawn(i, pick)
    {
      salt := salt + [Users.SaltAlphabet(pick(i) % 64)];
      i := i + 1;
    }
    assert prefix + Users.Drawn(saltLen, pick) == LegacySalt(useMD5, pick);
    r := crypt(password, salt);
  }

  /** What setpassUser stores: the value when told it is crypted, else libuser's hash of it. */
  function Setpass(value: string, isCrypted: bool, luHash: string -> string): string {
    if isCrypted then value else luHash(value)
  }

  /** createUser's password as written: a plain password is crypted and then given to setpassUser as not crypted. */
  function NewUserPasswordAsWritten(password: string, isCrypted: bool, pick: nat -> nat,
                                    crypt: (string, string) -> string, luHash: string -> string): string {
    if isCrypted then Setpass(password, isCrypted, luHash)
    else Setpass(crypt(password, LegacySalt(true, pick)), isCrypted, luHash)
  }

  /** createUser's password as intended: the given crypted value, or the MD5 crypt of the plain one. */
  function NewUserPassword(password: string, isCrypted: bool, pick: nat -> nat, crypt: (string, string) -> string): string {
    if isCrypted then password else crypt(password, LegacySalt(true, pick))
  }

  /** The password createUser leaves in the account, as written or corrected. */
  function StoredPassword(password: string, isCrypted: bool, pick: nat -> nat, crypt: (string, string) -> string,
                          luHash: string -> string, variant: Variant): string {
    if variant == AsWritten then NewUserPasswordAsWritten(password, isCrypted, pick, crypt, luHash)
    else NewUserPassword(password, isCrypted, pick, crypt)
  }

  /**
   * As written, a plain password ends up as libuser's hash of its crypt:
   * the stored value is the intended one only when that hash leaves the
   * crypted string as it is.
   */
  lemma NewUserPasswordDoubleCryptAsWritten(password: string, pick: nat -> nat,
                                            crypt: (string, string) -> string, luHash: string -> string)
    ensures NewUserPasswordAsWritten(password, false, pick, crypt, luHash) == luHash(NewUserPassword(password, false, pick, crypt))
    ensures NewUserPasswordAsWritten(password, false, pick, crypt, luHash) == NewUserPassword(password, false, pick, crypt)
            <==> luHash(NewUserPassword(password, false, pick, crypt)) == NewUserPassword(password, false, pick, crypt)
  {
  }

  /** A crypted password is stored as given either way. */
  lemma NewUserPasswordCrypted(password: string, pick: nat -> nat, crypt: (string, string) -> string, luHash: string -> string)
    ensures NewUserPasswordAsWritten(password, true, pick, crypt, luHash) == NewUserPassword(password, true, pick, crypt) == password
  {
  }

  /** The home directory: the one given when not empty, else /home/<name>. */
  function HomeDir(name: string, homedir: Option<string>): (r: string)
    ensures |r| > 0
  {
    if homedir.Some? && |homedir.value| > 0 then homedir.value else "/home/" + name
  }

  /** The directory addUser creates under the install root: the home directory, with `/` in front when it is relative. */
  function MadeHome(home: string): (r: string)
    requires |home| > 0
    ensures |r| > 0 && r[0] == '/'
    ensures r == home || r == "/" + home
  {
    if home[0] != '/' then "/" + home else home
  }

  /** The entry createUser adds, before its password and lock: the home directory as given (made under the root with a `/`), the shell and the UID when given, and the groups. */
  function NewAccount(name: string, homedir: Option<string>, shell: Option<string>, uid: Option<int>, grpLst: seq<string>): Account {
    var home := HomeDir(name, homedir);
    Account(home, MadeHome(home),
            if shell.Some? && |shell.value| > 0 then shell else None,
            if uid.Some? && uid.value >= 0 then uid else None,
            None, [name] + grpLst, None, false)
  }

  class LegacyUsers {
    const db: Accounts

    constructor(db: Accounts)
      ensures this.db == db
    {
      this.db := db;
    }

    /**
     * createUser: None when the user exists, else True whatever became of
     * the child. The account is added with the home directory made under
     * the root (`/` put in front of a relative one); then the private group
     * (an existing one stops the child there); the password, the lock,
     * membership of the requested groups that exist, and last the
     * HOMEDIRECTORY field set back to the directory as given.
     */
    method CreateUser(name: string, password: Option<string>, isCrypted: bool, groups: seq<string>,
                      homedir: Option<string>, shell: Option<string>, uid: Option<int>, lock: bool,
                      pick: nat -> nat, crypt: (string, string) -> string, luHash: string -> string, variant: Variant)
      returns (r: Option<bool>)
      modifies db
      ensures name in old(db.users) <==> r.None?
      ensures r.None? ==> db.users == old(db.users) && db.groups == old(db.groups)
      ensures r.Some? ==> r.value
      ensures r.Some? ==>
                var home := HomeDir(name, homedir);
                var full := name !in old(db.groups);
                var pw := if full && password.Some? && |password.value| > 0
                          then Some(StoredPassword(password.value, isCrypted, pick, crypt, luHash, variant)) else None;
                db.users == old(db.users)[name := NewAccount(name, homedir, shell, uid, Existing(groups, old(db.groups))).(
                  home := if full then home else MadeHome(home), password := pw, locked := full && lock)]
      ensures r.Some? && name in old(db.groups) ==> db.groups == old(db.groups)
      ensures r.Some? && name !in old(db.groups) ==>
                db.groups == WithMember(old(db.groups)[name := Group(None, {})], Elements(Existing(groups, old(db.groups))), name)
    {
      if name in db.users {
        return None;
      }
      AddUser(name, password, isCrypted, groups, homedir, shell, uid, lock, pick, crypt, luHash, variant);
      return Some(true);
    }

    /** The child's work for a user that does not exist yet. */
    method AddUser(name: string, password: Option<string>, isCrypted: bool, groups: seq<string>,
                   homedir: Option<string>, shell: Option<string>, uid: Option<int>, lock: bool,
                   pick: nat -> nat, crypt: (string, string) -> string, luHash: string -> string, variant: Variant)
      requires name !in db.users
      modifies db
      ensures var home := HomeDir(name, homedir);
                var full := name !in old(db.groups);
                var pw := if full && password.Some? && |password.value| > 0
                          then Some(StoredPassword(password.value, isCrypted, pick, crypt, luHash, variant)) else None;
                db.users == old(db.users)[name := NewAccount(name, homedir, shell, uid, Existing(groups, old(db.groups))).(
                  home := if full then home else MadeHome(home), password := pw, locked := full && lock)]
      ensures name in old(db.groups) ==> db.groups == old(db.groups)
      ensures name !in old(db.groups) ==>
                db.groups == WithMember(old(db.groups)[name := Group(None, {})], Elements(Existing(groups, old(db.groups))), name)
    {
      var grpLst := Existing(groups, db.groups);
      var ent := BuildEntry(name, homedir, shell, uid, grpLst);
      // addUser; the entry's later changes are written to it at the end
      if name in db.groups {
        db.users := db.users[name := ent];
        return;
      }
      var pw: Option<string> := None;
      if password.Some? && |password.value| > 0 {
        var value := PasswordToSet(password.value, isCrypted, pick, crypt, luHash, variant);
        pw := Some(value);
      }
      AddWithOwnGroup(name, ent, grpLst, pw, lock, HomeDir(name, homedir));
    }

    /**
     * The rest of addUser once the user's own group is new: the group is
     * created, the password and lock set, the user joins the requested
     * groups and the home directory is written back as given.
     */
    method AddWithOwnGroup(name: string, ent: Account, grpLst: seq<string>, pw: Option<string>, lock: bool, home: string)
      requires name !in db.groups && forall g :: g in grpLst ==> g in db.groups
      modifies db
      ensures db.users == old(db.users)[name := ent.(password := pw, locked := ent.locked || lock, home := home)]
      ensures db.groups == WithMember(old(db.groups)[name := Group(None, {})], Elements(grpLst), name)
    {
      var own := db.groups[name := Group(None, {})];
      db.groups := own;
      var e := ent.(password := pw);
      if lock {
        e := e.(locked := true);
      }
      JoinGroups(grpLst, name);
      // the HOMEDIRECTORY field is set back to the directory as given
      e := e.(home := home);
      db.users := db.users[name := e];
    }

    /** The entry's fields, set one after another; HOMEDIRECTORY holds the directory to make at this point. */
    static method BuildEntry(name: string, homedir: Option<string>, shell: Option<string>, uid: Option<int>, grpLst: seq<string>)
      returns (ent: Account)
      ensures ent == NewAccount(name, homedir, shell, uid, grpLst).(home := MadeHome(HomeDir(name, homedir)))
    {
      var home := HomeDir(name, homedir);
      ent := Account("", "", None, None, None, [name] + grpLst, None, false);
      if home[0] != '/' {
        ent := ent.(home := "/" + home);
      } else {
        ent := ent.(home := home);
      }
      if shell.Some? && |shell.value| > 0 {
        ent := ent.(shell := shell);
      }
      if uid.Some? && uid.value >= 0 {
        ent := ent.(uid := uid);
      }
      ent := ent.(madeHome := ent.home);
    }

    /**
     * The value setpassUser stores for createUser: a plain password is
     * crypted first; as written the caller's flag goes with it, so a plain
     * password's crypt is hashed again; corrected it is marked crypted.
     */
    static method PasswordToSet(password: string, isCrypted: bool, pick: nat -> nat, crypt: (string, string) -> string,
                                luHash: string -> string, variant: Variant)
      returns (value: string)
      ensures variant == Corrected ==> value == NewUserPassword(password, isCrypted, pick, crypt)
      ensures variant == AsWritten ==> value == NewUserPasswordAsWritten(password, isCrypted, pick, crypt, luHash)
      ensures value == StoredPassword(password, isCrypted, pick, crypt, luHash, variant)
    {
      var given := password;
      if !isCrypted {
        given := CryptPassword(password, true, pick, crypt);
      }
      var flag := if variant == AsWritten then isCrypted else true;
      value := Setpass(given, flag, luHash);
    }

    /** The loop adding the user as a member of each requested group, in turn. */
    method JoinGroups(members: seq<string>, user: string)
      requires forall g :: g in members ==> g in db.groups
      modifies db
      ensures db.users == old(db.users)
      ensures db.groups == WithMember(old(db.groups), Elements(members), user)
    {
      ghost var start := db.groups;
      var i := 0;
      while i < |members|
        invariant i <= |members|
        invariant db.users == old(db.users)
        invariant db.groups == WithMember(start, Elements(members[..i]), user)
      {
        WithMemberStep(start, Elements(members[..i]), members[i], user);
        assert Elements(members[..i + 1]) == Elements(members[..i]) + {members[i]} by {
          assert members[..i + 1] == members[..i] + [members[i]];
        }
        db.groups := WithMember(db.groups, {members[i]}, user);
        i := i + 1;
      }
      assert members[..i] == members;
    }

    /** setRootPassword: a crypted password is set as it is, a plain one crypted (MD5 or DES); the account is locked when asked. A missing root account fails. */
    method SetRootPassword(password: string, isCrypted: bool, useMD5: bool, lock: bool,
                           pick: nat -> nat, crypt: (string, string) -> string)
      returns (ok: bool)
      modifies db
      ensures ok <==> "root" in old(db.users)
      ensures db.groups == old(db.groups)
      ensures !ok ==> db.users == old(db.users)
      ensures ok ==>
                var value := if isCrypted then password else crypt(password, LegacySalt(useMD5, pick));
                var a := old(db.users)["root"];
                db.users == old(db.users)["root" := a.(password := Some(value), locked := a.locked || lock)]
    {
      if "root" !in db.users {
        return false;
      }
      var rootUser := db.users["root"];
      var value: string;
      if isCrypted {
        value := password;
      } else {
        value := CryptPassword(password, useMD5, pick, crypt);
      }
      rootUser := rootUser.(password := Some(value));
      if lock {
        rootUser := rootUser.(locked := true);
      }
      db.users := db.users["root" := rootUser];
      return true;
    }
  }
}
