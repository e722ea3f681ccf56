/**
 * The root password spoke (pyanaconda/ui/gui/spokes/password.py): the
 * checks made on the password and its confirmation when the user leaves
 * the spoke, and what is stored in the kickstart root password. The two
 * text entries are given as strings; pwquality's verdict on a password
 * is the function `quality` (Some(message) when it finds the password
 * weak).
 */
module PasswordSpoke {
  import opened Wrappers
  import opened Strings
  import Users

  /** The errors _validatePassword records. */
  datatype Problem = MustConfirm | Different | TooShort | Weak(msg: string) | NotAscii

  /** The three texts of the status line. */
  datatype StatusText = ErrorSetting | AccountDisabled | PasswordSet

  /** string.punctuation: the ASCII punctuation characters. */
  predicate IsPunctuation(c: char) {
    ('!' <= c <= '/') || (':' <= c <= '@') || ('[' <= c <= '`') || ('{' <= c <= '~')
  }

  /** string.digits + string.ascii_letters + string.punctuation + " ". */
  predicate Legal(c: char) {
    IsDigit(c) || IsAlpha(c) || IsPunctuation(c) || c == ' '
  }

  predicate AllLegal(pw: string) {
    forall i :: 0 <= i < |pw| ==> Legal(pw[i])
  }

  /** The characters allowed are exactly the printable ASCII ones, space to `~`. */
  lemma LegalIsPrintableAscii(c: char)
    ensures Legal(c) <==> ' ' <= c <= '~'
  {
  }

  /** The bytes UTF-8 takes for one character. */
  function CharBytes(c: char): (n: nat)
    ensures 1 <= n <= 4 && (n == 1 <==> c as int < 0x80)
  {
    if c as int < 0x80 then 1 else if c as int < 0x800 then 2 else if c as int < 0x10000 then 3 else 4
  }

  /**
   * `len(pw)` under Python 2: the entry's text is a UTF-8 byte string, so
   * a character outside ASCII counts two to four times.
   */
  function Utf8Length(s: string): (n: nat)
    ensures |s| <= n <= 4 * |s|
    ensures n == |s| <==> forall i :: 0 <= i < |s| ==> s[i] as int < 0x80
  {
    if s == [] then 0
    else
      var init := s[..|s| - 1];
      assert forall i :: 0 <= i < |init| ==> init[i] == s[i];
      Utf8Length(init) + CharBytes(s[|s| - 1])
  }

  /**
   * _validatePassword on the two entries: the error, if any, and the weak
   * password remembered. The checks come in this order: one entry blank,
   * the entries differ, fewer than six bytes, pwquality (a weak
   * password is refused once, and the same one given again is let
   * through), characters outside printable ASCII.
   */
  function Validation(pw: string, confirm: string, quality: string -> Option<string>, oldweak: Option<string>)
    : (Option<Problem>, Option<string>)
  {
    if (|pw| > 0 && |confirm| == 0) || (|confirm| > 0 && |pw| == 0) then (Some(MustConfirm), oldweak)
    else if pw != confirm then (Some(Different), oldweak)
    else if |pw| > 0 && Utf8Length(pw) < 6 then (Some(TooShort), oldweak)
    else if |pw| > 0 && quality(pw).Some? && Some(pw) != oldweak then (Some(Weak(quality(pw).value)), Some(pw))
    else if !AllLegal(pw) then (Some(NotAscii), oldweak)
    else (None, oldweak)
  }

  /** A password is accepted exactly when both entries agree, it is empty or at least six bytes long, pwquality accepts it or it was refused as weak just before, and every character is printable ASCII. */
  lemma AcceptedIff(pw: string, confirm: string, quality: string -> Option<string>, oldweak: Option<string>)
    ensures Validation(pw, confirm, quality, oldweak).0.None? <==>
              pw == confirm && (|pw| == 0 || Utf8Length(pw) >= 6) &&
              (|pw| == 0 || quality(pw).None? || oldweak == Some(pw)) &&
              (forall i :: 0 <= i < |pw| ==> ' ' <= pw[i] <= '~')
  {
    forall i | 0 <= i < |pw| {
      LegalIsPrintableAscii(pw[i]);
    }
  }

  /** Exactly one blank entry is the first error; two non-blank entries that differ are the next. */
  lemma BlankAndMismatch(pw: string, confirm: string, quality: string -> Option<string>, oldweak: Option<string>)
    ensures (|pw| == 0) != (|confirm| == 0) ==> Validation(pw, confirm, quality, oldweak).0 == Some(MustConfirm)
    ensures |pw| > 0 && |confirm| > 0 && pw != confirm ==> Validation(pw, confirm, quality, oldweak).0 == Some(Different)
    ensures pw == confirm && 0 < |pw| && Utf8Length(pw) < 6 ==> Validation(pw, confirm, quality, oldweak).0 == Some(TooShort)
  {
  }

  /**
   * The length test counts bytes: six characters always pass it, and so
   * do three two-byte characters such as `ééé`; for an
   * ASCII password bytes and characters agree.
   */
  lemma LengthCountsBytes(pw: string, quality: string -> Option<string>, oldweak: Option<string>)
    ensures |pw| >= 6 ==> Validation(pw, pw, quality, oldweak).0 != Some(TooShort)
    ensures Utf8Length("\U{e9}\U{e9}\U{e9}") == 6
    ensures Validation("\U{e9}\U{e9}\U{e9}", "\U{e9}\U{e9}\U{e9}", quality, oldweak).0 != Some(TooShort)
    ensures (forall i :: 0 <= i < |pw| ==> ' ' <= pw[i] <= '~') ==> Utf8Length(pw) == |pw|
  {
  }

  /** Both entries blank is no error: the account is to be locked. */
  lemma BothBlankAccepted(quality: string -> Option<string>, oldweak: Option<string>)
    ensures Validation("", "", quality, oldweak) == (None, oldweak)
  {
    assert AllLegal("");
  }

  /** Only a weak password refused is remembered; otherwise the remembered one is kept. */
  lemma WeakRemembered(pw: string, confirm: string, quality: string -> Option<string>, oldweak: Option<string>)
    ensures var (e, w) := Validation(pw, confirm, quality, oldweak);
            (e.Some? && e.value.Weak? ==> w == Some(pw) && w != oldweak && e.value.msg == quality(pw).value) &&
            (!(e.Some? && e.value.Weak?) ==> w == oldweak)
  {
  }

  /** A weak password otherwise valid is refused once, and the same password given again is accepted. */
  lemma WeakTwice(pw: string, quality: string -> Option<string>, oldweak: Option<string>)
    requires |pw| >= 6 && quality(pw).Some? && oldweak != Some(pw)
    requires forall i :: 0 <= i < |pw| ==> ' ' <= pw[i] <= '~'
    ensures var (e1, w1) := Validation(pw, pw, quality, oldweak);
            e1 == Some(Weak(quality(pw).value)) && w1 == Some(pw) &&
            Validation(pw, pw, quality, w1) == (None, w1)
  {
    forall i | 0 <= i < |pw| {
      LegalIsPrintableAscii(pw[i]);
    }
  }

  /** The kickstart root password the spoke edits. */
  class RootPw {
    var password: string
    var isCrypted: bool
    var lock: bool

    constructor(password: string, isCrypted: bool, lock: bool)
      ensures this.password == password && this.isCrypted == isCrypted && this.lock == lock
    {
      this.password := password;
      this.isCrypted := isCrypted;
      this.lock := lock;
    }
  }

  class PasswordSpoke {
    var password: Option<string>
    var error: Option<Problem>
    var oldweak: Option<string>
    const rootpw: RootPw

    constructor(rootpw: RootPw)
      ensures this.rootpw == rootpw && password.None? && error.None? && oldweak.None?
    {
      this.rootpw := rootpw;
      password := None;
      error := None;
      oldweak := None;
    }

    /** initialize: the root account is locked until a password is set. */
    method Initialize()
      modifies rootpw
      ensures rootpw.lock
      ensures rootpw.password == old(rootpw.password) && rootpw.isCrypted == old(rootpw.isCrypted)
    {
      rootpw.lock := true;
    }

    /** The status line: an error first, then a locked account, else a password set. */
    function Status(): (s: StatusText)
      reads this, rootpw
      ensures s == ErrorSetting <==> error.Some?
      ensures s == AccountDisabled <==> error.None? && rootpw.lock
    {
      if error.Some? then ErrorSetting
      else if rootpw.lock then AccountDisabled
      else PasswordSet
    }

    /** The spoke is complete when the last validation found no error. */
    predicate Completed()
      reads this
    {
      error.None?
    }

    /** Complete exactly when the status is not the error text. */
    lemma CompletedIffNoErrorStatus()
      ensures Completed() <==> Status() != ErrorSetting
    {
    }

    /**
     * _validatePassword: the checks in order, then the loop over the
     * characters. A failure records its error and keeps the password
     * from before; success stores the password and clears the error.
     */
    method Validate(pw: string, confirm: string, quality: string -> Option<string>) returns (ok: bool)
      modifies this
      ensures var (e, w) := Validation(pw, confirm, quality, old(oldweak));
              (ok <==> e.None?) && oldweak == w && error == e &&
              password == (if ok then Some(pw) else old(password))
    {
      if (|pw| > 0 && |confirm| == 0) || (|confirm| > 0 && |pw| == 0) {
        error := Some(MustConfirm);
        return false;
      }
      if pw != confirm {
        error := Some(Different);
        return false;
      }
      if |pw| > 0 && Utf8Length(pw) < 6 {
        error := Some(TooShort);
        return false;
      }
      if |pw| > 0 {
        var weak := quality(pw);
        if weak.Some? {
          if Some(pw) == oldweak {
            // the same weak password a second time is let through
          } else {
            error := Some(Weak(weak.value));
            oldweak := Some(pw);
            return false;
          }
        }
      }
      var i := 0;
      while i < |pw|
        invariant i <= |pw|
        invariant forall j :: 0 <= j < i ==> Legal(pw[j])
      {
        if !Legal(pw[i]) {
          error := Some(NotAscii);
          return false;
        }
        i := i + 1;
      }
      password := Some(pw);
      error := None;
      return true;
    }

    /** on_back_clicked: leave the spoke when the entries validate, else stay and show the error. */
    method OnBackClicked(pw: string, confirm: string, quality: string -> Option<string>)
      returns (leave: bool, warning: Option<Problem>)
      modifies this
      ensures var (e, w) := Validation(pw, confirm, quality, old(oldweak));
              (leave <==> e.None?) && warning == e && error == e && oldweak == w &&
              password == (if leave then Some(pw) else old(password))
    {
      leave := Validate(pw, confirm, quality);
      warning := if leave then None else error;
    }

    /**
     * apply: a non-empty password is stored crypted (sha512, the default
     * of cryptPassword) and the account unlocked; no password locks the
     * account with an empty, plain password.
     */
    method Apply(pick: nat -> nat, crypt: (string, string) -> string)
      modifies rootpw
      ensures password.Some? && |password.value| > 0 ==>
                rootpw.password == Users.Crypted(password.value, None, pick, crypt).value &&
                rootpw.isCrypted && !rootpw.lock
      ensures !(password.Some? && |password.value| > 0) ==>
                rootpw.password == "" && !rootpw.isCrypted && rootpw.lock
    {
      if password.Some? && |password.value| > 0 {
        Users.SaltShape(None, pick);
        var c := Users.CryptPassword(password.value, None, pick, crypt);
        rootpw.password := c.value;
        rootpw.isCrypted := true;
        rootpw.lock := false;
      } else {
        rootpw.lock := true;
        rootpw.password := "";
        rootpw.isCrypted := false;
      }
    }
  }
}
