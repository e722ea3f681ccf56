/**
 * Character and string helpers standing in for the C library (strstr,
 * strcasecmp, strncmp, isspace) and for Python's str methods (find, split,
 * strip, lower, startswith).  Strings are sequences of characters; only the
 * ASCII range is given a case mapping, as in the C locale.
 */
module Strings {
  import opened Wrappers

  predicate IsSpace(c: char) {
    c == ' ' || c == '\t' || c == '\n' || c == '\r' || c as int == 11 || c as int == 12
  }

  predicate IsDigit(c: char) { '0' <= c <= '9' }
  predicate IsUpper(c: char) { 'A' <= c <= 'Z' }
  predicate IsLowerCase(c: char) { 'a' <= c <= 'z' }
  predicate IsAlpha(c: char) { IsUpper(c) || IsLowerCase(c) }
  predicate IsAlnum(c: char) { IsAlpha(c) || IsDigit(c) }

  function Lower(c: char): char {
    if IsUpper(c) then (c as int + 32) as char else c
  }

  function Upper(c: char): char {
    if IsLowerCase(c) then (c as int - 32) as char else c
  }

  function ToLower(s: string): (r: string)
    ensures |r| == |s|
    ensures forall i :: 0 <= i < |s| ==> r[i] == Lower(s[i])
  {
    if s == [] then [] else [Lower(s[0])] + ToLower(s[1..])
  }

  function ToUpper(s: string): (r: string)
    ensures |r| == |s|
    ensures forall i :: 0 <= i < |s| ==> r[i] == Upper(s[i])
  {
    if s == [] then [] else [Upper(s[0])] + ToUpper(s[1..])
  }

  lemma ToLowerPrefix(s: string, n: nat)
    requires n <= |s|
    ensures ToLower(s)[..n] == ToLower(s[..n])
  {
  }

  /** strcasecmp(a, b) == 0 */
  predicate EqualsIgnoreCase(a: string, b: string) {
    ToLower(a) == ToLower(b)
  }

  predicate StartsWith(s: string, p: string) {
    |p| <= |s| && s[..|p|] == p
  }

  predicate EndsWith(s: string, p: string) {
    |p| <= |s| && s[|s| - |p|..] == p
  }

  lemma PrefixStartsWith(p: string, rest: string)
    ensures StartsWith(p + rest, p)
  {
    assert (p + rest)[..|p|] == p;
  }

  lemma StartsWithTransitive(s: string, t: string, p: string)
    requires StartsWith(s, t) && StartsWith(t, p)
    ensures StartsWith(s, p)
  {
    assert s[..|p|] == s[..|t|][..|p|];
  }

  /** strncasecmp(s, p, strlen(p)) == 0 */
  predicate StartsWithIgnoreCase(s: string, p: string) {
    |p| <= |s| && EqualsIgnoreCase(s[..|p|], p)
  }

  predicate OccursAt(s: string, sub: string, i: nat) {
    i + |sub| <= |s| && s[i..i + |sub|] == sub
  }

  predicate Contains(s: string, sub: string) {
    exists i: nat | i <= |s| :: OccursAt(s, sub, i)
  }

  /** The first occurrence of `sub` in `s` at or after `from` (strstr, str.find). */
  function FindFrom(s: string, sub: string, from: nat): (r: Option<nat>)
    decreases |s| - from
    ensures r.Some? ==> from <= r.value && OccursAt(s, sub, r.value)
    ensures r.Some? ==> forall j: nat :: from <= j < r.value ==> !OccursAt(s, sub, j)
    ensures r.None? ==> forall j: nat :: from <= j ==> !OccursAt(s, sub, j)
  {
    if from + |sub| > |s| then None
    else if s[from..from + |sub|] == sub then Some(from)
    else FindFrom(s, sub, from + 1)
  }

  function Find(s: string, sub: string): (r: Option<nat>)
    ensures r.Some? ==> OccursAt(s, sub, r.value)
    ensures r.Some? ==> forall j: nat :: j < r.value ==> !OccursAt(s, sub, j)
    ensures r.None? <==> !Contains(s, sub)
  {
    FindFrom(s, sub, 0)
  }

  /** An occurrence with none before it is the one Find reports. */
  lemma FindAt(s: string, sub: string, k: nat)
    requires OccursAt(s, sub, k) && forall j: nat :: j < k ==> !OccursAt(s, sub, j)
    ensures Find(s, sub) == Some(k)
  {
    assert Contains(s, sub) by { assert k <= |s|; }
  }

  /** A prefix without the first character of `sub` holds no occurrence of it. */
  lemma NoOccurrenceIn(s: string, pre: string, sub: string)
    requires |sub| > 0 && |pre| <= |s| && s[..|pre|] == pre && sub[0] !in pre
    ensures forall j: nat :: j < |pre| ==> !OccursAt(s, sub, j)
  {
    forall j: nat | j < |pre| ensures !OccursAt(s, sub, j) {
      assert s[j] == pre[j];
      if j + |sub| <= |s| { assert s[j..j + |sub|][0] == s[j]; }
    }
  }

  /** Where `s` starts with `pre` followed by `sub`, and `pre` lacks the first character of `sub`, Find reports the end of `pre`. */
  lemma FindAfter(s: string, pre: string, sub: string)
    requires |sub| > 0 && |pre| + |sub| <= |s| && s[..|pre|] == pre && s[|pre|..|pre| + |sub|] == sub && sub[0] !in pre
    ensures Find(s, sub) == Some(|pre|)
  {
    NoOccurrenceIn(s, pre, sub);
    FindAt(s, sub, |pre|);
  }

  /** The pieces of a five-part concatenation, as slices of it. */
  lemma Pieces5(a: string, b: string, c: string, d: string, e: string)
    ensures var s := a + b + c + d + e;
            var i, j, k, l := |a|, |a| + |b|, |a| + |b| + |c|, |a| + |b| + |c| + |d|;
            && s[..i] == a && s[i..j] == b && s[..j] == a + b && s[j..k] == c && s[k..l] == d
            && s[..l] == a + b + c + d && s[l..] == e
  {
  }

  /** The last index of character `c` in `s` (str.rindex / strrchr). */
  function RFindChar(s: string, c: char): (r: Option<nat>)
    ensures r.Some? ==> r.value < |s| && s[r.value] == c
    ensures r.Some? ==> forall j :: r.value < j < |s| ==> s[j] != c
    ensures r.None? ==> forall j :: 0 <= j < |s| ==> s[j] != c
  {
    if s == [] then None
    else if s[|s| - 1] == c then Some(|s| - 1)
    else RFindChar(s[..|s| - 1], c)
  }

  /** strchr(s, c): the index of the first `c` in `s`, if any. */
  function FindChar(s: string, c: char): (r: Option<nat>)
    ensures r.Some? ==> r.value < |s| && s[r.value] == c
    ensures r.Some? ==> forall j :: 0 <= j < r.value ==> s[j] != c
    ensures r.None? ==> forall j :: 0 <= j < |s| ==> s[j] != c
  {
    if s == [] then None
    else if s[0] == c then Some(0)
    else match FindChar(s[1..], c)
      case None => None
      case Some(i) => Some(i + 1)
  }

  lemma FindCharNone(s: string, c: char)
    requires c !in s
    ensures FindChar(s, c).None?
  {
  }

  lemma FindCharAt(s: string, c: char, i: nat)
    requires i < |s| && s[i] == c && c !in s[..i]
    ensures FindChar(s, c) == Some(i)
  {
  }

  lemma RFindCharAt(s: string, c: char, i: nat)
    requires i < |s| && s[i] == c && c !in s[i + 1..]
    ensures RFindChar(s, c) == Some(i)
    decreases |s|
  {
    if s[|s| - 1] != c {
      var t := s[..|s| - 1];
      assert s[|s| - 1] in s[i + 1..] by { assert s[i + 1..][|s| - 1 - (i + 1)] == s[|s| - 1]; }
      assert t[i + 1..] == s[i + 1..][..|s| - 1 - (i + 1)];
      RFindCharAt(t, c, i);
    }
  }

  /** Python's str.split(sep) for a one-character separator: empty pieces are kept. */
  function Split(s: string, sep: char): (r: seq<string>)
    ensures |r| >= 1
    decreases |s|
  {
    match FindChar(s, sep)
    case None => [s]
    case Some(i) => [s[..i]] + Split(s[i + 1..], sep)
  }

  lemma SplitNone(s: string, sep: char)
    requires FindChar(s, sep).None?
    ensures Split(s, sep) == [s]
  {
  }

  lemma SplitAt(s: string, sep: char, e: nat)
    requires FindChar(s, sep) == Some(e)
    ensures Split(s, sep) == [s[..e]] + Split(s[e + 1..], sep)
  {
  }

  /** A piece without the separator, the separator, and the rest split off the front. */
  lemma SplitFirst(p: string, rest: string, sep: char)
    requires sep !in p
    ensures Split(p + [sep] + rest, sep) == [p] + Split(rest, sep)
  {
    var s := p + [sep] + rest;
    assert s[..|p|] == p && s[|p|] == sep;
    FindCharAt(s, sep, |p|);
    assert s[|p| + 1..] == rest;
  }

  function Join(pieces: seq<string>, sep: string): (r: string)
  {
    if pieces == [] then ""
    else if |pieces| == 1 then pieces[0]
    else pieces[0] + sep + Join(pieces[1..], sep)
  }

  /** Joining the pieces of a split with the separator gives the string back. */
  lemma {:induction false} SplitJoin(s: string, sep: char)
    ensures Join(Split(s, sep), [sep]) == s
    decreases |s|
  {
    match FindChar(s, sep)
    case None =>
    case Some(i) =>
      var head, tail := s[..i], s[i + 1..];
      var rest := Split(tail, sep);
      SplitAt(s, sep, i);
      SplitJoin(tail, sep);
      JoinCons(head, rest, [sep]);
      calc {
        Join(Split(s, sep), [sep]);
        Join([head] + rest, [sep]);
        head + [sep] + Join(rest, [sep]);
        head + [sep] + tail;
        { assert s == s[..i] + [s[i]] + s[i + 1..]; }
        s;
      }
  }

  /** Splitting pieces joined with a separator none of them holds gives the pieces back. */
  lemma {:induction false} SplitOfJoin(pieces: seq<string>, sep: char)
    requires |pieces| >= 1 && forall i :: 0 <= i < |pieces| ==> sep !in pieces[i]
    ensures Split(Join(pieces, [sep]), sep) == pieces
    decreases |pieces|
  {
    if |pieces| == 1 {
      FindCharNone(pieces[0], sep);
    } else {
      var rest := pieces[1..];
      JoinCons(pieces[0], rest, [sep]);
      assert pieces == [pieces[0]] + rest;
      SplitOfJoin(rest, sep);
      SplitFirst(pieces[0], Join(rest, [sep]), sep);
    }
  }

  lemma JoinCons(p: string, rest: seq<string>, sep: string)
    requires rest != []
    ensures Join([p] + rest, sep) == p + sep + Join(rest, sep)
  {
    assert ([p] + rest)[1..] == rest;
  }

  /** One more piece at the end of a join: the separator and the piece. */
  lemma {:induction false} JoinSnoc(pieces: seq<string>, sep: string, x: string)
    requires pieces != []
    ensures Join(pieces + [x], sep) == Join(pieces, sep) + sep + x
    decreases |pieces|
  {
    if |pieces| == 1 {
      assert (pieces + [x])[1..] == [x];
    } else {
      assert (pieces + [x])[1..] == pieces[1..] + [x];
      JoinSnoc(pieces[1..], sep, x);
    }
  }

  function TrimLeft(s: string): (r: string)
    ensures |r| <= |s| && r == s[|s| - |r|..]
    ensures r == [] || !IsSpace(r[0])
    ensures forall i :: 0 <= i < |s| - |r| ==> IsSpace(s[i])
  {
    if s != [] && IsSpace(s[0]) then TrimLeft(s[1..]) else s
  }

  function TrimRight(s: string): (r: string)
    ensures |r| <= |s| && r == s[..|r|]
    ensures r == [] || !IsSpace(r[|r| - 1])
    ensures forall i :: |r| <= i < |s| ==> IsSpace(s[i])
  {
    if s != [] && IsSpace(s[|s| - 1]) then TrimRight(s[..|s| - 1]) else s
  }

  /** Python's str.strip() with no argument. */
  function Strip(s: string): string {
    TrimRight(TrimLeft(s))
  }

  /** A non-empty run of characters that are not white space. */
  predicate IsWord(w: string) {
    w != [] && forall j :: 0 <= j < |w| ==> !IsSpace(w[j])
  }

  lemma ConsWords(w: string, rest: seq<string>)
    requires IsWord(w) && forall i :: 0 <= i < |rest| ==> IsWord(rest[i])
    ensures forall i :: 0 <= i < |[w] + rest| ==> IsWord(([w] + rest)[i])
  {
  }

  /** Python's str.split() with no argument: runs of whitespace separate words. */
  function Words(s: string): (r: seq<string>)
    ensures forall i :: 0 <= i < |r| ==> IsWord(r[i])
    decreases |s|
  {
    var t := TrimLeft(s);
    if t == [] then []
    else
      var n := WordLength(t);
      var w := t[..n];
      assert IsWord(w) by {
        assert forall j :: 0 <= j < |w| ==> w[j] == t[j];
      }
      var rest := Words(t[n..]);
      ConsWords(w, rest);
      [w] + rest
  }

  function WordLength(t: string): (n: nat)
    ensures n <= |t|
    ensures forall j :: 0 <= j < n ==> !IsSpace(t[j])
    ensures n < |t| ==> IsSpace(t[n])
    ensures t != [] && !IsSpace(t[0]) ==> n > 0
  {
    if t == [] || IsSpace(t[0]) then 0 else 1 + WordLength(t[1..])
  }

  /** Replace every occurrence of character `a` by `b`. */
  function ReplaceChar(s: string, a: char, b: char): (r: string)
    ensures |r| == |s|
    ensures forall i :: 0 <= i < |s| ==> r[i] == (if s[i] == a then b else s[i])
  {
    if s == [] then [] else [if s[0] == a then b else s[0]] + ReplaceChar(s[1..], a, b)
  }

  function DigitChar(d: nat): char
    requires d < 10
  {
    "0123456789"[d]
  }

  /** Decimal rendering of a natural number ("%d"). */
  function NatToString(n: nat): (r: string)
    ensures r != [] && forall i :: 0 <= i < |r| ==> IsDigit(r[i])
  {
    if n < 10 then [DigitChar(n)] else NatToString(n / 10) + [DigitChar(n % 10)]
  }

  lemma DigitCharValue(d: nat)
    requires d < 10
    ensures DigitChar(d) as int == '0' as int + d
  {
    var digits := "0123456789";
    assert digits[0] == '0' && digits[1] == '1' && digits[2] == '2' && digits[3] == '3' && digits[4] == '4';
    assert digits[5] == '5' && digits[6] == '6' && digits[7] == '7' && digits[8] == '8' && digits[9] == '9';
  }

  /** Different numbers are rendered differently. */
  lemma {:induction false} NatToStringInjective(a: nat, b: nat)
    requires NatToString(a) == NatToString(b)
    ensures a == b
    decreases a
  {
    if a < 10 && b < 10 {
      DigitCharValue(a);
      DigitCharValue(b);
    } else if a >= 10 && b >= 10 {
      var sa, sb := NatToString(a / 10), NatToString(b / 10);
      assert NatToString(a) == sa + [DigitChar(a % 10)];
      assert NatToString(b) == sb + [DigitChar(b % 10)];
      assert |sa| == |sb|;
      assert sa == NatToString(a)[..|sa|] && sb == NatToString(b)[..|sb|];
      DigitCharValue(a % 10);
      DigitCharValue(b % 10);
      NatToStringInjective(a / 10, b / 10);
    }
  }

  function IntToString(n: int): string {
    if n < 0 then "-" + NatToString(-n) else NatToString(n)
  }

  /** Left-pad with zeros to at least `width` characters ("%0*d"). */
  function ZeroPad(s: string, width: nat): (r: string)
    ensures |r| == if |s| < width then width else |s|
    ensures EndsWith(r, s)
    decreases width - |s|
  {
    if |s| >= width then s else ZeroPad("0" + s, width)
  }

  function DigitValue(c: char): nat
    requires IsDigit(c)
  {
    c as int - '0' as int
  }

  predicate AllDigits(s: string) {
    forall i :: 0 <= i < |s| ==> IsDigit(s[i])
  }

  function DigitsValue(s: string): nat
    requires AllDigits(s)
  {
    if s == [] then 0 else DigitsValue(s[..|s| - 1]) * 10 + DigitValue(s[|s| - 1])
  }

  /** Reading a rendered number back gives the number. */
  lemma {:induction false} NatToStringValue(n: nat)
    ensures AllDigits(NatToString(n)) && DigitsValue(NatToString(n)) == n
    decreases n
  {
    var s := NatToString(n);
    if n < 10 {
      DigitCharValue(n);
      assert s[..0] == [];
    } else {
      var p := NatToString(n / 10);
      assert s == p + [DigitChar(n % 10)];
      assert s[..|s| - 1] == p;
      NatToStringValue(n / 10);
      DigitCharValue(n % 10);
    }
  }

  /** A leading zero does not change a number's value. */
  lemma {:induction false} LeadingZeroValue(s: string)
    requires AllDigits(s)
    ensures AllDigits("0" + s) && DigitsValue("0" + s) == DigitsValue(s)
    decreases |s|
  {
    var t := "0" + s;
    if s == [] {
      assert t[..0] == [];
    } else {
      assert t[..|t| - 1] == "0" + s[..|s| - 1];
      LeadingZeroValue(s[..|s| - 1]);
    }
  }

  /** Zero padding does not change a number's value. */
  lemma {:induction false} ZeroPadValue(s: string, width: nat)
    requires AllDigits(s)
    ensures AllDigits(ZeroPad(s, width)) && DigitsValue(ZeroPad(s, width)) == DigitsValue(s)
    decreases width - |s|
  {
    if |s| < width {
      LeadingZeroValue(s);
      ZeroPadValue("0" + s, width);
    }
  }

  /** The number of leading decimal digits of `s`. */
  function DigitRun(s: string): (n: nat)
    ensures n <= |s| && AllDigits(s[..n])
    ensures n < |s| ==> !IsDigit(s[n])
  {
    if s == [] || !IsDigit(s[0]) then 0
    else
      var m := DigitRun(s[1..]);
      assert s[..m + 1] == [s[0]] + s[1..][..m];
      m + 1
  }

  /**
   * Python 2's int(s) on a str: optional surrounding whitespace, an optional
   * sign (white space may follow it) and at least one decimal digit;
   * anything else raises ValueError (None).
   */
  function PyInt(s: string): (r: Option<int>)
    ensures r.Some? ==> Strip(s) != []
  {
    var t := Strip(s);
    var neg := t != [] && t[0] == '-';
    var body := if t != [] && (t[0] == '-' || t[0] == '+') then Strip(t[1..]) else t;
    if body != [] && AllDigits(body) then
      Some(if neg then -(DigitsValue(body) as int) else DigitsValue(body) as int)
    else None
  }

  /** White space may separate the sign from the digits: `- 5` reads as -5. */
  lemma PyIntSignThenSpace(s: string)
    requires |s| > 2 && s[0] == '-' && IsSpace(s[1]) && AllDigits(s[2..])
    ensures PyInt(s) == Some(-(DigitsValue(s[2..]) as int))
  {
    SignThenSpaceStrips(s);
  }

  /** The pieces of a sign, a blank and digits as PyInt sees them. */
  lemma SignThenSpaceStrips(s: string)
    requires |s| > 2 && s[0] == '-' && IsSpace(s[1]) && AllDigits(s[2..])
    ensures Strip(s) == s && Strip(s[1..]) == s[2..]
  {
    assert IsDigit(s[2..][0]) && IsDigit(s[2..][|s| - 3]);
    NoSpaceAtEnds(s);
    OneBlankStrips(s[1..]);
    assert s[1..][1..] == s[2..];
  }

  /** One blank before a text with no white space at its ends strips to that text. */
  lemma OneBlankStrips(t: string)
    requires |t| > 1 && IsSpace(t[0]) && !IsSpace(t[1]) && !IsSpace(t[|t| - 1])
    ensures Strip(t) == t[1..]
  {
    LeadingSpaceStrips(t);
    NoSpaceAtEnds(t[1..]);
  }

  /** A leading white-space character is dropped by the strip. */
  lemma LeadingSpaceStrips(s: string)
    requires s != [] && IsSpace(s[0])
    ensures Strip(s) == Strip(s[1..])
  {
  }

  /** A text with no white space at either end strips to itself. */
  lemma NoSpaceAtEnds(s: string)
    requires s != [] && !IsSpace(s[0]) && !IsSpace(s[|s| - 1])
    ensures Strip(s) == s
  {
  }

  /** Python's s[i:j] for non-negative bounds: both are clamped to the string. */
  function Slice(s: string, i: nat, j: nat): (r: string)
    ensures |r| <= |s|
  {
    var hi := if j < |s| then j else |s|;
    if i < hi then s[i..hi] else ""
  }

  /** Python's s[i:] for a non-negative bound. */
  function From(s: string, i: nat): (r: string)
    ensures |r| <= |s|
  {
    if i < |s| then s[i..] else ""
  }

  /** Python 2 bool() of a string. */
  predicate Truthy(s: string) { s != [] }
}
