/**
 * The dictionary-backed mock file system of the test suite
 * (tests/mock/disk.py): paths map to a directory marker or to file
 * contents; `open` returns an in-memory file that writes its contents
 * back into the dictionary it was opened from when flushed or closed.
 */
module MockDisk {
  import opened Wrappers
  import opened Strings

  /** A value of the dictionary: the directory marker or a file's contents. */
  datatype Node = Dir | Text(s: string)

  /** IOError of open, OSError of os.remove, ValueError of a closed file, AttributeError of os_access, re.error of a glob pattern. */
  datatype DiskError = IsADirectory(path: string) | NoSuchFile(path: string) | NoSuchPath(path: string) |
                       ClosedFile | AttributeError | BadPattern(pattern: string)

  /** The dictionary object itself: files keep a reference to the one they were opened from. */
  class Store {
    var files: map<string, Node>

    constructor(files: map<string, Node>)
      ensures this.files == files
    {
      this.files := files;
    }
  }

  /** os.path.join of two components. */
  function PathJoin(a: string, b: string): (r: string)
    ensures StartsWith(b, "/") ==> r == b
    ensures !StartsWith(b, "/") ==> EndsWith(r, b) && StartsWith(r, a)
  {
    if |b| > 0 && b[0] == '/' then b
    else if |a| == 0 || a[|a| - 1] == '/' then a + b
    else a + "/" + b
  }

  /** The dictionary reset leaves: the /proc directory and /proc/cmdline holding "linux". */
  function Initial(): (m: map<string, Node>)
    ensures m.Keys == {"/proc", "/proc/cmdline"}
    ensures m["/proc"] == Dir && m["/proc/cmdline"] == Text("linux")
  {
    map["/proc" := Dir, "/proc/cmdline" := Text("linux")]
  }

  /** An open file: its buffer and position. */
  datatype Opening = Opening(files: map<string, Node>, buf: string, pos: nat)

  /**
   * What open(path, mode) does to the dictionary and which buffer and
   * position the file starts with: a directory cannot be opened, `w`
   * truncates, `a` creates and goes to the end, reading needs the file,
   * `r+` starts at the beginning and other `+` modes at the end.
   */
  function Opened(files: map<string, Node>, path: string, mode: string): (r: Result<Opening, DiskError>)
  {
    var content := if path in files then Some(files[path]) else None;
    if content == Some(Dir) then Err(IsADirectory(path))
    else if StartsWith(mode, "w") then Ok(Opening(files[path := Text("")], "", 0))
    else if EndsWith(mode, "a") then
      var f := if path in files then files else files[path := Text("")];
      var buf := f[path].s;
      Ok(Opening(f, buf, |buf|))
    else if content.None? then Err(NoSuchFile(path))
    else if EndsWith(mode, "+") then
      Ok(Opening(files, content.value.s, if StartsWith(mode, "r") then 0 else |content.value.s|))
    else Ok(Opening(files, content.value.s, 0))
  }

  /** Opening a directory always fails, whatever the mode. */
  lemma OpenDirectoryFails(files: map<string, Node>, path: string, mode: string)
    requires path in files && files[path] == Dir
    ensures Opened(files, path, mode) == Err(IsADirectory(path))
  {
  }

  /** Opening for writing truncates: the file exists afterwards, empty, and nothing else changes. */
  lemma OpenWriteTruncates(files: map<string, Node>, path: string, mode: string)
    requires StartsWith(mode, "w") && !(path in files && files[path] == Dir)
    ensures var r := Opened(files, path, mode);
            r.Ok? && r.value.files == files[path := Text("")] && r.value.buf == "" && r.value.pos == 0
  {
  }

  /** Opening for appending creates a missing file and starts at its end; an existing file is kept. */
  lemma OpenAppendCreates(files: map<string, Node>, path: string, mode: string)
    requires EndsWith(mode, "a") && !StartsWith(mode, "w") && !(path in files && files[path] == Dir)
    ensures var r := Opened(files, path, mode);
            r.Ok? && path in r.value.files && r.value.files[path] == Text(r.value.buf) &&
            r.value.pos == |r.value.buf| &&
            (path in files ==> r.value.files == files) &&
            (path !in files ==> r.value.files == files[path := Text("")] && r.value.buf == "")
  {
  }

  /** Any other mode needs the file: opening a missing one fails and changes nothing. */
  lemma OpenReadMissing(files: map<string, Node>, path: string, mode: string)
    requires path !in files && !StartsWith(mode, "w") && !EndsWith(mode, "a")
    ensures Opened(files, path, mode) == Err(NoSuchFile(path))
  {
  }

  /** StringIO.write: the text replaces what is under it from the position on, and the position moves past it. */
  function WriteAt(buf: string, pos: nat, s: string): (r: string)
    requires pos <= |buf|
    ensures |r| == if pos + |s| <= |buf| then |buf| else pos + |s|
    ensures r[..pos] == buf[..pos] && r[pos..pos + |s|] == s
    ensures pos + |s| < |buf| ==> r[pos + |s|..] == buf[pos + |s|..]
  {
    buf[..pos] + s + (if pos + |s| < |buf| then buf[pos + |s|..] else "")
  }

  /** Writing at the end appends. */
  lemma WriteAtEnd(buf: string, s: string)
    ensures WriteAt(buf, |buf|, s) == buf + s
  {
  }

  /** The in-memory file of open (DiskIO.TestFile). */
  class TestFile {
    const store: Store
    const path: string
    var buf: string
    var pos: nat
    var closed: bool

    predicate Valid()
      reads this
    {
      pos <= |buf|
    }

    constructor(store: Store, path: string, buf: string, pos: nat)
      requires pos <= |buf|
      ensures Valid() && this.store == store && this.path == path
      ensures this.buf == buf && this.pos == pos && !closed
    {
      this.store := store;
      this.path := path;
      this.buf := buf;
      this.pos := pos;
      closed := false;
    }

    /** write(s) on an open file; ValueError once closed. */
    method Write(s: string) returns (r: Result<(), DiskError>)
      requires Valid()
      modifies this
      ensures Valid() && closed == old(closed)
      ensures old(closed) ==> r == Err(ClosedFile) && buf == old(buf) && pos == old(pos)
      ensures !old(closed) ==> r.Ok? && buf == WriteAt(old(buf), old(pos), s) && pos == old(pos) + |s|
    {
      if closed {
        return Err(ClosedFile);
      }
      buf := WriteAt(buf, pos, s);
      pos := pos + |s|;
      r := Ok(());
    }

    /** read() on an open file: the rest of the buffer, leaving the position at its end. */
    method Read() returns (r: Result<string, DiskError>)
      requires Valid()
      modifies this
      ensures Valid() && buf == old(buf) && closed == old(closed)
      ensures old(closed) ==> r == Err(ClosedFile) && pos == old(pos)
      ensures !old(closed) ==> r == Ok(old(buf)[old(pos)..]) && pos == |buf|
    {
      if closed {
        return Err(ClosedFile);
      }
      r := Ok(buf[pos..]);
      pos := |buf|;
    }

    /** flush: the buffer is written back under the same path into the dictionary the file came from. */
    method Flush() returns (r: Result<(), DiskError>)
      modifies store
      ensures old(closed) ==> r == Err(ClosedFile) && store.files == old(store.files)
      ensures !old(closed) ==> r.Ok? && store.files == old(store.files)[path := Text(buf)]
    {
      if closed {
        return Err(ClosedFile);
      }
      store.files := store.files[path := Text(buf)];
      r := Ok(());
    }

    /** close: flush, then the file is closed; closing twice fails in the flush. */
    method Close() returns (r: Result<(), DiskError>)
      modifies this, store
      ensures buf == old(buf) && pos == old(pos) && closed
      ensures old(closed) ==> r == Err(ClosedFile) && store.files == old(store.files)
      ensures !old(closed) ==> r.Ok? && store.files == old(store.files)[path := Text(buf)]
    {
      r := Flush();
      closed := true;
    }
  }

  /*
   * fnmatch, through the regular expression fnmatch.translate builds: `*`
   * is any run, `?` any one character, `[...]` a class and `[!...]` its
   * complement; every other character matches itself.
   */

  /** Where translate starts looking for the `]` closing a class: past a `!` and then a `]`, which belong to the class. */
  function ClassStart(rest: string): (j: nat)
    ensures j <= |rest| && j <= 2
  {
    var j := if |rest| > 0 && rest[0] == '!' then 1 else 0;
    if j < |rest| && rest[j] == ']' then j + 1 else j
  }

  /** The index in `rest` (what follows a `[`) of the `]` closing the class; None when there is none and the `[` is an ordinary character. */
  function ClassClose(rest: string): (r: Option<nat>)
    ensures r.Some? ==> ClassStart(rest) <= r.value < |rest| && rest[r.value] == ']'
    ensures r.Some? ==> forall k :: ClassStart(rest) <= k < r.value ==> rest[k] != ']'
    ensures r.None? ==> forall k :: ClassStart(rest) <= k < |rest| ==> rest[k] != ']'
  {
    var j := ClassStart(rest);
    match FindChar(rest[j..], ']')
    case None => None
    case Some(k) => Some(j + k)
  }

  /** The items of a class as the regular expression reads them: `a-z` a range, any other character itself. */
  predicate InItems(c: char, items: string)
    decreases |items|
  {
    if items == [] then false
    else if |items| >= 3 && items[1] == '-' then (items[0] <= c <= items[2]) || InItems(c, items[3..])
    else c == items[0] || InItems(c, items[1..])
  }

  /** A range whose end comes before its start: re.compile raises re.error. */
  predicate BadItems(items: string)
    decreases |items|
  {
    if items == [] then false
    else if |items| >= 3 && items[1] == '-' then items[2] < items[0] || BadItems(items[3..])
    else BadItems(items[1..])
  }

  /** Whether `c` is in the class written `stuff` between the brackets: a leading `!` complements it. */
  predicate InClass(c: char, stuff: string) {
    if |stuff| > 0 && stuff[0] == '!' then !InItems(c, stuff[1..]) else InItems(c, stuff)
  }

  predicate BadClass(stuff: string) {
    if |stuff| > 0 && stuff[0] == '!' then BadItems(stuff[1..]) else BadItems(stuff)
  }

  /** fnmatch(name, pat) on a pattern the regular expression compiler accepts. */
  predicate Match(name: string, pat: string)
    decreases |name| + |pat|
  {
    if pat == [] then name == []
    else if pat[0] == '*' then Match(name, pat[1..]) || (name != [] && Match(name[1..], pat))
    else if pat[0] == '[' && ClassClose(pat[1..]).Some? then
      var j := ClassClose(pat[1..]).value;
      name != [] && InClass(name[0], pat[1..j + 1]) && Match(name[1..], pat[j + 2..])
    else name != [] && (pat[0] == '?' || pat[0] == name[0]) && Match(name[1..], pat[1..])
  }

  /** The pattern holds a class with a backwards range, so fnmatch.filter raises re.error whatever the names. */
  predicate BadPatternText(pat: string)
    decreases |pat|
  {
    if pat == [] then false
    else if pat[0] == '[' && ClassClose(pat[1..]).Some? then
      var j := ClassClose(pat[1..]).value;
      BadClass(pat[1..j + 1]) || BadPatternText(pat[j + 2..])
    else BadPatternText(pat[1..])
  }

  /** A pattern without wildcards or brackets matches exactly itself. */
  predicate Plain(pat: string) {
    forall i :: 0 <= i < |pat| ==> pat[i] != '*' && pat[i] != '?' && pat[i] != '['
  }

  /** A plain pattern is never refused by the compiler. */
  lemma {:induction false} PlainNeverBad(pat: string)
    requires Plain(pat)
    ensures !BadPatternText(pat)
    decreases |pat|
  {
    if pat != [] {
      PlainNeverBad(pat[1..]);
    }
  }

  /** The first `]` of `items + "]"` is the last character when `items` has none. */
  lemma CloseAtEnd(items: string)
    requires ']' !in items
    ensures FindChar(items + "]", ']') == Some(|items|)
  {
    var t := items + "]";
    assert t[|items|] == ']';
    assert forall k :: 0 <= k < |items| ==> t[k] == items[k];
  }

  /** One step of Match over a class that closes at `j` of what follows the `[`. */
  lemma MatchClassStep(name: string, pat: string, j: nat)
    requires pat != [] && pat[0] == '[' && ClassClose(pat[1..]) == Some(j)
    ensures j + 2 <= |pat|
    ensures Match(name, pat) <==> name != [] && InClass(name[0], pat[1..j + 1]) && Match(name[1..], pat[j + 2..])
  {
  }

  /** A one-character class: `[` + items + `]` matches exactly the characters the items list. */
  lemma ClassMatch(c: char, items: string)
    requires items != [] && items[0] != '!' && items[0] != ']' && ']' !in items
    ensures Match([c], "[" + items + "]") <==> InItems(c, items)
  {
    var p := "[" + items + "]";
    var rest := items + "]";
    assert p[1..] == rest;
    assert ClassStart(rest) == 0;
    CloseAtEnd(items);
    assert rest[0..] == rest;
    MatchClassStep([c], p, |items|);
    assert p[1..|items| + 1] == items;
    assert p[|items| + 2..] == [];
  }

  /** `[!` + items + `]` matches exactly the characters the items do not list. */
  lemma ComplementMatch(c: char, items: string)
    requires items != [] && items[0] != ']' && ']' !in items
    ensures Match([c], "[!" + items + "]") <==> !InItems(c, items)
  {
    var p := "[!" + items + "]";
    var rest := "!" + items + "]";
    assert p[1..] == rest;
    assert ClassStart(rest) == 1;
    assert rest[1..] == items + "]";
    CloseAtEnd(items);
    MatchClassStep([c], p, |items| + 1);
    assert p[1..|items| + 2] == "!" + items;
    assert ("!" + items)[1..] == items;
    assert p[|items| + 3..] == [];
  }

  /** A `[` that no `]` closes is an ordinary character. */
  lemma UnclosedIsLiteral(name: string, rest: string)
    requires ']' !in rest
    ensures Match(name, "[" + rest) <==> name != [] && name[0] == '[' && Match(name[1..], rest)
  {
    var p := "[" + rest;
    assert p[1..] == rest;
    assert ClassClose(rest).None? by {
      var j := ClassStart(rest);
      FindCharNone(rest[j..], ']');
    }
  }

  /** `[0-9]` takes digits and `[!0-9]` everything else. */
  lemma DigitClass()
    ensures Match("7", "[0-9]") && !Match("x", "[0-9]") && Match("x", "[!0-9]")
  {
    assert InItems('7', "0-9");
    assert !InItems('x', "0-9") by {
      assert "0-9"[3..] == [];
    }
    ClassMatch('7', "0-9");
    ClassMatch('x', "0-9");
    ComplementMatch('x', "0-9");
    assert "[" + "0-9" + "]" == "[0-9]";
    assert "[!" + "0-9" + "]" == "[!0-9]";
  }

  /** `[9-0]` holds a backwards range, which the compiler refuses. */
  lemma BackwardsRangeRefused()
    ensures BadPatternText("[9-0]")
  {
    var p := "[9-0]";
    assert p[1..] == "9-0" + "]";
    CloseAtEnd("9-0");
    assert ClassStart(p[1..]) == 0;
    assert ClassClose(p[1..]) == Some(3);
    assert p[1..4] == "9-0";
    assert BadItems("9-0");
  }




  lemma {:induction false} PlainMatch(name: string, pat: string)
    requires Plain(pat)
    ensures Match(name, pat) <==> name == pat
    decreases |pat|
  {
    if pat != [] && name != [] {
      PlainMatch(name[1..], pat[1..]);
      if name[1..] == pat[1..] && name[0] == pat[0] {
        assert name == [name[0]] + name[1..];
        assert pat == [pat[0]] + pat[1..];
      }
    }
  }

  /** `*` matches everything. */
  lemma {:induction false} StarMatchesAll(name: string)
    ensures Match(name, "*")
    decreases |name|
  {
    if name != [] {
      StarMatchesAll(name[1..]);
    }
  }

  /** A plain prefix followed by `*` matches exactly the names with that prefix. */
  lemma {:induction false} PrefixStar(name: string, p: string)
    requires Plain(p)
    ensures Match(name, p + "*") <==> StartsWith(name, p)
    decreases |p|
  {
    if p == [] {
      StarMatchesAll(name);
      assert p + "*" == "*";
    } else {
      assert (p + "*")[1..] == p[1..] + "*";
      if name != [] {
        PrefixStar(name[1..], p[1..]);
        if StartsWith(name, p) {
          assert name[1..][..|p| - 1] == name[..|p|][1..];
        }
        if StartsWith(name[1..], p[1..]) && name[0] == p[0] {
          assert name[..|p|] == [name[0]] + name[1..][..|p| - 1];
        }
      }
    }
  }

  /** str.lstrip('/'). */
  function LStripSlash(s: string): (r: string)
    ensures |r| <= |s| && r == s[|s| - |r|..]
    ensures r == [] || r[0] != '/'
    decreases |s|
  {
    if s != [] && s[0] == '/' then LStripSlash(s[1..]) else s
  }

  /** An entry os_listdir(path) lists: under `path`, not `path` itself. */
  predicate Under(entry: string, path: string) {
    StartsWith(entry, path) && entry != path
  }

  /** The name os_listdir gives an entry under `path`: what follows the prefix, without leading slashes. */
  function Child(entry: string, path: string): string
    requires StartsWith(entry, path)
  {
    LStripSlash(entry[|path|..])
  }

  /** The keys of a dictionary in its iteration order: each key once. */
  ghost predicate KeyOrder(order: seq<string>, files: map<string, Node>) {
    (forall k :: k in order <==> k in files) && Distinct(order)
  }

  predicate Distinct(s: seq<string>) {
    forall i, j :: 0 <= i < j < |s| ==> s[i] != s[j]
  }

  /** fnmatch.filter: the names the pattern matches, in the order given, each as often as it is given. */
  function FilterMatching(names: seq<string>, pattern: string): (r: seq<string>)
    ensures |r| <= |names|
    ensures forall k :: k in r <==> k in names && Match(k, pattern)
    ensures Distinct(names) ==> Distinct(r)
  {
    if names == [] then []
    else
      var rest := FilterMatching(names[1..], pattern);
      assert Distinct(names) ==> names[0] !in names[1..];
      if Match(names[0], pattern) then [names[0]] + rest else rest
  }

  /** The entries os_listdir(path) visits, in the order given. */
  function EntriesUnder(names: seq<string>, path: string): (r: seq<string>)
    ensures |r| <= |names|
    ensures forall e :: e in r <==> e in names && Under(e, path)
    ensures forall i :: 0 <= i < |r| ==> Under(r[i], path)
    ensures Distinct(names) ==> Distinct(r)
  {
    if names == [] then []
    else
      var rest := EntriesUnder(names[1..], path);
      assert Distinct(names) ==> names[0] !in names[1..];
      if Under(names[0], path) then [names[0]] + rest else rest
  }

  /** fnmatch.filter over two runs of names is the filter of each, one after the other: the order is kept. */
  lemma {:induction false} FilterMatchingAppend(a: seq<string>, b: seq<string>, pattern: string)
    ensures FilterMatching(a + b, pattern) == FilterMatching(a, pattern) + FilterMatching(b, pattern)
    decreases |a|
  {
    if a == [] {
      assert a + b == b;
    } else {
      assert (a + b)[0] == a[0];
      assert (a + b)[1..] == a[1..] + b;
      FilterMatchingAppend(a[1..], b, pattern);
    }
  }

  /** The entries under a path of two runs of keys are those of each run, one after the other. */
  lemma {:induction false} EntriesUnderAppend(a: seq<string>, b: seq<string>, path: string)
    ensures EntriesUnder(a + b, path) == EntriesUnder(a, path) + EntriesUnder(b, path)
    decreases |a|
  {
    if a == [] {
      assert a + b == b;
    } else {
      assert (a + b)[0] == a[0];
      assert (a + b)[1..] == a[1..] + b;
      EntriesUnderAppend(a[1..], b, path);
    }
  }

  /** os_listdir's list: one name per entry under `path`, so two entries can give the same name. */
  function ListdirNames(names: seq<string>, path: string): (r: seq<string>)
    ensures |r| == |EntriesUnder(names, path)|
    ensures forall i :: 0 <= i < |r| ==> r[i] == Child(EntriesUnder(names, path)[i], path)
  {
    var entries := EntriesUnder(names, path);
    seq(|entries|, i requires 0 <= i < |entries| => Child(entries[i], path))
  }

  /** Every entry under the path gives a listed name, and every listed name comes from such an entry. */
  lemma ListdirMembers(names: seq<string>, path: string)
    ensures forall e :: e in names && Under(e, path) ==> Child(e, path) in ListdirNames(names, path)
    ensures forall n :: n in ListdirNames(names, path) ==> exists e :: e in names && Under(e, path) && n == Child(e, path)
  {
    var entries := EntriesUnder(names, path);
    var r := ListdirNames(names, path);
    forall e | e in names && Under(e, path)
      ensures Child(e, path) in r
    {
      assert e in entries;
      var i :| 0 <= i < |entries| && entries[i] == e;
      assert r[i] == Child(e, path);
    }
    forall n | n in r
      ensures exists e :: e in names && Under(e, path) && n == Child(e, path)
    {
      var i :| 0 <= i < |r| && r[i] == n;
      assert entries[i] in entries;
    }
  }

  /** `/a/x` and `/ax` are both under `/a`, and both are listed as `x`. */
  lemma ListdirRepeats()
    ensures ListdirNames(["/a", "/a/x", "/ax"], "/a") == ["x", "x"]
  {
    EntriesExample();
    ChildExample();
    var r := ListdirNames(["/a", "/a/x", "/ax"], "/a");
    assert |r| == 2 && r[0] == "x" && r[1] == "x";
  }

  lemma EntriesExample()
    ensures EntriesUnder(["/a", "/a/x", "/ax"], "/a") == ["/a/x", "/ax"]
  {
    var names := ["/a", "/a/x", "/ax"];
    assert Under("/ax", "/a") by {
      assert "/ax"[..2] == "/a";
    }
    assert Under("/a/x", "/a") by {
      assert "/a/x"[..2] == "/a";
    }
    assert !Under(names[0], "/a");
    assert EntriesUnder([], "/a") == [];
    assert ["/ax"][1..] == [];
    assert EntriesUnder(["/ax"], "/a") == ["/ax"];
    assert ["/a/x", "/ax"][1..] == ["/ax"];
    assert EntriesUnder(["/a/x", "/ax"], "/a") == ["/a/x", "/ax"];
    assert names[1..] == ["/a/x", "/ax"];
  }

  lemma ChildExample()
    ensures StartsWith("/a/x", "/a") && StartsWith("/ax", "/a")
    ensures Child("/a/x", "/a") == "x" && Child("/ax", "/a") == "x"
  {
    assert "/a/x"[..2] == "/a" && "/ax"[..2] == "/a";
    assert Child("/a/x", "/a") == "x" by {
      assert "/a/x"[2..] == "/x";
      assert "/x"[1..] == "x";
    }
    assert Child("/ax", "/a") == "x" by {
      assert "/ax"[2..] == "x";
    }
  }



  /** The mock (DiskIO): the current dictionary and the working directory. */
  class DiskIO {
    var fs: Store
    var pwd: string

    constructor()
      ensures fs.files == Initial() && pwd == "/"
    {
      fs := new Store(Initial());
      pwd := "/";
    }

    /** reset: a new dictionary with only /proc and /proc/cmdline, and the working directory `/`; files already open keep the old one. */
    method Reset()
      modifies this
      ensures fresh(fs) && fs.files == Initial() && pwd == "/"
    {
      fs := new Store(Initial());
      pwd := "/";
    }

    /** __getitem__: KeyError (None) for a missing path. */
    function Get(key: string): (r: Option<Node>)
      reads this, fs
      ensures r.Some? <==> key in fs.files
      ensures r.Some? ==> r.value == fs.files[key]
    {
      if key in fs.files then Some(fs.files[key]) else None
    }

    /** __setitem__. */
    method Set(key: string, value: Node)
      modifies fs
      ensures fs.files == old(fs.files)[key := value]
    {
      fs.files := fs.files[key := value];
    }

    /** open(filename, mode): the file is relative to the working directory and keeps a reference to the current dictionary. */
    method Open(filename: string, mode: string) returns (r: Result<TestFile, DiskError>)
      modifies fs
      ensures fs == old(fs)
      ensures var o := Opened(old(fs.files), PathJoin(pwd, filename), mode);
              match o
              case Err(e) => r == Err(e) && fs.files == old(fs.files)
              case Ok(op) =>
                r.Ok? && fresh(r.value) && r.value.Valid() && !r.value.closed &&
                r.value.store == fs && r.value.path == PathJoin(pwd, filename) &&
                r.value.buf == op.buf && r.value.pos == op.pos && fs.files == op.files
    {
      var path := PathJoin(pwd, filename);
      var content := if path in fs.files then Some(fs.files[path]) else None;
      if content == Some(Dir) {
        return Err(IsADirectory(path));
      } else if StartsWith(mode, "w") {
        fs.files := fs.files[path := Text("")];
        var f := new TestFile(fs, path, "", 0);
        return Ok(f);
      } else if EndsWith(mode, "a") {
        if path !in fs.files {
          fs.files := fs.files[path := Text("")];
        }
        var buf := fs.files[path].s;
        var f := new TestFile(fs, path, buf, |buf|);
        return Ok(f);
      } else if content.None? {
        return Err(NoSuchFile(path));
      } else if EndsWith(mode, "+") {
        var buf := content.value.s;
        var f := new TestFile(fs, path, buf, if StartsWith(mode, "r") then 0 else |buf|);
        return Ok(f);
      }
      var f := new TestFile(fs, path, content.value.s, 0);
      r := Ok(f);
    }

    /**
     * glob_glob: the keys the pattern matches, in the dictionary's order
     * (`order`); re.error when the pattern has a backwards range.
     */
    function GlobGlob(pattern: string, order: seq<string>): (r: Result<seq<string>, DiskError>)
      requires KeyOrder(order, fs.files)
      reads this, fs
      ensures r.Err? <==> BadPatternText(pattern)
      ensures r.Err? ==> r.error == BadPattern(pattern)
      ensures r.Ok? ==> Distinct(r.value) && forall k :: k in r.value <==> k in fs.files && Match(k, pattern)
      ensures r.Ok? ==> r.value == FilterMatching(order, pattern)
    {
      if BadPatternText(pattern) then Err(BadPattern(pattern)) else Ok(FilterMatching(order, pattern))
    }

    /**
     * os_listdir(path): for each key under `path`, in the dictionary's
     * order, what follows the path; not relative to the working directory.
     */
    function OsListdir(path: string, order: seq<string>): (r: seq<string>)
      requires KeyOrder(order, fs.files)
      reads this, fs
      ensures |r| == |EntriesUnder(order, path)|
      ensures forall i :: 0 <= i < |r| ==> r[i] == Child(EntriesUnder(order, path)[i], path)
      ensures forall e :: e in fs.files && Under(e, path) ==> Child(e, path) in r
      ensures forall n :: n in r ==> exists e :: e in fs.files && Under(e, path) && n == Child(e, path)
    {
      ListdirMembers(order, path);
      ListdirNames(order, path)
    }

    /** os_path_exists: whether the path, relative to the working directory, is in the dictionary. */
    function OsPathExists(path: string): (r: bool)
      reads this, fs
      ensures r <==> PathJoin(pwd, path) in fs.files
    {
      PathJoin(pwd, path) in fs.files
    }

    /** os_remove: the path is deleted, and OSError is raised when there is none. */
    method OsRemove(path: string) returns (r: Result<(), DiskError>)
      modifies fs
      ensures PathJoin(pwd, path) in old(fs.files) ==> r.Ok? && fs.files == old(fs.files) - {PathJoin(pwd, path)}
      ensures PathJoin(pwd, path) !in old(fs.files) ==> r == Err(NoSuchPath(PathJoin(pwd, path))) && fs.files == old(fs.files)
    {
      var p := PathJoin(pwd, path);
      if p !in fs.files {
        return Err(NoSuchPath(p));
      }
      fs.files := fs.files - {p};
      r := Ok(());
    }

    /** os_access as written: it calls a `path_exists` the object does not have, so it always raises AttributeError. */
    function OsAccessAsWritten(path: string, mode: int): (r: Result<bool, DiskError>)
      ensures r == Err(AttributeError)
    {
      Err(AttributeError)
    }

    /** os_access as intended: whether the path exists, as os_path_exists says. */
    function OsAccess(path: string, mode: int): (r: Result<bool, DiskError>)
      reads this, fs
      ensures r.Ok? && (r.value <==> PathJoin(pwd, path) in fs.files)
    {
      Ok(OsPathExists(path))
    }
  }

  /** After a reset, os_access on /proc/cmdline fails as written although the file exists, and succeeds as intended. */
  lemma OsAccessFailsOnExistingFile(d: DiskIO)
    requires d.fs.files == Initial() && d.pwd == "/"
    ensures d.OsPathExists("/proc/cmdline")
    ensures d.OsAccessAsWritten("/proc/cmdline", 0).Err?
    ensures d.OsAccess("/proc/cmdline", 0) == Ok(true)
  {
  }

  /** A file written, closed and opened again for reading reads back what was written. */
  lemma WriteThenRead(files: map<string, Node>, path: string, s: string)
    requires !(path in files && files[path] == Dir)
    ensures Opened(files, path, "w") == Ok(Opening(files[path := Text("")], "", 0))
    ensures WriteAt("", 0, s) == s
    ensures Opened(files[path := Text("")][path := Text(s)], path, "r") == Ok(Opening(files[path := Text(s)], s, 0))
  {
    OpenWriteTruncates(files, path, "w");
    WriteAtEnd("", s);
    assert files[path := Text("")][path := Text(s)] == files[path := Text(s)];
    ReadWhole(files[path := Text(s)], path);
  }

  /** Opening a file for reading starts at its beginning with its contents. */
  lemma ReadWhole(files: map<string, Node>, path: string)
    requires path in files && files[path].Text?
    ensures Opened(files, path, "r") == Ok(Opening(files, files[path].s, 0))
  {
    assert !StartsWith("r", "w") && !EndsWith("r", "a") && !EndsWith("r", "+") by {
      assert "r"[0] == 'r';
    }
  }
}
