/**
 * The lang-table reader (pyanaconda/localeinfo.py): the first readable
 * lang-table file is read line by line; each line of at least six
 * tab-separated fields maps its fourth field (the nick) to the entry
 * (name, short name, text mode supported, keyboard, timezone), and `C`
 * is made an alias of the default language's entry.
 */
module LocaleTable {
  import opened Wrappers
  import opened Strings

  /** nick -> (name, short name, text mode supported, keyboard, timezone). */
  datatype LangEntry = LangEntry(name: string, short: string, textSupported: bool,
                                 keyboard: string, timezone: string)

  /** The dictionary lookup that fails when the default language has no entry. */
  datatype TableError = KeyError

  /** One line's contribution: the nick and its entry, or nothing for a line of fewer than six fields. */
  function ParseLine(line: string): (r: Option<(string, LangEntry)>)
  {
    var l := Split(line, '\t');
    if |l| < 6 then None
    else Some((l[3], LangEntry(l[0], l[1], l[2] == "True", l[4], Strip(l[5]))))
  }

  /** The fields of a line holding a nick and an entry, as a lang-table file holds it (a newline ends the line). */
  function Fields(nick: string, e: LangEntry): seq<string> {
    [e.name, e.short, if e.textSupported then "True" else "False", nick, e.keyboard, e.timezone + "\n"]
  }

  function FormatLine(nick: string, e: LangEntry): string {
    Join(Fields(nick, e), "\t")
  }

  /** A field of a lang-table line: no tab in it. */
  predicate Field(s: string) { '\t' !in s }

  /** The timezone as the file holds it: no surrounding white space. */
  predicate Bare(s: string) { Strip(s) == s }

  /**
   * Reading back a formatted line gives its nick and entry: the newline
   * ending the line is removed by the strip of the last field.
   */
  lemma ParseFormatLine(nick: string, e: LangEntry)
    requires Field(e.name) && Field(e.short) && Field(nick) && Field(e.keyboard) && Field(e.timezone)
    requires Bare(e.timezone)
    ensures ParseLine(FormatLine(nick, e)) == Some((nick, e))
  {
    var f := Fields(nick, e);
    NewlineField(e.timezone);
    assert forall i :: 0 <= i < |f| ==> '\t' !in f[i];
    SplitOfJoin(f, '\t');
    StripNewline(e.timezone);
    var l := Split(FormatLine(nick, e), '\t');
    assert l == f;
    assert (l[2] == "True") == e.textSupported by {
      if !e.textSupported { assert l[2][0] != "True"[0]; }
    }
    assert ParseLine(FormatLine(nick, e)) == Some((l[3], LangEntry(l[0], l[1], l[2] == "True", l[4], Strip(l[5]))));
  }

  lemma NewlineField(s: string)
    requires Field(s)
    ensures Field(s + "\n")
  {
    assert forall j :: 0 <= j < |s + "\n"| ==> (s + "\n")[j] == (if j < |s| then s[j] else '\n');
  }

  lemma StripNewline(s: string)
    requires Bare(s)
    ensures Strip(s + "\n") == s
  {
    var t := s + "\n";
    assert t[..|s|] == s;
    if s == [] {
    } else {
      assert TrimLeft(s) == s;
      assert !IsSpace(s[0]);
      assert TrimLeft(t) == t;
      assert TrimRight(t) == TrimRight(s);
      assert TrimRight(s) == s;
    }
  }

  /** What each line contributes, in file order. */
  function Entries(lines: seq<string>): (es: seq<Option<(string, LangEntry)>>)
    ensures |es| == |lines| && forall i :: 0 <= i < |lines| ==> es[i] == ParseLine(lines[i])
  {
    seq(|lines|, i requires 0 <= i < |lines| => ParseLine(lines[i]))
  }

  /** The dictionary filled from the contributions in order: later ones replace earlier ones with the same nick. */
  function TableOf(es: seq<Option<(string, LangEntry)>>): (m: map<string, LangEntry>)
    decreases |es|
  {
    if es == [] then map[]
    else
      var m := TableOf(es[..|es| - 1]);
      match es[|es| - 1]
      case None => m
      case Some(p) => m[p.0 := p.1]
  }

  /** The dictionary after the given lines. */
  function Table(lines: seq<string>): map<string, LangEntry> {
    TableOf(Entries(lines))
  }

  /** The table after one more contribution: a nick sets that nick's entry and leaves every other one. */
  lemma TableStep(es: seq<Option<(string, LangEntry)>>, i: nat)
    requires i < |es|
    ensures TableOf(es[..i + 1]) == match es[i]
                                    case None => TableOf(es[..i])
                                    case Some(p) => TableOf(es[..i])[p.0 := p.1]
  {
    assert es[..i + 1][..i] == es[..i];
  }

  /** One more line adds its contribution at the end. */
  lemma EntriesAppend(lines: seq<string>, line: string)
    ensures Entries(lines + [line]) == Entries(lines) + [ParseLine(line)]
  {
    var a := Entries(lines + [line]);
    var b := Entries(lines) + [ParseLine(line)];
    forall i | 0 <= i < |a| ensures a[i] == b[i] {
      if i < |lines| {
        assert (lines + [line])[i] == lines[i];
      }
    }
  }

  /** The table after one more contribution at the end. */
  lemma TableOfAppend(es: seq<Option<(string, LangEntry)>>, p: Option<(string, LangEntry)>)
    ensures TableOf(es + [p]) == match p
                                 case None => TableOf(es)
                                 case Some(q) => TableOf(es)[q.0 := q.1]
  {
    assert (es + [p])[..|es|] == es;
  }

  /** A later line replaces the entry an earlier line gave the same nick, and no other. */
  lemma LaterLineReplaces(lines: seq<string>, line: string, nick: string, e: LangEntry)
    requires ParseLine(line) == Some((nick, e))
    ensures nick in Table(lines + [line]) && Table(lines + [line])[nick] == e
    ensures forall k :: k != nick ==> (k in Table(lines + [line]) <==> k in Table(lines))
    ensures forall k :: k != nick && k in Table(lines) ==> Table(lines + [line])[k] == Table(lines)[k]
  {
    EntriesAppend(lines, line);
    TableOfAppend(Entries(lines), ParseLine(line));
  }

  /** A line of fewer than six fields changes nothing. */
  lemma ShortLineIgnored(lines: seq<string>, line: string)
    requires |Split(line, '\t')| < 6
    ensures Table(lines + [line]) == Table(lines)
  {
    EntriesAppend(lines, line);
    TableOfAppend(Entries(lines), ParseLine(line));
  }

  /** Whether a line's contribution gives `nick` an entry. */
  predicate Defines(p: Option<(string, LangEntry)>, nick: string) {
    p.Some? && p.value.0 == nick
  }

  /** A nick is in the table exactly when some line defines it. */
  lemma TableKeys(lines: seq<string>, nick: string)
    ensures nick in Table(lines) <==> exists i :: 0 <= i < |lines| && Defines(ParseLine(lines[i]), nick)
  {
    TableOfKeys(Entries(lines), nick);
  }

  lemma {:induction false} TableOfKeys(es: seq<Option<(string, LangEntry)>>, nick: string)
    ensures nick in TableOf(es) <==> exists i :: 0 <= i < |es| && Defines(es[i], nick)
    decreases |es|
  {
    if es != [] {
      var n := |es| - 1;
      var init := es[..n];
      TableOfKeys(init, nick);
      if Defines(es[n], nick) {
      } else if nick in TableOf(init) {
        var i :| 0 <= i < n && Defines(init[i], nick);
        assert es[i] == init[i];
      } else {
        forall i | 0 <= i < |es| ensures !Defines(es[i], nick) {
          if i < n {
            assert es[i] == init[i] && !Defines(init[i], nick);
          }
        }
      }
    }
  }

  /** The lines of the first readable file, or none when no file is readable. */
  function FirstReadable(files: seq<Option<seq<string>>>): (r: seq<string>)
  {
    if files == [] then []
    else if files[0].Some? then files[0].value
    else FirstReadable(files[1..])
  }

  /** Only the first readable file counts: unreadable files before it are skipped, files after it are not read. */
  lemma {:induction false} FirstReadableOnly(files: seq<Option<seq<string>>>, i: nat)
    requires i < |files| && files[i].Some?
    requires forall j :: 0 <= j < i ==> files[j].None?
    ensures FirstReadable(files) == files[i].value
    decreases i
  {
    if i > 0 {
      FirstReadableOnly(files[1..], i - 1);
    }
  }

  /** The table localeinfo.get(default) returns: `C` aliased to the default language, which must be present. */
  function GetTable(files: seq<Option<seq<string>>>, default: string): (r: Result<map<string, LangEntry>, TableError>)
  {
    var m := Table(FirstReadable(files));
    if default in m then Ok(m["C" := m[default]]) else Err(KeyError)
  }

  /**
   * get(default): the search over the candidate paths and the read of the
   * first readable one; `files[i]` holds the lines of the i-th path of
   * the search, or None when it is not readable.
   */
  method Get(files: seq<Option<seq<string>>>, default: string) returns (r: Result<map<string, LangEntry>, TableError>)
    ensures r == GetTable(files, default)
    ensures r.Ok? ==> "C" in r.value && default in r.value && r.value["C"] == r.value[default]
    ensures r.Err? <==> default !in Table(FirstReadable(files))
  {
    var lines := FindReadable(files);
    var localeInfo := ReadTable(lines);
    if default !in localeInfo {
      return Err(KeyError);
    }
    localeInfo := localeInfo["C" := localeInfo[default]];
    r := Ok(localeInfo);
  }

  /** The loop over the paths: the lines of the first readable one. */
  method FindReadable(files: seq<Option<seq<string>>>) returns (lines: seq<string>)
    ensures lines == FirstReadable(files)
  {
    var p := 0;
    while p < |files| && files[p].None?
      invariant p <= |files|
      invariant FirstReadable(files[p..]) == FirstReadable(files)
    {
      assert files[p..][1..] == files[p + 1..];
      p := p + 1;
    }
    if p < |files| {
      lines := files[p].value;
    } else {
      assert files[p..] == [];
      lines := [];
    }
  }

  /** The loop over the lines of the file read. */
  method ReadTable(lines: seq<string>) returns (localeInfo: map<string, LangEntry>)
    ensures localeInfo == Table(lines)
  {
    ghost var es := Entries(lines);
    localeInfo := map[];
    var i := 0;
    while i < |lines|
      invariant i <= |lines|
      invariant localeInfo == TableOf(es[..i])
    {
      var l := Split(lines[i], '\t');
      TableStep(es, i);
      if |l| >= 6 {
        var ts := l[2] == "True";
        localeInfo := localeInfo[l[3] := LangEntry(l[0], l[1], ts, l[4], Strip(l[5]))];
      }
      i := i + 1;
    }
    assert es[..i] == es;
  }
}
