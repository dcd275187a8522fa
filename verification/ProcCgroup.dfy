/**
  * The two readers of /proc/PID/cgroup: one collects the path of every legacy controller and the unified path, the
  * other looks only for the unified path. They must agree.
  */
module ProcCgroup {
  import opened Wrappers
  import opened Strings

  /** `bufio.MaxScanTokenSize`: a longer line ends the scan with an error. */
  const MAX_TOKEN: nat := 65536

  datatype Error = InvalidEntry(line: string) | NotFound | TooLong

  /** The raw lines that `bufio.Scanner` sees: a final empty line is no line. */
  function RawLines(text: string): seq<string> {
    var lines := Split(text, '\n');
    if lines[|lines| - 1] == "" then lines[..|lines| - 1] else lines
  }

  /** A line as `Scanner.Text` returns it, without one trailing carriage return. */
  function Chop(line: string): string {
    if line != "" && line[|line| - 1] == '\r' then line[..|line| - 1] else line
  }

  // ----- The reader of the unified path -----

  function FindUnified(lines: seq<string>): Result<string, Error> {
    if lines == [] then Err(NotFound)
    else if |lines[0]| >= MAX_TOKEN then Err(TooLong)
    else if HasPrefix(Chop(lines[0]), "0::") then Ok(Chop(lines[0])[3..])
    else FindUnified(lines[1..])
  }

  /** parseCgroupFromReader. */
  method ParseCgroupFromReader(text: string) returns (r: Result<string, Error>)
    ensures r == FindUnified(RawLines(text))
  {
    var lines := RawLines(text);
    var i := 0;
    while i < |lines|
      invariant 0 <= i <= |lines|
      invariant FindUnified(lines) == FindUnified(lines[i..])
    {
      assert lines[i..][1..] == lines[i + 1..];
      if |lines[i]| >= MAX_TOKEN {
        return Err(TooLong);
      }
      var s := Chop(lines[i]);
      if HasPrefix(s, "0::") {
        return Ok(s[3..]);
      }
      i := i + 1;
    }
    r := Err(NotFound);
  }

  // ----- The reader of all entries -----

  /** The legacy paths by controller, and the unified path. */
  datatype Paths = Paths(legacy: map<string, string>, unified: string)

  /** One entry's controllers, in order; an empty name stands for the unified hierarchy. */
  function WithControllers(p: Paths, subs: seq<string>, path: string): Paths {
    if subs == [] then p
    else
      var q := WithControllers(p, subs[..|subs| - 1], path);
      var sub := subs[|subs| - 1];
      if sub == "" then q.(unified := path) else q.(legacy := q.legacy[sub := path])
  }

  function WithLine(p: Paths, line: string): Result<Paths, Error> {
    if |line| >= MAX_TOKEN then Err(TooLong)
    else
      var parts := SplitN(Chop(line), ':', 3);
      if |parts| < 3 then Err(InvalidEntry(Chop(line))) else Ok(WithControllers(p, Split(parts[1], ','), parts[2]))
  }

  function ReadLines(p: Paths, lines: seq<string>): Result<Paths, Error>
    decreases |lines|
  {
    if lines == [] then Ok(p)
    else
      match WithLine(p, lines[0])
      case Err(e) => Err(e)
      case Ok(q) => ReadLines(q, lines[1..])
  }

  /** ParseCgroupFromReaderUnified. */
  method ParseCgroupFromReaderUnified(text: string) returns (r: Result<Paths, Error>)
    ensures r == ReadLines(Paths(map[], ""), RawLines(text))
  {
    var cgroups: map<string, string> := map[];
    var unified := "";
    var lines := RawLines(text);
    var i := 0;
    while i < |lines|
      invariant 0 <= i <= |lines|
      invariant ReadLines(Paths(map[], ""), lines) == ReadLines(Paths(cgroups, unified), lines[i..])
    {
      assert lines[i..][1..] == lines[i + 1..];
      if |lines[i]| >= MAX_TOKEN {
        return Err(TooLong);
      }
      var s := Chop(lines[i]);
      var parts := SplitN(s, ':', 3);
      if |parts| < 3 {
        return Err(InvalidEntry(s));
      }
      cgroups, unified := AddControllers(cgroups, unified, Split(parts[1], ','), parts[2]);
      i := i + 1;
    }
    r := Ok(Paths(cgroups, unified));
  }

  /** The inner loop of ParseCgroupFromReaderUnified. */
  method AddControllers(cgroups: map<string, string>, unified: string, subs: seq<string>, path: string)
    returns (cgroups': map<string, string>, unified': string)
    ensures Paths(cgroups', unified') == WithControllers(Paths(cgroups, unified), subs, path)
  {
    cgroups', unified' := cgroups, unified;
    for i := 0 to |subs|
      invariant Paths(cgroups', unified') == WithControllers(Paths(cgroups, unified), subs[..i], path)
    {
      assert subs[..i + 1][..i] == subs[..i];
      if subs[i] == "" {
        unified' := path;
      } else {
        cgroups' := cgroups'[subs[i] := path];
      }
    }
    assert subs[..|subs|] == subs;
  }

  // ----- What the kernel writes -----

  /** One entry of the file; the entry of the unified hierarchy has id 0 and no controllers. */
  datatype Entry = Entry(id: string, controllers: seq<string>, path: string)

  function Line(e: Entry): string {
    e.id + ":" + Join(e.controllers, ',') + ":" + e.path
  }

  ghost predicate ValidEntry(e: Entry) {
    && Free(e.id, ':') && Free(Line(e), '\n') && |Line(e)| < MAX_TOKEN
    && (e.path != "" ==> e.path[|e.path| - 1] != '\r')
    && (e.controllers == [] ==> e.id == "0")
    && forall i :: 0 <= i < |e.controllers| ==>
         e.controllers[i] != "" && Free(e.controllers[i], ':') && Free(e.controllers[i], ',')
  }

  /** Every line ends with a line break. */
  function Text(entries: seq<Entry>): string {
    if entries == [] then "" else Line(entries[0]) + ['\n'] + Text(entries[1..])
  }

  function LinesOf(entries: seq<Entry>): (r: seq<string>)
    ensures |r| == |entries| && forall i :: 0 <= i < |r| ==> r[i] == Line(entries[i])
  {
    if entries == [] then [] else [Line(entries[0])] + LinesOf(entries[1..])
  }

  lemma {:induction false} TextSplits(entries: seq<Entry>)
    requires forall i :: 0 <= i < |entries| ==> Free(Line(entries[i]), '\n')
    ensures Split(Text(entries), '\n') == LinesOf(entries) + [""]
  {
    if entries != [] {
      var line, rest := Line(entries[0]), entries[1..];
      SplitHead(line, '\n', Text(rest));
      TextSplits(rest);
      assert [line] + (LinesOf(rest) + [""]) == LinesOf(entries) + [""];
    }
  }

  lemma {:induction false} TextLines(entries: seq<Entry>)
    requires forall i :: 0 <= i < |entries| ==> Free(Line(entries[i]), '\n')
    ensures RawLines(Text(entries)) == LinesOf(entries)
  {
    TextSplits(entries);
    var all := LinesOf(entries) + [""];
    assert all[|all| - 1] == "" && all[..|all| - 1] == LinesOf(entries);
  }

  // ----- What the readers should find -----

  /** The path of the first unified entry. */
  function FirstUnified(entries: seq<Entry>): Option<string> {
    if entries == [] then None
    else if entries[0].controllers == [] then Some(entries[0].path)
    else FirstUnified(entries[1..])
  }

  /** The path of the last unified entry, or otherwise. */
  function LastUnified(entries: seq<Entry>, otherwise: string): string {
    if entries == [] then otherwise
    else LastUnified(entries[1..], if entries[0].controllers == [] then entries[0].path else otherwise)
  }

  /** Entry i is the last one that names the controller. */
  ghost predicate IsLastNaming(entries: seq<Entry>, controller: string, i: nat) {
    && i < |entries| && controller in entries[i].controllers
    && forall j :: i < j < |entries| ==> controller !in entries[j].controllers
  }

  lemma {:induction false} JoinNames(names: seq<string>)
    requires forall i :: 0 <= i < |names| ==> names[i] != "" && Free(names[i], ':')
    ensures Free(Join(names, ','), ':')
    ensures names != [] ==> Join(names, ',') != "" && Join(names, ',')[0] != ':'
  {
    if |names| > 1 {
      JoinNames(names[1..]);
    }
  }

  lemma LineParts(e: Entry)
    requires ValidEntry(e)
    ensures Chop(Line(e)) == Line(e)
    ensures SplitN(Line(e), ':', 3) == [e.id, Join(e.controllers, ','), e.path]
    ensures HasPrefix(Line(e), "0::") <==> e.controllers == []
    ensures e.controllers == [] ==> Line(e)[3..] == e.path
  {
    var names := Join(e.controllers, ',');
    JoinNames(e.controllers);
    assert Line(e) == e.id + [':'] + (names + [':'] + e.path);
    CutAt(e.id, ':', names + [':'] + e.path);
    CutAt(names, ':', e.path);
    var rest := names + [':'] + e.path;
    assert SplitN(rest, ':', 2) == [names] + SplitN(e.path, ':', 1);
    assert SplitN(Line(e), ':', 3) == [e.id] + SplitN(rest, ':', 2);
    PrefixOfLine(e, names);
    assert Line(e)[|Line(e)| - 1] == if e.path == "" then ':' else e.path[|e.path| - 1];
  }

  lemma PrefixOfLine(e: Entry, names: string)
    requires names == Join(e.controllers, ',') && Free(e.id, ':')
    requires e.controllers == [] ==> e.id == "0"
    requires e.controllers != [] ==> names != "" && names[0] != ':'
    ensures HasPrefix(Line(e), "0::") <==> e.controllers == []
    ensures e.controllers == [] ==> Line(e)[3..] == e.path
  {
    var line := Line(e);
    assert forall i :: 0 <= i < |e.id| ==> line[i] == e.id[i];
    assert line[|e.id|] == ':';
    if e.controllers == [] {
      assert line == "0" + ":" + "" + ":" + e.path;
    } else {
      assert line[|e.id| + 1] == names[0];
      var prefix := "0::";
      assert prefix[0] == '0' && prefix[1] == ':' && prefix[2] == ':';
      assert |line| >= 3;
      assert line[0] != prefix[0] || line[1] != prefix[1] || line[2] != prefix[2];
    }
  }

  lemma {:induction false} ControllersAreLegacy(p: Paths, names: seq<string>, path: string)
    requires forall i :: 0 <= i < |names| ==> names[i] != ""
    ensures var q := WithControllers(p, names, path);
            && q.unified == p.unified
            && (forall c :: c in q.legacy <==> c in p.legacy || c in names)
            && (forall c :: c in q.legacy ==> q.legacy[c] == if c in names then path else p.legacy[c])
  {
    if names != [] {
      var n := |names| - 1;
      ControllersAreLegacy(p, names[..n], path);
      assert names == names[..n] + [names[n]];
    }
  }

  /** What one entry adds. */
  lemma LineAdds(p: Paths, e: Entry)
    requires ValidEntry(e)
    ensures WithLine(p, Line(e)).Ok?
    ensures var q := WithLine(p, Line(e)).value;
            && q.unified == (if e.controllers == [] then e.path else p.unified)
            && (forall c :: c in q.legacy <==> c in p.legacy || c in e.controllers)
            && (forall c :: c in q.legacy ==> q.legacy[c] == if c in e.controllers then e.path else p.legacy[c])
  {
    LineParts(e);
    if e.controllers == [] {
      assert Split("", ',') == [""];
      assert [""][..0] == [];
      assert WithControllers(p, [""], e.path) == p.(unified := e.path);
    } else {
      SplitOfJoin(e.controllers, ',');
      ControllersAreLegacy(p, e.controllers, e.path);
    }
  }

  ghost predicate Named(entries: seq<Entry>, c: string) {
    exists i :: 0 <= i < |entries| && c in entries[i].controllers
  }

  lemma NamedCons(entries: seq<Entry>, c: string)
    requires entries != []
    ensures Named(entries, c) <==> c in entries[0].controllers || Named(entries[1..], c)
  {
    var rest := entries[1..];
    if i :| 0 <= i < |entries| && c in entries[i].controllers {
      if i > 0 {
        assert c in rest[i - 1].controllers;
      }
    }
    if i :| 0 <= i < |rest| && c in rest[i].controllers {
      assert c in entries[i + 1].controllers;
    }
  }

  /** The path of a controller after reading the entries: the last entry that names it decides, if there is one. */
  function LastPath(entries: seq<Entry>, c: string, otherwise: string): string {
    if entries == [] then otherwise
    else LastPath(entries[1..], c, if c in entries[0].controllers then entries[0].path else otherwise)
  }

  lemma {:induction false} LastPathIsLast(entries: seq<Entry>, c: string, i: nat, otherwise: string)
    requires IsLastNaming(entries, c, i)
    ensures LastPath(entries, c, otherwise) == entries[i].path
  {
    var rest := entries[1..];
    assert forall j :: 0 <= j < |rest| ==> rest[j] == entries[j + 1];
    if i == 0 {
      NotNamedStays(rest, c, entries[0].path);
    } else {
      LastPathIsLast(rest, c, i - 1, if c in entries[0].controllers then entries[0].path else otherwise);
    }
  }

  lemma {:induction false} NotNamedStays(entries: seq<Entry>, c: string, otherwise: string)
    requires forall i :: 0 <= i < |entries| ==> c !in entries[i].controllers
    ensures LastPath(entries, c, otherwise) == otherwise
  {
    if entries != [] {
      NotNamedStays(entries[1..], c, otherwise);
    }
  }

  function Legacy(p: Paths, c: string): string {
    if c in p.legacy then p.legacy[c] else ""
  }

  /** What reading the lines of some entries adds to what was read before. */
  lemma {:induction false} ReadsAll(p: Paths, entries: seq<Entry>)
    requires forall i :: 0 <= i < |entries| ==> ValidEntry(entries[i])
    ensures ReadLines(p, LinesOf(entries)).Ok?
    ensures ReadLines(p, LinesOf(entries)).value.unified == LastUnified(entries, p.unified)
    ensures forall c :: c in ReadLines(p, LinesOf(entries)).value.legacy <==> c in p.legacy || Named(entries, c)
    ensures forall c :: Legacy(ReadLines(p, LinesOf(entries)).value, c) == LastPath(entries, c, Legacy(p, c))
    decreases |entries|
  {
    if entries != [] {
      var e, rest := entries[0], entries[1..];
      LineAdds(p, e);
      var p1 := WithLine(p, Line(e)).value;
      ReadsAll(p1, rest);
      assert LinesOf(entries)[1..] == LinesOf(rest) && LinesOf(entries)[0] == Line(e);
      var q := ReadLines(p1, LinesOf(rest)).value;
      assert ReadLines(p, LinesOf(entries)) == Ok(q);
      forall c
        ensures c in q.legacy <==> c in p.legacy || Named(entries, c)
        ensures Legacy(q, c) == LastPath(entries, c, Legacy(p, c))
      {
        NamedCons(entries, c);
        assert Legacy(p1, c) == if c in e.controllers then e.path else Legacy(p, c);
      }
    }
  }

  lemma {:induction false} FindsFirst(entries: seq<Entry>)
    requires forall i :: 0 <= i < |entries| ==> ValidEntry(entries[i])
    ensures FindUnified(LinesOf(entries)) ==
            if FirstUnified(entries).Some? then Ok(FirstUnified(entries).value) else Err(NotFound)
  {
    if entries != [] {
      LineParts(entries[0]);
      assert LinesOf(entries)[1..] == LinesOf(entries[1..]);
      FindsFirst(entries[1..]);
    }
  }

  /**
    * What both readers find in a file of valid entries: the whole file is accepted; each legacy controller has the
    * path of the last entry that names it; one reader takes the last unified entry, the other the first.
    */
  lemma {:induction false} ReadersFind(entries: seq<Entry>)
    requires forall i :: 0 <= i < |entries| ==> ValidEntry(entries[i])
    ensures ReadLines(Paths(map[], ""), RawLines(Text(entries))).Ok?
    ensures var q := ReadLines(Paths(map[], ""), RawLines(Text(entries))).value;
            && q.unified == LastUnified(entries, "")
            && (forall c :: c in q.legacy <==> Named(entries, c))
            && (forall c, i: nat :: IsLastNaming(entries, c, i) ==> c in q.legacy && q.legacy[c] == entries[i].path)
    ensures FindUnified(RawLines(Text(entries))) ==
            if FirstUnified(entries).Some? then Ok(FirstUnified(entries).value) else Err(NotFound)
  {
    TextLines(entries);
    ReadsAll(Paths(map[], ""), entries);
    FindsFirst(entries);
    var q := ReadLines(Paths(map[], ""), LinesOf(entries)).value;
    forall c, i: nat | IsLastNaming(entries, c, i)
      ensures c in q.legacy && q.legacy[c] == entries[i].path
    {
      assert Named(entries, c);
      LastPathIsLast(entries, c, i, "");
      assert Legacy(q, c) == q.legacy[c];
    }
  }

  /** The readers return the same unified path exactly when the first and the last unified entry have the same path. */
  lemma {:induction false} AgreeIff(entries: seq<Entry>)
    requires forall i :: 0 <= i < |entries| ==> ValidEntry(entries[i])
    requires FirstUnified(entries).Some?
    ensures ReadLines(Paths(map[], ""), RawLines(Text(entries))).Ok?
    ensures (FindUnified(RawLines(Text(entries)))
             == Ok(ReadLines(Paths(map[], ""), RawLines(Text(entries))).value.unified)) <==>
            FirstUnified(entries).value == LastUnified(entries, "")
  {
    ReadersFind(entries);
  }

  lemma {:induction false} NoUnified(entries: seq<Entry>, otherwise: string)
    requires forall i :: 0 <= i < |entries| ==> entries[i].controllers != []
    ensures FirstUnified(entries) == None && LastUnified(entries, otherwise) == otherwise
  {
    if entries != [] {
      NoUnified(entries[1..], otherwise);
    }
  }

  lemma {:induction false} OnlyUnified(entries: seq<Entry>, u: nat, otherwise: string)
    requires u < |entries| && entries[u].controllers == []
    requires forall i :: 0 <= i < |entries| && i != u ==> entries[i].controllers != []
    ensures FirstUnified(entries) == Some(entries[u].path) && LastUnified(entries, otherwise) == entries[u].path
    decreases u
  {
    if u == 0 {
      NoUnified(entries[1..], entries[0].path);
    } else {
      OnlyUnified(entries[1..], u - 1, otherwise);
    }
  }

  /** With exactly one unified entry, whatever its path contains, both readers return its path. */
  lemma {:induction false} ReadersAgree(entries: seq<Entry>, u: nat)
    requires forall i :: 0 <= i < |entries| ==> ValidEntry(entries[i])
    requires u < |entries| && entries[u].controllers == []
    requires forall i :: 0 <= i < |entries| && i != u ==> entries[i].controllers != []
    ensures FindUnified(RawLines(Text(entries))) == Ok(entries[u].path)
    ensures ReadLines(Paths(map[], ""), RawLines(Text(entries))).Ok?
    ensures ReadLines(Paths(map[], ""), RawLines(Text(entries))).value.unified == entries[u].path
  {
    ReadersFind(entries);
    OnlyUnified(entries, u, "");
  }

  // ----- Any text -----

  /** The lines of a text: a line break ends a line, and a last line may go without. */
  lemma RawLinesExact(text: string)
    ensures AllFree(RawLines(text), '\n')
    ensures text == "" ==> RawLines(text) == []
    ensures text != "" && text[|text| - 1] == '\n' ==> text == Join(RawLines(text) + [""], '\n')
    ensures text != "" && text[|text| - 1] != '\n' ==> text == Join(RawLines(text), '\n')
  {
    var lines := Split(text, '\n');
    JoinOfSplit(text, '\n');
    LastPart(text, '\n');
    if lines[|lines| - 1] == "" {
      assert lines == lines[..|lines| - 1] + [""];
    }
  }

  /** The last part of a split text is empty exactly when the text is, or ends with the separator. */
  lemma {:induction false} LastPart(s: string, sep: char)
    ensures var parts := Split(s, sep);
            parts[|parts| - 1] == "" <==> s == "" || s[|s| - 1] == sep
    ensures s == "" ==> Split(s, sep) == [""]
  {
    if |s| > 1 {
      LastPart(s[1..], sep);
      assert s[1..][|s[1..]| - 1] == s[|s| - 1];
    } else if |s| == 1 {
      assert s[1..] == "";
      assert Split(s[1..], sep) == [""];
    }
  }

  /** The line reads t: one carriage return at its end does not count. */
  ghost predicate IsText(line: string, t: string) {
    (line == t && (t == "" || t[|t| - 1] != '\r')) || line == t + ['\r']
  }

  /** The line reads id:names:path, where the path may contain anything. */
  ghost predicate Spells(line: string, id: string, names: string, path: string) {
    Free(id, ':') && Free(names, ':') && IsText(line, id + [':'] + (names + [':'] + path))
  }

  ghost predicate TwoColons(line: string) {
    exists i, j :: 0 <= i < j < |line| && line[i] == ':' && line[j] == ':'
  }

  lemma ChopIsText(line: string)
    ensures forall t :: IsText(line, t) <==> t == Chop(line)
  {
    forall t
      ensures IsText(line, t) <==> t == Chop(line)
    {
      if line == t + ['\r'] {
        assert line[|line| - 1] == '\r' && line[..|line| - 1] == t;
      }
      if line != "" && line[|line| - 1] == '\r' {
        assert line == line[..|line| - 1] + ['\r'];
      }
    }
  }

  lemma {:induction false} CutExact(s: string, sep: char)
    ensures var (before, after, found) := Cut(s, sep);
            && Free(before, sep) && (found <==> !Free(s, sep))
            && s == if found then before + [sep] + after else before
  {
    if s != "" && s[0] != sep {
      CutExact(s[1..], sep);
      var (before, after, found) := Cut(s[1..], sep);
      assert s == [s[0]] + s[1..];
      if !Free(s, sep) {
        var i :| 0 <= i < |s| && s[i] == sep;
        assert s[1..][i - 1] == sep;
      }
    }
  }

  /** A text with two colons has three parts, and no other has. */
  lemma ThreeParts(t: string)
    ensures |SplitN(t, ':', 3)| == 3 <==> TwoColons(t)
    ensures var parts := SplitN(t, ':', 3);
            |parts| == 3 ==> && Free(parts[0], ':') && Free(parts[1], ':')
                             && t == parts[0] + [':'] + (parts[1] + [':'] + parts[2])
  {
    CutExact(t, ':');
    var (a, rest, found) := Cut(t, ':');
    if found {
      CutExact(rest, ':');
      var (b, c, again) := Cut(rest, ':');
      assert SplitN(rest, ':', 2) == if again then [b, c] else [rest];
      if again {
        assert t[|a|] == ':' && t[|a| + 1 + |b|] == ':';
      }
    }
  }

  lemma ThreePartsOnly(t: string, id: string, names: string, path: string)
    requires Free(id, ':') && Free(names, ':') && t == id + [':'] + (names + [':'] + path)
    ensures SplitN(t, ':', 3) == [id, names, path]
  {
    var rest := names + [':'] + path;
    CutAt(id, ':', rest);
    CutAt(names, ':', path);
    assert SplitN(rest, ':', 2) == [names] + SplitN(path, ':', 1);
    assert SplitN(t, ':', 3) == [id] + SplitN(rest, ':', 2);
  }

  /** The reader of all entries takes the line. */
  ghost predicate Taken(line: string) {
    |line| < 65536 && TwoColons(line)
  }

  lemma ColonsOfText(line: string, t: string)
    requires IsText(line, t)
    ensures TwoColons(line) <==> TwoColons(t)
  {
    assert forall i :: 0 <= i < |t| ==> line[i] == t[i];
  }

  /** What one line does: it is refused, or it sets the path of every name between the first two colons. */
  lemma LineExact(p: Paths, line: string)
    ensures WithLine(p, line).Ok? <==> Taken(line)
    ensures |line| >= 65536 ==> WithLine(p, line) == Err(TooLong)
    ensures |line| < 65536 && !TwoColons(line) ==>
              forall t :: IsText(line, t) ==> WithLine(p, line) == Err(InvalidEntry(t))
    ensures |line| < 65536 ==> forall id, names, path :: Spells(line, id, names, path) ==>
              WithLine(p, line) == Ok(WithControllers(p, Split(names, ','), path))
  {
    var t := Chop(line);
    ChopIsText(line);
    ColonsOfText(line, t);
    ThreeParts(t);
    forall id, names, path | Spells(line, id, names, path)
      ensures SplitN(t, ':', 3) == [id, names, path]
    {
      ThreePartsOnly(t, id, names, path);
    }
  }

  /** Every line that is taken has its three parts. */
  lemma TakenSpells(line: string) returns (id: string, names: string, path: string)
    requires Taken(line)
    ensures Spells(line, id, names, path)
  {
    var t := Chop(line);
    ChopIsText(line);
    ColonsOfText(line, t);
    ThreeParts(t);
    var parts := SplitN(t, ':', 3);
    id, names, path := parts[0], parts[1], parts[2];
  }

  lemma {:induction false} ReadConcat(p: Paths, a: seq<string>, b: seq<string>)
    requires ReadLines(p, a).Ok?
    ensures ReadLines(p, a + b) == ReadLines(ReadLines(p, a).value, b)
    decreases |a|
  {
    if a == [] {
      assert a + b == b;
    } else {
      assert (a + b)[0] == a[0] && (a + b)[1..] == a[1..] + b;
      ReadConcat(WithLine(p, a[0]).value, a[1..], b);
    }
  }

  lemma {:induction false} AllTaken(p: Paths, lines: seq<string>)
    requires forall i :: 0 <= i < |lines| ==> Taken(lines[i])
    ensures ReadLines(p, lines).Ok?
    decreases |lines|
  {
    if lines != [] {
      LineExact(p, lines[0]);
      AllTaken(WithLine(p, lines[0]).value, lines[1..]);
    }
  }

  /**
    * Exactly when a text is refused, and why: the first line that is too long or has fewer than two colons decides,
    * and there is such a line.
    */
  lemma {:induction false} RefusedIff(lines: seq<string>)
    ensures ReadLines(Paths(map[], ""), lines).Ok? <==> forall i :: 0 <= i < |lines| ==> Taken(lines[i])
    ensures forall i :: 0 <= i < |lines| && !Taken(lines[i]) && (forall j :: 0 <= j < i ==> Taken(lines[j])) ==>
              RefusedAt(ReadLines(Paths(map[], ""), lines), lines[i])
  {
    var start := Paths(map[], "");
    if forall i :: 0 <= i < |lines| ==> Taken(lines[i]) {
      AllTaken(start, lines);
    }
    forall i | 0 <= i < |lines| && !Taken(lines[i]) && forall j :: 0 <= j < i ==> Taken(lines[j])
      ensures RefusedAt(ReadLines(start, lines), lines[i])
    {
      FirstDecides(start, lines, i);
    }
    if i :| 0 <= i < |lines| && !Taken(lines[i]) {
      var k := FirstNotTaken(lines, i);
      FirstDecides(start, lines, k);
    }
  }

  lemma {:induction false} FirstDecides(p: Paths, lines: seq<string>, i: nat)
    requires i < |lines| && !Taken(lines[i]) && forall j :: 0 <= j < i ==> Taken(lines[j])
    ensures ReadLines(p, lines).Err? && RefusedAt(ReadLines(p, lines), lines[i])
  {
    hide WithLine;
    var a, b := lines[..i], lines[i + 1..];
    AllTaken(p, a);
    var before := ReadLines(p, a).value;
    ReadConcat(p, a, [lines[i]] + b);
    assert lines == a + ([lines[i]] + b);
    LineExact(before, lines[i]);
    ReadRefused(before, lines[i], b);
  }

  ghost predicate RefusedAt(r: Result<Paths, Error>, line: string) {
    if |line| >= 65536 then r == Err(TooLong) else forall t :: IsText(line, t) ==> r == Err(InvalidEntry(t))
  }

  lemma {:induction false} FirstNotTaken(lines: seq<string>, i: nat) returns (k: nat)
    requires i < |lines| && !Taken(lines[i])
    ensures k <= i && !Taken(lines[k]) && forall j :: 0 <= j < k ==> Taken(lines[j])
  {
    if forall j :: 0 <= j < i ==> Taken(lines[j]) {
      k := i;
    } else {
      var j :| 0 <= j < i && !Taken(lines[j]);
      k := FirstNotTaken(lines, j);
    }
  }

  // ----- What any accepted text says -----

  /** The line gives this path to the name; the empty name is the unified hierarchy. */
  ghost predicate Gives(line: string, name: string, path: string) {
    exists id, names :: Spells(line, id, names, path) && name in Split(names, ',')
  }

  /** The path of a legacy controller, or of the unified hierarchy. */
  function Look(p: Paths, name: string): Option<string> {
    if name == "" then Some(p.unified) else if name in p.legacy then Some(p.legacy[name]) else None
  }

  lemma {:induction false} ControllersSet(p: Paths, names: seq<string>, path: string, name: string)
    ensures Look(WithControllers(p, names, path), name) == if name in names then Some(path) else Look(p, name)
  {
    if names != [] {
      var n := |names| - 1;
      ControllersSet(p, names[..n], path, name);
      assert names == names[..n] + [names[n]];
    }
  }

  lemma LineLooks(p: Paths, line: string, name: string)
    requires Taken(line)
    ensures WithLine(p, line).Ok?
    ensures forall path :: Gives(line, name, path) ==> Look(WithLine(p, line).value, name) == Some(path)
    ensures (forall path :: !Gives(line, name, path)) ==> Look(WithLine(p, line).value, name) == Look(p, name)
  {
    LineExact(p, line);
    var id, names, path := TakenSpells(line);
    ControllersSet(p, Split(names, ','), path, name);
    forall path' | Gives(line, name, path')
      ensures Look(WithLine(p, line).value, name) == Some(path')
    {
      var id', names' :| Spells(line, id', names', path') && name in Split(names', ',');
      ControllersSet(p, Split(names', ','), path', name);
    }
    if name in Split(names, ',') {
      assert Gives(line, name, path);
    }
  }

  lemma {:induction false} NotGivenStays(p: Paths, lines: seq<string>, name: string)
    requires forall i :: 0 <= i < |lines| ==> Taken(lines[i])
    requires forall i, path :: 0 <= i < |lines| ==> !Gives(lines[i], name, path)
    ensures ReadLines(p, lines).Ok? && Look(ReadLines(p, lines).value, name) == Look(p, name)
    decreases |lines|
  {
    if lines != [] {
      LineLooks(p, lines[0], name);
      assert forall path :: !Gives(lines[0], name, path);
      NotGivenStays(WithLine(p, lines[0]).value, lines[1..], name);
    }
  }

  /**
    * What the reader of all entries finds in any text that it accepts: for every controller, and for the unified
    * hierarchy, the path of the last line that names it; nothing, and the empty path, if no line does.
    */
  lemma {:induction false} LastLineDecides(lines: seq<string>, name: string)
    requires forall i :: 0 <= i < |lines| ==> Taken(lines[i])
    ensures ReadLines(Paths(map[], ""), lines).Ok?
    ensures forall i, path :: IsLastGiving(lines, name, i, path) ==>
              Look(ReadLines(Paths(map[], ""), lines).value, name) == Some(path)
    ensures (forall i, path :: 0 <= i < |lines| ==> !Gives(lines[i], name, path)) ==>
              Look(ReadLines(Paths(map[], ""), lines).value, name) == if name == "" then Some("") else None
  {
    var start := Paths(map[], "");
    AllTaken(start, lines);
    if forall i, path :: 0 <= i < |lines| ==> !Gives(lines[i], name, path) {
      NotGivenStays(start, lines, name);
    }
    forall i, path | IsLastGiving(lines, name, i, path)
      ensures Look(ReadLines(start, lines).value, name) == Some(path)
    {
      LastGivingDecides(start, lines, name, i, path);
    }
  }

  lemma {:induction false} LastGivingDecides(p: Paths, lines: seq<string>, name: string, i: nat, path: string)
    requires (forall j :: 0 <= j < |lines| ==> Taken(lines[j])) && IsLastGiving(lines, name, i, path)
    ensures ReadLines(p, lines).Ok? && Look(ReadLines(p, lines).value, name) == Some(path)
  {
    hide Taken, Gives, Look, WithLine;
    var a, b := lines[..i], lines[i + 1..];
    AllTaken(p, a);
    var before := ReadLines(p, a).value;
    ReadConcat(p, a, [lines[i]] + b);
    assert lines == a + ([lines[i]] + b);
    LineLooks(before, lines[i], name);
    ReadOne(before, lines[i], b);
    NotGivenStays(WithLine(before, lines[i]).value, b, name);
  }

  lemma ReadOne(p: Paths, line: string, rest: seq<string>)
    requires WithLine(p, line).Ok?
    ensures ReadLines(p, [line] + rest) == ReadLines(WithLine(p, line).value, rest)
  {
    assert ([line] + rest)[1..] == rest;
  }

  lemma ReadRefused(p: Paths, line: string, rest: seq<string>)
    requires WithLine(p, line).Err?
    ensures ReadLines(p, [line] + rest) == Err(WithLine(p, line).error)
  {
  }

  ghost predicate IsLastGiving(lines: seq<string>, name: string, i: int, path: string) {
    && 0 <= i < |lines| && Gives(lines[i], name, path)
    && forall j, other :: i < j < |lines| ==> !Gives(lines[j], name, other)
  }

  /** The line names the unified hierarchy in the form that the other reader looks for. */
  ghost predicate GivesUnified(line: string, path: string) {
    IsText(line, "0::" + path)
  }

  /** The reader of the unified path passes over the line. */
  ghost predicate Passed(line: string) {
    |line| < 65536 && forall path :: !GivesUnified(line, path)
  }

  lemma OneUnified(line: string)
    ensures HasPrefix(Chop(line), "0::") ==> GivesUnified(line, Chop(line)[3..])
    ensures forall path :: GivesUnified(line, path) ==> HasPrefix(Chop(line), "0::") && Chop(line)[3..] == path
  {
    ChopIsText(line);
    if HasPrefix(Chop(line), "0::") {
      assert Chop(line) == "0::" + Chop(line)[3..];
    }
  }

  /**
    * What the reader of the unified path finds in any text: the first line that it does not pass over decides, by its
    * path or by being too long; without such a line nothing is found.
    */
  lemma {:induction false} FirstLineDecides(lines: seq<string>)
    ensures (forall i :: 0 <= i < |lines| ==> Passed(lines[i])) ==> FindUnified(lines) == Err(NotFound)
    ensures forall i :: 0 <= i < |lines| && !Passed(lines[i]) && (forall j :: 0 <= j < i ==> Passed(lines[j])) ==>
              if |lines[i]| >= 65536 then FindUnified(lines) == Err(TooLong)
              else exists path :: GivesUnified(lines[i], path) && FindUnified(lines) == Ok(path)
    decreases |lines|
  {
    if lines != [] {
      var rest := lines[1..];
      OneUnified(lines[0]);
      FirstLineDecides(rest);
      assert forall i :: 0 < i < |lines| ==> lines[i] == rest[i - 1];
      forall i | 0 <= i < |lines| && !Passed(lines[i]) && forall j :: 0 <= j < i ==> Passed(lines[j])
        ensures if |lines[i]| >= 65536 then FindUnified(lines) == Err(TooLong)
                else exists path :: GivesUnified(lines[i], path) && FindUnified(lines) == Ok(path)
      {
        if i > 0 {
          assert Passed(lines[0]);
          assert rest[i - 1] == lines[i];
        }
      }
    }
  }
}
