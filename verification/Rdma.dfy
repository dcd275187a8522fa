/** RDMA limits: how an entry is printed, and how the lines of rdma.current are read into entries. */
module Rdma {
  import opened Words
  import opened Wrappers
  import opened Strings
  import opened Strconv

  const MAX_UINT32: nat := 0xFFFF_FFFF

  type Uint32 = n: nat | n < 0x1_0000_0000

  datatype Entry = Entry(device: string, hcaHandles: Uint32, hcaObjects: Uint32)

  /** RDMAEntry.String. */
  function EntryString(e: Entry): string {
    e.device + " hca_handle=" + FormatUint(e.hcaHandles) + " hca_object=" + FormatUint(e.hcaObjects)
  }

  /** The value of a limit; None when it is malformed. */
  function LimitValue(v: string): (r: Option<Uint32>) {
    if v == "max" then Some(MAX_UINT32)
    else
      ParseClampedExact(v, TWO_31);
      match ParseClamped(v, TWO_31)
      case Err(_) => None
      case Ok(n) => Some(n)
  }

  /** The entry after one key=value field; malformed fields and unknown keys change nothing. */
  function WithField(e: Entry, raw: string): Entry {
    var (k, v, found) := Cut(raw, '=');
    if !found || LimitValue(v) == None then e
    else if k == "hca_handle" then e.(hcaHandles := LimitValue(v).value)
    else if k == "hca_object" then e.(hcaObjects := LimitValue(v).value)
    else e
  }

  /** The entries of the lines that have exactly three fields. */
  function Entries(lines: seq<string>): seq<Entry> {
    if lines == [] then []
    else
      var parts := Fields(lines[|lines| - 1]);
      Entries(lines[..|lines| - 1]) +
      (if |parts| == 3 then [EntryOf(parts)] else [])
  }

  /** An entry of the statistics, filled in field by field. */
  class StatsEntry {
    var device: string
    var hcaHandles: Uint32
    var hcaObjects: Uint32

    constructor (device: string)
      ensures Value() == Entry(device, 0, 0)
    {
      this.device, hcaHandles, hcaObjects := device, 0, 0;
    }

    function Value(): Entry
      reads this
    {
      Entry(device, hcaHandles, hcaObjects)
    }
  }

  method ParseRdmaKV(raw: string, entry: StatsEntry)
    modifies entry
    ensures entry.Value() == WithField(old(entry.Value()), raw)
  {
    var (k, v, found) := Cut(raw, '=');
    if !found {
      return;
    }
    var value: Uint32 := 0;
    if v == "max" {
      value := MAX_UINT32;
    } else {
      var parsed := ParseClamped(v, TWO_31);
      if parsed.Err? {
        return;
      }
      ParseClampedExact(v, TWO_31);
      value := parsed.value;
    }
    match k {
      case "hca_handle" => entry.hcaHandles := value;
      case "hca_object" => entry.hcaObjects := value;
      case _ =>
    }
  }

  function Values(entries: seq<StatsEntry>): (r: seq<Entry>)
    reads entries
    ensures |r| == |entries| && forall i :: 0 <= i < |r| ==> r[i] == entries[i].Value()
  {
    if entries == [] then [] else Values(entries[..|entries| - 1]) + [entries[|entries| - 1].Value()]
  }

  function EntryOf(parts: seq<string>): Entry
    requires |parts| == 3
  {
    WithField(WithField(Entry(parts[0], 0, 0), parts[1]), parts[2])
  }

  method ToEntry(parts: seq<string>) returns (entry: StatsEntry)
    requires |parts| == 3
    ensures fresh(entry) && entry.Value() == EntryOf(parts)
  {
    entry := new StatsEntry(parts[0]);
    ParseRdmaKV(parts[1], entry);
    ParseRdmaKV(parts[2], entry);
  }

  lemma ValuesSnoc(entries: seq<StatsEntry>, entry: StatsEntry)
    ensures Values(entries + [entry]) == Values(entries) + [entry.Value()]
  {
    assert (entries + [entry])[..|entries|] == entries;
  }

  lemma EntriesSnoc(lines: seq<string>, i: nat)
    requires i < |lines|
    ensures Entries(lines[..i + 1]) ==
            Entries(lines[..i]) + (if |Fields(lines[i])| == 3 then [EntryOf(Fields(lines[i]))] else [])
  {
    assert lines[..i + 1][..i] == lines[..i];
  }

  method ToRdmaEntry(strEntries: seq<string>) returns (rdmaEntries: seq<StatsEntry>)
    ensures fresh(rdmaEntries)
    ensures Values(rdmaEntries) == Entries(strEntries)
  {
    rdmaEntries := [];
    for i := 0 to |strEntries|
      invariant fresh(rdmaEntries)
      invariant Values(rdmaEntries) == Entries(strEntries[..i])
    {
      var parts := Fields(strEntries[i]);
      EntriesSnoc(strEntries, i);
      if |parts| == 3 {
        var entry := ToEntry(parts);
        ValuesSnoc(rdmaEntries, entry);
        rdmaEntries := rdmaEntries + [entry];
      }
    }
    assert strEntries[..|strEntries|] == strEntries;
  }

  // ----- Round trip -----

  predicate IsDevice(s: string) {
    s != "" && NoSpace(s)
  }

  lemma DigitsNoSpace(s: string)
    requires AllDigits(s)
    ensures NoSpace(s)
  {
  }

  lemma NumberReadsBack(n: Uint32)
    ensures LimitValue(FormatUint(n)) == Some(n)
  {
    ParseClampedOfFormat(n, TWO_31);
    assert IsDigit(FormatUint(n)[0]) && "max"[0] == 'm';
  }

  /** A word, a space and more words. */
  lemma FieldsCons(w: string, rest: string)
    requires IsDevice(w)
    ensures Fields(w + (" " + rest)) == [w] + Fields(rest)
  {
    FieldsWord(w, " " + rest);
    SpaceThen(rest);
  }

  lemma FieldIsWord(key: string, n: nat)
    requires NoSpace(key) && key != ""
    ensures IsDevice(key + FormatUint(n))
  {
    DigitsNoSpace(FormatUint(n));
  }

  lemma FieldsOfEntry(e: Entry)
    requires IsDevice(e.device)
    ensures Fields(EntryString(e)) ==
            [e.device, "hca_handle=" + FormatUint(e.hcaHandles), "hca_object=" + FormatUint(e.hcaObjects)]
    ensures EntryString(e) == Join(Fields(EntryString(e)), ' ')
  {
    var h, o := "hca_handle=" + FormatUint(e.hcaHandles), "hca_object=" + FormatUint(e.hcaObjects);
    FieldIsWord("hca_handle=", e.hcaHandles);
    FieldIsWord("hca_object=", e.hcaObjects);
    EntryStringParts(e);
    FieldsWord(o, "");
    assert o + "" == o;
    FieldsCons(h, o);
    FieldsCons(e.device, h + (" " + o));
    JoinThreeWords(e.device, h, o);
  }

  lemma JoinThreeWords(a: string, b: string, c: string)
    ensures Join([a, b, c], ' ') == a + (" " + (b + (" " + c)))
  {
    assert [a, b, c][1..] == [b, c] && [b, c][1..] == [c];
    assert Join([b, c], ' ') == b + [' '] + Join([c], ' ');
    assert Join([a, b, c], ' ') == a + [' '] + Join([b, c], ' ');
  }

  lemma EntryStringParts(e: Entry)
    ensures EntryString(e) ==
            e.device + (" " + (("hca_handle=" + FormatUint(e.hcaHandles))
                               + (" " + ("hca_object=" + FormatUint(e.hcaObjects)))))
  {
    var d, h, o := e.device, FormatUint(e.hcaHandles), FormatUint(e.hcaObjects);
    assert " " + "hca_handle=" == " hca_handle=" && " " + "hca_object=" == " hca_object=";
    assert d + " hca_handle=" + h + " hca_object=" + o == d + (" hca_handle=" + (h + (" hca_object=" + o)));
    assert " hca_handle=" + (h + (" hca_object=" + o)) == " " + (("hca_handle=" + h) + (" " + ("hca_object=" + o)));
  }

  lemma SpaceThen(s: string)
    ensures Fields(" " + s) == Fields(s)
  {
    assert (" " + s)[1..] == s;
  }

  lemma HandlesField(e: Entry, n: Uint32)
    ensures WithField(e, "hca_handle=" + FormatUint(n)) == e.(hcaHandles := n)
  {
    hide LimitValue;
    NumberReadsBack(n);
    CutAt("hca_handle", '=', FormatUint(n));
    assert "hca_handle" + ['='] + FormatUint(n) == "hca_handle=" + FormatUint(n);
  }

  lemma ObjectsField(e: Entry, n: Uint32)
    ensures WithField(e, "hca_object=" + FormatUint(n)) == e.(hcaObjects := n)
  {
    hide LimitValue;
    NumberReadsBack(n);
    CutAt("hca_object", '=', FormatUint(n));
    assert "hca_object" + ['='] + FormatUint(n) == "hca_object=" + FormatUint(n);
  }

  lemma FieldsRestoreEntry(e: Entry)
    ensures WithField(WithField(Entry(e.device, 0, 0), "hca_handle=" + FormatUint(e.hcaHandles)),
                      "hca_object=" + FormatUint(e.hcaObjects)) == e
  {
    hide WithField, FormatUint;
    HandlesField(Entry(e.device, 0, 0), e.hcaHandles);
    ObjectsField(Entry(e.device, e.hcaHandles, 0), e.hcaObjects);
  }

  function Lines(es: seq<Entry>): (r: seq<string>)
    ensures |r| == |es| && forall i :: 0 <= i < |r| ==> r[i] == EntryString(es[i])
  {
    if es == [] then [] else Lines(es[..|es| - 1]) + [EntryString(es[|es| - 1])]
  }

  ghost predicate Reads(line: string, e: Entry) {
    |Fields(line)| == 3 && EntryOf(Fields(line)) == e
  }

  lemma LineReadsBack(e: Entry)
    requires IsDevice(e.device)
    ensures Reads(EntryString(e), e)
  {
    FieldsOfEntry(e);
    FieldsRestoreEntry(e);
  }

  lemma {:induction false} LinesReadBack(es: seq<Entry>, lines: seq<string>, n: nat)
    requires n <= |es| == |lines|
    requires forall i :: 0 <= i < |es| ==> Reads(lines[i], es[i])
    ensures Entries(lines[..n]) == es[..n]
  {
    if n > 0 {
      LinesReadBack(es, lines, n - 1);
      EntriesSnoc(lines, n - 1);
      assert Reads(lines[n - 1], es[n - 1]);
      assert es[..n] == es[..n - 1] + [es[n - 1]];
    }
  }

  lemma {:induction false} EntriesHaveDevices(lines: seq<string>)
    ensures forall i :: 0 <= i < |Entries(lines)| ==> IsDevice(Entries(lines)[i].device)
  {
    if lines != [] {
      EntriesHaveDevices(lines[..|lines| - 1]);
      FieldsAreWords(lines[|lines| - 1]);
    }
  }

  lemma EntryIsOneLine(e: Entry)
    requires IsDevice(e.device)
    ensures Free(EntryString(e), '\n')
  {
    DigitsNoSpace(FormatUint(e.hcaHandles));
    DigitsNoSpace(FormatUint(e.hcaObjects));
  }

  lemma {:induction false} LinesCarryEntries(es: seq<Entry>)
    requires forall i :: 0 <= i < |es| ==> IsDevice(es[i].device)
    ensures AllFree(Lines(es), '\n')
    ensures forall i :: 0 <= i < |es| ==> Reads(Lines(es)[i], es[i])
  {
    var lines := Lines(es);
    forall i | 0 <= i < |es|
      ensures Free(lines[i], '\n') && Reads(lines[i], es[i])
    {
      EntryIsOneLine(es[i]);
      LineReadsBack(es[i]);
    }
  }

  lemma JoinedLinesReadBack(es: seq<Entry>, lines: seq<string>)
    requires 0 < |es| == |lines| && AllFree(lines, '\n')
    requires forall i :: 0 <= i < |es| ==> Reads(lines[i], es[i])
    ensures Entries(Split(Join(lines, '\n'), '\n')) == es
  {
    SplitOfJoin(lines, '\n');
    LinesReadBack(es, lines, |es|);
    assert lines[..|es|] == lines && es[..|es|] == es;
  }

  lemma {:induction false} RoundTrip(es: seq<Entry>)
    requires es != [] && forall i :: 0 <= i < |es| ==> IsDevice(es[i].device)
    ensures Entries(Split(Join(Lines(es), '\n'), '\n')) == es
  {
    LinesCarryEntries(es);
    JoinedLinesReadBack(es, Lines(es));
  }

  lemma NothingReadsBack()
    ensures Entries(Split(Join(Lines([]), '\n'), '\n')) == []
  {
    assert Split("", '\n') == [""];
    EntriesSnoc([""], 0);
    assert [""][..1] == [""] && [""][..0] == [];
  }

  /**
    * The round trip, and exactly when it holds: printing a list, joining it by line breaks and reading it again gives
    * the same list if and only if every device name is non-empty and free of white space.
    */
  lemma {:induction false} RoundTripIff(es: seq<Entry>)
    ensures Entries(Split(Join(Lines(es), '\n'), '\n')) == es <==> forall i :: 0 <= i < |es| ==> IsDevice(es[i].device)
  {
    if es == [] {
      NothingReadsBack();
    } else if forall i :: 0 <= i < |es| ==> IsDevice(es[i].device) {
      RoundTrip(es);
    } else {
      EntriesHaveDevices(Split(Join(Lines(es), '\n'), '\n'));
    }
  }

  // ----- Exactly what is read -----

  /** The text stands for the limit n: "max" for the greatest, a decimal for its value, a negative decimal for zero. */
  ghost predicate Limit(v: string, n: nat) {
    || (v == "max" && n == 0xFFFF_FFFF)
    || (v != "" && AllDigits(v) && n == Value(0, v) && n < 0x1_0000_0000)
    || (NegativeDecimal(v, 0xFFFF_FFFF) && n == 0)
  }

  lemma LimitExact(v: string, n: Uint32)
    ensures LimitValue(v) == Some(n) <==> Limit(v, n)
    ensures LimitValue(v) == None <==> forall m: nat :: !Limit(v, m)
  {
    ParseClampedExact(v, TWO_31);
    if LimitValue(v).Some? {
      assert Limit(v, LimitValue(v).value);
    }
    assert "max"[0] == 'm';
  }

  /**
    * Exactly what one field does. Without an equals sign, or when what follows the first one is no limit, nothing. A
    * limit of a known key is set, whatever it was; a limit of any other key does nothing.
    */
  lemma FieldExact(e: Entry, raw: string)
    ensures Free(raw, '=') ==> WithField(e, raw) == e
    ensures forall k, v, n: nat :: IsField(raw, k, v) && Limit(v, n) ==>
              WithField(e, raw) == if k == "hca_handle" then Entry(e.device, n, e.hcaObjects)
                                   else if k == "hca_object" then Entry(e.device, e.hcaHandles, n)
                                   else e
    ensures forall k, v :: IsField(raw, k, v) && (forall n: nat :: !Limit(v, n)) ==> WithField(e, raw) == e
  {
    if Free(raw, '=') {
      CutFree(raw, '=');
    }
    forall k, v | IsField(raw, k, v)
      ensures Cut(raw, '=') == (k, v, true)
    {
      CutAt(k, '=', v);
    }
    forall k, v, n: nat | IsField(raw, k, v) && Limit(v, n)
      ensures LimitValue(v) == Some(n)
    {
      LimitExact(v, n);
    }
    forall k, v | IsField(raw, k, v) && forall n: nat :: !Limit(v, n)
      ensures LimitValue(v) == None
    {
      LimitExact(v, 0);
    }
  }

  /** The first equals sign separates k and v. */
  ghost predicate IsField(raw: string, k: string, v: string) {
    Free(k, '=') && raw == k + ['='] + v
  }

  /** Lines are read one by one, and a line without exactly three words leaves no trace. */
  lemma {:induction false} EntriesConcat(a: seq<string>, b: seq<string>)
    ensures Entries(a + b) == Entries(a) + Entries(b)
    decreases |b|
  {
    if b == [] {
      assert a + b == a;
    } else {
      var n := |b| - 1;
      EntriesConcat(a, b[..n]);
      assert (a + b)[..|a + b| - 1] == a + b[..n] && (a + b)[|a + b| - 1] == b[n];
    }
  }

  lemma OneLine(line: string)
    ensures |Entries([line])| <= 1
    ensures |Fields(line)| != 3 ==> Entries([line]) == []
    ensures |Fields(line)| == 3 ==> Entries([line]) == [EntryOf(Fields(line))]
  {
    assert [line][..0] == [];
  }

  /** The two fields may come in either order. */
  lemma FieldsCommute(d: string, h: string, o: string, n: nat, m: nat)
    requires Limit(h, n) && Limit(o, m)
    ensures EntryOf([d, "hca_handle=" + h, "hca_object=" + o]) == Entry(d, n, m)
    ensures EntryOf([d, "hca_object=" + o, "hca_handle=" + h]) == Entry(d, n, m)
  {
    hide WithField, Limit, IsField;
    var hf, of := "hca_handle=" + h, "hca_object=" + o;
    LimitIsSmall(h, n);
    LimitIsSmall(o, m);
    KeyIsField("hca_handle", h);
    KeyIsField("hca_object", o);
    assert "hca_handle" + "=" == "hca_handle=" && "hca_object" + "=" == "hca_object=";
    FieldExact(Entry(d, 0, 0), hf);
    FieldExact(Entry(d, n, 0), of);
    FieldExact(Entry(d, 0, 0), of);
    FieldExact(Entry(d, 0, m), hf);
  }

  /** A line of a device and its two limits, in either order, is read as the two numbers they stand for. */
  lemma LineExact(d: string, h: string, o: string, n: nat, m: nat)
    requires IsDevice(d) && NoSpace(h) && NoSpace(o) && Limit(h, n) && Limit(o, m)
    ensures Entries([d + (" " + (("hca_handle=" + h) + (" " + ("hca_object=" + o))))]) == [Entry(d, n, m)]
    ensures Entries([d + (" " + (("hca_object=" + o) + (" " + ("hca_handle=" + h))))]) == [Entry(d, n, m)]
  {
    var hf, of := "hca_handle=" + h, "hca_object=" + o;
    assert IsDevice(hf) && IsDevice(of);
    hide EntryOf, Limit, Entries, IsDevice, NoSpace;
    FieldsCommute(d, h, o, n, m);
    ThreeWords(d, hf, of);
    ThreeWords(d, of, hf);
    OneLine(d + (" " + (hf + (" " + of))));
    OneLine(d + (" " + (of + (" " + hf))));
  }

  lemma LimitIsSmall(v: string, n: nat)
    requires Limit(v, n)
    ensures n < 0x1_0000_0000
  {
  }

  lemma KeyIsField(k: string, v: string)
    requires k == "hca_handle" || k == "hca_object"
    ensures IsField(k + "=" + v, k, v)
  {
    assert k + "=" + v == k + ['='] + v;
  }

  lemma ThreeWords(a: string, b: string, c: string)
    requires IsDevice(a) && IsDevice(b) && IsDevice(c)
    ensures Fields(a + (" " + (b + (" " + c)))) == [a, b, c]
  {
    FieldsWord(c, "");
    assert c + "" == c;
    FieldsCons(b, c);
    FieldsCons(a, b + (" " + c));
  }

  lemma UnlimitedText()
    ensures " hca_handle=max hca_object=max" == " " + (("hca_handle=" + "max") + (" " + ("hca_object=" + "max")))
  {
    assert "hca_handle=" + "max" == "hca_handle=max" && "hca_object=" + "max" == "hca_object=max";
    assert " " + ("hca_handle=max" + (" " + "hca_object=max")) == " hca_handle=max hca_object=max";
  }

  /** A device without limits, as rdma.max shows it. */
  lemma UnlimitedLine(d: string)
    requires IsDevice(d)
    ensures Entries([d + " hca_handle=max hca_object=max"]) == [Entry(d, 0xFFFF_FFFF, 0xFFFF_FFFF)]
  {
    assert NoSpace("max") && Limit("max", 0xFFFF_FFFF);
    hide Entries, IsDevice, NoSpace, Limit;
    LineExact(d, "max", "max", 0xFFFF_FFFF, 0xFFFF_FFFF);
    UnlimitedText();
  }
}
