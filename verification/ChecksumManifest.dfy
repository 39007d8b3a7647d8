/** The SHA256SUMS file: the text the release build writes and the one its verifier reads. */
module ChecksumManifest {
  import opened Prelude
  import opened Ordering
  import opened Text

  const MANIFEST_NAME := "SHA256SUMS"
  const MAXIMUM_SIZE := 1024 * 1024
  const DIGEST_LENGTH := 64

  datatype ManifestError =
    | TooLarge | NotAscii | NoFinalNewline
    | InvalidLine(line: string) | DuplicateOrRecursive(name: string) | NotSorted

  // ----- Characters and lines ----------------------------------------------------------

  predicate IsDigit(c: char) { '0' <= c <= '9' }
  predicate IsLetter(c: char) { 'a' <= c <= 'z' || 'A' <= c <= 'Z' }
  predicate IsNameChar(c: char) { IsDigit(c) || IsLetter(c) || c == '.' || c == '_' || c == '-' }

  predicate LegalName(name: string) {
    && name != "" && (IsDigit(name[0]) || IsLetter(name[0]))
    && forall c :: c in name ==> IsNameChar(c)
  }

  predicate Ascii(raw: string) { forall c :: c in raw ==> c as int < 128 }

  /** The characters that end a line for `str.splitlines`, other than a carriage return. */
  predicate IsBreak(c: char) { c == '\n' || IsOddBreak(c) }

  predicate IsOddBreak(c: char) {
    c as int == 0x0b || c as int == 0x0c || c as int == 0x1c || c as int == 0x1d || c as int == 0x1e
  }

  /** Reading a text file turns every carriage return, with or without a line feed, into
      a line feed. */
  function Translate(raw: string): string {
    if raw == "" then ""
    else if raw[0] == '\r' then
      "\n" + Translate(if |raw| > 1 && raw[1] == '\n' then raw[2..] else raw[1..])
    else [raw[0]] + Translate(raw[1..])
  }

  /** `str.splitlines` of a text without carriage returns. */
  function SplitLines(text: string): seq<string> {
    if text == "" then []
    else
      var rest := SplitLines(text[1..]);
      if IsBreak(text[0]) then [""] + rest
      else if rest == [] then [[text[0]]]
      else [[text[0]] + rest[0]] + rest[1..]
  }

  function Unlines(lines: seq<string>): string {
    if lines == [] then "" else lines[0] + "\n" + Unlines(lines[1..])
  }

  // ----- One entry -----------------------------------------------------------------------

  datatype Entry = Entry(digest: string, name: string)

  function Line(e: Entry): string {
    e.digest + "  " + e.name
  }

  /** The full match of the line pattern. A name it accepts is one path component, so the
      verifier's separate check for unsafe paths never rejects. */
  function MatchLine(line: string): (r: Option<Entry>)
    ensures r.Some? ==> Line(r.value) == line && LegalDigest(r.value.digest) && LegalName(r.value.name)
  {
    if |line| < DIGEST_LENGTH + 3 then None
    else
      var digest, gap, name := line[..DIGEST_LENGTH], line[DIGEST_LENGTH..DIGEST_LENGTH + 2], line[DIGEST_LENGTH + 2..];
      assert digest + gap + name == line;
      if LegalDigest(digest) && gap == "  " && LegalName(name) then Some(Entry(digest, name)) else None
  }

  lemma MatchesExactlyLines(e: Entry)
    ensures MatchLine(Line(e)) == Some(e) <==> LegalDigest(e.digest) && LegalName(e.name)
  {
    if LegalDigest(e.digest) && LegalName(e.name) {
      var line := Line(e);
      assert line[..DIGEST_LENGTH] == e.digest;
      assert line[DIGEST_LENGTH..DIGEST_LENGTH + 2] == "  ";
      assert line[DIGEST_LENGTH + 2..] == e.name;
    }
  }

  // ----- The accepted texts ----------------------------------------------------------------

  predicate AllMatch(lines: seq<string>) {
    forall i :: 0 <= i < |lines| ==> MatchLine(lines[i]).Some?
  }

  function Entries(lines: seq<string>): (r: seq<Entry>)
    requires AllMatch(lines)
    ensures |r| == |lines|
    ensures forall i :: 0 <= i < |lines| ==> r[i] == MatchLine(lines[i]).value
  {
    seq(|lines|, i requires 0 <= i < |lines| => MatchLine(lines[i]).value)
  }

  predicate Ascends(entries: seq<Entry>) {
    forall i, j :: 0 <= i < j < |entries| ==> entries[i].name != entries[j].name && Leq(entries[i].name, entries[j].name)
  }

  predicate NotRecursive(entries: seq<Entry>) {
    forall i :: 0 <= i < |entries| ==> entries[i].name != MANIFEST_NAME
  }

  /** The mapping a list of entries spells out. */
  function Mapping(entries: seq<Entry>): map<string, string> {
    if entries == [] then map[]
    else
      var last := entries[|entries| - 1];
      Mapping(entries[..|entries| - 1])[last.name := last.digest]
  }

  function Lines(raw: string): seq<string> {
    SplitLines(Translate(raw))
  }

  predicate EndsWithNewline(text: string) {
    text != "" && text[|text| - 1] == '\n'
  }

  predicate Accepted(raw: string) {
    && |raw| <= MAXIMUM_SIZE && Ascii(raw) && EndsWithNewline(Translate(raw))
    && AllMatch(Lines(raw)) && Ascends(Entries(Lines(raw))) && NotRecursive(Entries(Lines(raw)))
  }

  // ----- The writer ---------------------------------------------------------------------------

  function EntriesOf(m: map<string, string>): (r: seq<Entry>)
    ensures |r| == |m.Keys|
    ensures forall i :: 0 <= i < |r| ==> r[i].name == Ascending(m.Keys)[i]
    ensures forall i :: 0 <= i < |r| ==> r[i].name in m && r[i].digest == m[r[i].name]
  {
    var names := Ascending(m.Keys);
    seq(|names|, i requires 0 <= i < |names| => assert names[i] in names; Entry(m[names[i]], names[i]))
  }

  function AsLines(entries: seq<Entry>): seq<string> {
    seq(|entries|, i requires 0 <= i < |entries| => Line(entries[i]))
  }

  /** The text the build writes for the staged assets. */
  function Printed(m: map<string, string>): string {
    Unlines(AsLines(EntriesOf(m)))
  }

  predicate Legal(m: map<string, string>) {
    forall name :: name in m ==> LegalName(name) && name != MANIFEST_NAME && LegalDigest(m[name])
  }

  // ----- The parser ------------------------------------------------------------------------------

  function NamesOf(entries: seq<Entry>): (r: seq<string>)
    ensures |r| == |entries|
    ensures forall i :: 0 <= i < |entries| ==> r[i] == entries[i].name
  {
    seq(|entries|, i requires 0 <= i < |entries| => entries[i].name)
  }

  /** Lines the loop reads without complaint. */
  predicate Readable(lines: seq<string>) {
    AllMatch(lines) && Distinct(NamesOf(Entries(lines))) && NotRecursive(Entries(lines))
  }

  /** `parse_manifest`, from the bytes of the file. */
  method Parse(raw: string) returns (r: Result<map<string, string>, ManifestError>)
    ensures r.Ok? <==> Accepted(raw)
    ensures r.Ok? ==> r.value == Mapping(Entries(Lines(raw)))
    ensures r == Err(TooLarge) <==> |raw| > 1024 * 1024
    ensures r == Err(NotAscii) <==> |raw| <= 1024 * 1024 && exists c :: c in raw && c as int >= 128
    ensures r == Err(NoFinalNewline) <==>
            && |raw| <= 1024 * 1024 && (forall c :: c in raw ==> c as int < 128)
            && !(raw != "" && (raw[|raw| - 1] == '\n' || raw[|raw| - 1] == '\r'))
    ensures r == Err(NotSorted) ==> Readable(Lines(raw)) && !Ascends(Entries(Lines(raw)))
  {
    AcceptedExactlyWhen(raw);
    EndsAsRead(raw);
    if |raw| > MAXIMUM_SIZE {
      return Err(TooLarge);
    }
    if exists c :: c in raw && c as int >= 128 {
      return Err(NotAscii);
    }
    var text := Translate(raw);
    if !(text != "" && text[|text| - 1] == '\n') {
      return Err(NoFinalNewline);
    }
    var read := ReadLines(SplitLines(text));
    if read.Err? {
      return Err(read.error);
    }
    var (names, entries) := read.value;
    if !SortedNames(names) {
      AscendsExactlyWhenSorted(Entries(Lines(raw)));
      return Err(NotSorted);
    }
    r := Ok(entries);
  }

  /** The text read ends with a newline exactly when the file ends with either break. */
  lemma {:induction false} EndsAsRead(raw: string)
    ensures EndsWithNewline(Translate(raw)) <==> raw != "" && (raw[|raw| - 1] == '\n' || raw[|raw| - 1] == '\r')
    ensures raw != "" ==> Translate(raw) != ""
  {
    if raw != "" {
      var rest := if raw[0] == '\r' && |raw| > 1 && raw[1] == '\n' then raw[2..] else raw[1..];
      EndsAsRead(rest);
      assert rest != "" ==> rest[|rest| - 1] == raw[|raw| - 1];
    }
  }

  /** The parser's own conditions, in the order it applies them. */
  lemma AcceptedExactlyWhen(raw: string)
    ensures Accepted(raw) <==>
              && |raw| <= MAXIMUM_SIZE && Ascii(raw) && EndsWithNewline(Translate(raw)) && Readable(Lines(raw))
              && SortedNames(NamesOf(Entries(Lines(raw))))
  {
    if AllMatch(Lines(raw)) {
      var entries := Entries(Lines(raw));
      AscendsExactlyWhenSorted(entries);
      assert Ascends(entries) ==> Distinct(NamesOf(entries));
    }
  }

  predicate SortedNames(names: seq<string>) {
    names == Ascending(set name | name in names)
  }

  /** The loop over the lines: the dictionary it fills, and its keys in insertion order. */
  method ReadLines(lines: seq<string>) returns (r: Result<(seq<string>, map<string, string>), ManifestError>)
    ensures r.Ok? <==> Readable(lines)
    ensures r.Ok? ==> r.value == (NamesOf(Entries(lines)), Mapping(Entries(lines)))
    ensures r.Err? ==> r.error.InvalidLine? || r.error.DuplicateOrRecursive?
  {
    var names: seq<string>, entries: map<string, string> := [], map[];
    for i := 0 to |lines|
      invariant Readable(lines[..i])
      invariant names == NamesOf(Entries(lines[..i])) && entries == Mapping(Entries(lines[..i]))
    {
      OneMoreLine(lines, i);
      var found := MatchLine(lines[i]);
      if found.None? {
        return Err(InvalidLine(lines[i]));
      }
      var Entry(digest, name) := found.value;
      MappingKeys(Entries(lines[..i]), name);
      if name == MANIFEST_NAME || name in entries {
        return Err(DuplicateOrRecursive(name));
      }
      names, entries := names + [name], entries[name := digest];
    }
    assert lines[..|lines|] == lines;
    r := Ok((names, entries));
  }

  lemma OneMoreLine(lines: seq<string>, i: nat)
    requires i < |lines| && Readable(lines[..i])
    ensures
      var before := Entries(lines[..i]);
      var found := MatchLine(lines[i]);
      && (Readable(lines[..i + 1])
          <==> found.Some? && found.value.name !in NamesOf(before) && found.value.name != MANIFEST_NAME)
      && (Readable(lines[..i + 1]) ==>
            && NamesOf(Entries(lines[..i + 1])) == NamesOf(before) + [found.value.name]
            && Mapping(Entries(lines[..i + 1])) == Mapping(before)[found.value.name := found.value.digest])
      && (!Readable(lines[..i + 1]) ==> !Readable(lines))
  {
    var found, longer := MatchLine(lines[i]), lines[..i + 1];
    assert longer == lines[..i] + [lines[i]];
    if found.Some? {
      assert AllMatch(longer);
      EntriesThen(lines[..i], lines[i]);
      DistinctThen(NamesOf(Entries(lines[..i])), found.value.name);
    } else {
      assert longer[i] == lines[i];
    }
    if Readable(lines) { ReadablePrefix(lines, i + 1); }
  }

  lemma EntriesThen(lines: seq<string>, line: string)
    requires AllMatch(lines) && MatchLine(line).Some?
    ensures
      var e := MatchLine(line).value;
      && AllMatch(lines + [line])
      && Entries(lines + [line]) == Entries(lines) + [e]
      && NamesOf(Entries(lines + [line])) == NamesOf(Entries(lines)) + [e.name]
      && Mapping(Entries(lines + [line])) == Mapping(Entries(lines))[e.name := e.digest]
      && (NotRecursive(Entries(lines + [line])) <==> NotRecursive(Entries(lines)) && e.name != MANIFEST_NAME)
  {
    var e := MatchLine(line).value;
    assert Entries(lines + [line]) == Entries(lines) + [e];
    assert (Entries(lines) + [e])[..|lines|] == Entries(lines);
    assert (Entries(lines) + [e])[|lines|] == e;
  }

  lemma ReadablePrefix(lines: seq<string>, n: nat)
    requires n <= |lines| && Readable(lines)
    ensures Readable(lines[..n])
  {
    assert AllMatch(lines[..n]);
    var all, some := Entries(lines), Entries(lines[..n]);
    assert forall i :: 0 <= i < n ==> some[i] == all[i] && NamesOf(some)[i] == NamesOf(all)[i];
  }

  lemma {:induction false} MappingKeys(entries: seq<Entry>, name: string)
    ensures name in Mapping(entries) <==> name in NamesOf(entries)
  {
    if entries != [] {
      var front, last := entries[..|entries| - 1], entries[|entries| - 1];
      MappingKeys(front, name);
      assert NamesOf(entries) == NamesOf(front) + [last.name];
    }
  }

  // ----- Sortedness -------------------------------------------------------------------------------

  /** The set of an ascending list, listed in ascending order, is the list. */
  lemma {:induction false} AscendingOfSorted(names: seq<string>)
    requires forall i, j :: 0 <= i < j < |names| ==> names[i] != names[j] && Leq(names[i], names[j])
    ensures Ascending(set name | name in names) == names
  {
    var all := set name | name in names;
    if names == [] {
      assert all == {};
    } else {
      assert names[0] in all;
      var least := Minimum(all);
      assert least in names && Leq(least, names[0]) && Leq(names[0], least) by { LeqTotal(names[0], names[0]); }
      LeqAntisymmetric(least, names[0]);
      var rest := names[1..];
      assert names == [names[0]] + rest;
      assert all - {names[0]} == set name | name in rest by {
        forall x | x in rest
          ensures x != names[0]
        {
          var k :| 0 <= k < |rest| && rest[k] == x;
          assert names[k + 1] == x;
        }
      }
      AscendingOfSorted(rest);
    }
  }

  lemma AscendsExactlyWhenSorted(entries: seq<Entry>)
    ensures Ascends(entries) <==> SortedNames(NamesOf(entries))
  {
    var names := NamesOf(entries);
    if Ascends(entries) {
      AscendingOfSorted(names);
    } else if SortedNames(names) {
      forall i, j | 0 <= i < j < |entries|
        ensures entries[i].name != entries[j].name && Leq(entries[i].name, entries[j].name)
      {
        assert names[i] != names[j] && Leq(names[i], names[j]);
      }
    }
  }

  // ----- Splitting and joining lines ---------------------------------------------------------------

  predicate Unbroken(line: string) { forall c :: c in line ==> !IsBreak(c) }

  lemma {:induction false} SplitFirstLine(line: string, rest: string)
    requires Unbroken(line)
    ensures SplitLines(line + "\n" + rest) == [line] + SplitLines(rest)
  {
    var text := line + "\n" + rest;
    if line == "" {
      assert text == "\n" + rest;
      assert text[1..] == rest;
    } else {
      SplitFirstLine(line[1..], rest);
      assert text[1..] == line[1..] + "\n" + rest;
      assert line[0] in line;
      assert line == [line[0]] + line[1..];
      assert ([line[1..]] + SplitLines(rest))[1..] == SplitLines(rest);
    }
  }

  lemma {:induction false} SplitUnlines(lines: seq<string>)
    requires forall i :: 0 <= i < |lines| ==> Unbroken(lines[i])
    ensures SplitLines(Unlines(lines)) == lines
  {
    if lines != [] {
      SplitUnlines(lines[1..]);
      SplitFirstLine(lines[0], Unlines(lines[1..]));
      assert lines == [lines[0]] + lines[1..];
    }
  }

  predicate NoOddBreaks(text: string) { forall c :: c in text ==> !IsOddBreak(c) }

  /** A text that ends with a newline and has no other kind of break is its lines, each
      followed by a newline. */
  lemma {:induction false} UnlinesSplit(text: string)
    requires NoOddBreaks(text) && (text == "" || EndsWithNewline(text))
    ensures Unlines(SplitLines(text)) == text
  {
    if text != "" {
      var tail := text[1..];
      assert text == [text[0]] + tail && text[0] in text;
      assert forall c :: c in tail ==> c in text;
      if tail != "" { assert tail[|tail| - 1] == text[|text| - 1]; }
      UnlinesSplit(tail);
      var rest := SplitLines(tail);
      if IsBreak(text[0]) {
        assert ([""] + rest)[1..] == rest;
        assert text[0] == '\n';
      } else {
        assert tail != "";
        assert ([[text[0]] + rest[0]] + rest[1..])[1..] == rest[1..];
        assert ([text[0]] + rest[0]) + "\n" + Unlines(rest[1..])
            == [text[0]] + (rest[0] + "\n" + Unlines(rest[1..]));
      }
    }
  }

  lemma {:induction false} NothingToTranslate(raw: string)
    requires '\r' !in raw
    ensures Translate(raw) == raw
  {
    if raw != "" {
      assert raw == [raw[0]] + raw[1..];
      NothingToTranslate(raw[1..]);
    }
  }

  lemma {:induction false} CharsOfUnlines(lines: seq<string>, c: char)
    ensures c in Unlines(lines) ==> c == '\n' || exists i :: 0 <= i < |lines| && c in lines[i]
    ensures lines != [] ==> EndsWithNewline(Unlines(lines))
  {
    if lines != [] {
      CharsOfUnlines(lines[1..], c);
      if c in Unlines(lines[1..]) && c != '\n' {
        var i :| 0 <= i < |lines[1..]| && c in lines[1..][i];
        assert c in lines[i + 1];
      }
      if |lines| > 1 { assert Unlines(lines)[|Unlines(lines)| - 1] == Unlines(lines[1..])[|Unlines(lines[1..])| - 1]; }
    }
  }

  // ----- Writing and reading back ---------------------------------------------------------------------

  predicate LegalEntry(e: Entry) { LegalName(e.name) && LegalDigest(e.digest) && e.name != MANIFEST_NAME }

  lemma LegalLineChars(e: Entry, c: char)
    requires LegalEntry(e) && c in Line(e)
    ensures c as int < 128 && c != '\r' && !IsBreak(c)
  {
    assert c in e.digest || c == ' ' || c in e.name;
  }

  /** The lines of legal entries in ascending order are read back as those entries. */
  lemma LinesReadBack(entries: seq<Entry>)
    requires forall i :: 0 <= i < |entries| ==> LegalEntry(entries[i])
    ensures
      var raw := Unlines(AsLines(entries));
      && Ascii(raw) && Translate(raw) == raw && NoOddBreaks(raw)
      && Lines(raw) == AsLines(entries) && AllMatch(Lines(raw)) && Entries(Lines(raw)) == entries
      && (entries != [] ==> EndsWithNewline(raw))
  {
    var lines := AsLines(entries);
    var raw := Unlines(lines);
    forall c | c in raw
      ensures c as int < 128 && c != '\r' && !IsOddBreak(c)
    {
      CharsOfUnlines(lines, c);
      if c != '\n' {
        var i :| 0 <= i < |lines| && c in lines[i];
        LegalLineChars(entries[i], c);
      }
    }
    NothingToTranslate(raw);
    forall i | 0 <= i < |lines|
      ensures Unbroken(lines[i]) && MatchLine(lines[i]) == Some(entries[i])
    {
      MatchesExactlyLines(entries[i]);
      forall c | c in lines[i]
        ensures !IsBreak(c)
      {
        LegalLineChars(entries[i], c);
      }
    }
    SplitUnlines(lines);
    CharsOfUnlines(lines, ' ');
  }

  lemma {:induction false} MappingAt(entries: seq<Entry>, i: nat)
    requires i < |entries| && forall i, j :: 0 <= i < j < |entries| ==> entries[i].name != entries[j].name
    ensures entries[i].name in Mapping(entries) && Mapping(entries)[entries[i].name] == entries[i].digest
  {
    var front, last := entries[..|entries| - 1], entries[|entries| - 1];
    if i < |front| {
      MappingAt(front, i);
      assert entries[i].name != entries[|entries| - 1].name;
    }
  }

  lemma EntriesOfAscend(m: map<string, string>)
    ensures Ascends(EntriesOf(m)) && NamesOf(EntriesOf(m)) == Ascending(m.Keys)
  {
    var entries, names := EntriesOf(m), Ascending(m.Keys);
    assert NamesOf(entries) == names;
    forall i, j | 0 <= i < j < |entries|
      ensures entries[i].name != entries[j].name && Leq(entries[i].name, entries[j].name)
    {
      assert names[i] != names[j] && Leq(names[i], names[j]);
    }
  }

  lemma EntriesSpellMap(m: map<string, string>)
    ensures Mapping(EntriesOf(m)) == m
  {
    var again := Mapping(EntriesOf(m));
    forall name
      ensures name in again <==> name in m
    {
      EntriesHaveKey(m, name);
    }
    forall name | name in m
      ensures again[name] == m[name]
    {
      EntrySpellsKey(m, name);
    }
  }

  lemma EntriesHaveKey(m: map<string, string>, name: string)
    ensures name in Mapping(EntriesOf(m)) <==> name in m
  {
    EntriesOfAscend(m);
    MappingKeys(EntriesOf(m), name);
    assert name in Ascending(m.Keys) <==> name in m.Keys;
  }

  lemma EntrySpellsKey(m: map<string, string>, name: string)
    requires name in m
    ensures name in Mapping(EntriesOf(m)) && Mapping(EntriesOf(m))[name] == m[name]
  {
    var entries, names := EntriesOf(m), Ascending(m.Keys);
    EntriesOfAscend(m);
    assert name in names by { assert name in m.Keys; }
    var i :| 0 <= i < |names| && names[i] == name;
    MappingAt(entries, i);
  }

  /** Every nonempty set of legal names and digests whose text fits is read back exactly. */
  lemma RoundTrip(m: map<string, string>)
    requires Legal(m) && m != map[] && |Printed(m)| <= MAXIMUM_SIZE
    ensures Accepted(Printed(m)) && Mapping(Entries(Lines(Printed(m)))) == m
  {
    var entries := EntriesOf(m);
    assert entries != [] by { var name :| name in m; assert name in m.Keys; }
    forall i | 0 <= i < |entries|
      ensures LegalEntry(entries[i])
    {
      assert Ascending(m.Keys)[i] in m.Keys;
    }
    EntriesOfAscend(m);
    EntriesSpellMap(m);
    LinesReadBack(entries);
  }

  /** An accepted text is reprinted unchanged exactly when a newline is its only kind of
      line break. */
  lemma ReprintedExactlyWhen(raw: string)
    requires Accepted(raw)
    ensures Legal(Mapping(Entries(Lines(raw))))
    ensures Printed(Mapping(Entries(Lines(raw)))) == raw <==> '\r' !in raw && NoOddBreaks(raw)
  {
    var lines := Lines(raw);
    var entries := Entries(lines);
    var m := Mapping(entries);
    EntriesOfMapping(entries);
    MappingIsLegal(entries);
    assert AsLines(entries) == lines;
    LinesReadBack(entries);
    if '\r' !in raw && NoOddBreaks(raw) {
      NothingToTranslate(raw);
      UnlinesSplit(raw);
    }
    if Unlines(lines) == raw { TranslatedAway(raw); }
  }

  lemma {:induction false} TranslatedAway(raw: string)
    requires Translate(raw) == raw
    ensures '\r' !in raw
  {
    if raw != "" {
      assert raw == [raw[0]] + raw[1..];
      assert raw[0] != '\r' by { assert Translate(raw)[0] != '\r'; }
      assert Translate(raw) == [raw[0]] + Translate(raw[1..]);
      assert Translate(raw[1..]) == Translate(raw)[1..] == raw[1..];
      TranslatedAway(raw[1..]);
    }
  }

  /** Entries in ascending order are the entries of their own mapping. */
  lemma EntriesOfMapping(entries: seq<Entry>)
    requires Ascends(entries)
    ensures EntriesOf(Mapping(entries)) == entries
  {
    var again := EntriesOf(Mapping(entries));
    KeysInOrder(entries);
    assert |again| == |entries|;
    forall i | 0 <= i < |entries|
      ensures again[i] == entries[i]
    {
      MappingAt(entries, i);
    }
  }

  lemma MappingIsLegal(entries: seq<Entry>)
    requires Ascends(entries) && forall i :: 0 <= i < |entries| ==> LegalEntry(entries[i])
    ensures Legal(Mapping(entries))
  {
    var m := Mapping(entries);
    forall name | name in m
      ensures LegalName(name) && name != MANIFEST_NAME && LegalDigest(m[name])
    {
      KeyIsLegal(entries, name);
    }
  }

  lemma KeysInOrder(entries: seq<Entry>)
    requires Ascends(entries)
    ensures Ascending(Mapping(entries).Keys) == NamesOf(entries)
  {
    var names := NamesOf(entries);
    forall name
      ensures name in Mapping(entries).Keys <==> name in names
    {
      MappingKeys(entries, name);
    }
    assert Mapping(entries).Keys == set name | name in names;
    AscendingOfSorted(names);
  }

  lemma KeyIsLegal(entries: seq<Entry>, name: string)
    requires Ascends(entries) && (forall i :: 0 <= i < |entries| ==> LegalEntry(entries[i]))
    requires name in Mapping(entries)
    ensures LegalName(name) && name != MANIFEST_NAME && LegalDigest(Mapping(entries)[name])
  {
    MappingKeys(entries, name);
    var i :| 0 <= i < |entries| && NamesOf(entries)[i] == name;
    MappingAt(entries, i);
    assert LegalEntry(entries[i]);
  }

  /** Hence, of the texts whose only line break is a newline, the accepted ones are
      exactly the printed ones. */
  lemma AcceptedTextsArePrinted(raw: string)
    requires '\r' !in raw && NoOddBreaks(raw) && |raw| <= MAXIMUM_SIZE
    ensures Accepted(raw) <==> exists m :: Legal(m) && m != map[] && Printed(m) == raw
  {
    if Accepted(raw) {
      ReprintedExactlyWhen(raw);
      var m := Mapping(Entries(Lines(raw)));
      NothingToTranslate(raw);
      assert Lines(raw) != [];
      MappingKeys(Entries(Lines(raw)), NamesOf(Entries(Lines(raw)))[0]);
      assert Legal(m) && m != map[] && Printed(m) == raw;
    }
    forall m | Legal(m) && m != map[] && Printed(m) == raw
      ensures Accepted(raw)
    {
      RoundTrip(m);
    }
  }
}
