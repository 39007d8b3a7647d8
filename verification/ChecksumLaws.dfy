/** What an accepted checksum manifest looks like, character by character. */
module ChecksumLaws {
  import opened Prelude
  import opened Ordering
  import opened ChecksumManifest

  /** The text of the entries, each followed by its own line break. */
  function Spelled(es: seq<Entry>, ends: seq<string>): string
    requires |es| == |ends|
  {
    if es == [] then ""
    else es[0].digest + "  " + es[0].name + ends[0] + Spelled(es[1..], ends[1..])
  }

  /** A line break that reading the file turns into a newline. */
  predicate NewlineOnReading(end: string) { end == "\n" || end == "\r" || end == "\r\n" }

  predicate LineBreak(end: string) {
    || NewlineOnReading(end)
    || (|end| == 1 && (end[0] == '\U{0B}' || end[0] == '\U{0C}' || '\U{1C}' <= end[0] <= '\U{1E}'))
  }

  /** 64 lowercase hexadecimal digits, and a legal file name other than the manifest's. */
  predicate WellFormed(e: Entry) {
    && |e.digest| == 64 && (forall c :: c in e.digest ==> '0' <= c <= '9' || 'a' <= c <= 'f')
    && e.name != "" && e.name[0] != '.' && e.name[0] != '_' && e.name[0] != '-'
    && (forall c :: c in e.name ==>
          '0' <= c <= '9' || 'a' <= c <= 'z' || 'A' <= c <= 'Z' || c == '.' || c == '_' || c == '-')
    && e.name != "SHA256SUMS"
  }

  ghost predicate Written(raw: string, es: seq<Entry>, ends: seq<string>) {
    && |ends| == |es| > 0 && raw == Spelled(es, ends)
    && (forall i :: 0 <= i < |es| ==> WellFormed(es[i]) && LineBreak(ends[i]))
    && NewlineOnReading(ends[|ends| - 1])
    && (forall i, j :: 0 <= i < j < |es| ==> Precedes(es[i].name, es[j].name))
  }

  /** The mapping has the entries and nothing else. */
  predicate Holds(m: map<string, string>, es: seq<Entry>) {
    && (forall i :: 0 <= i < |es| ==> es[i].name in m && m[es[i].name] == es[i].digest)
    && (forall name :: name in m ==> exists i :: 0 <= i < |es| && es[i].name == name)
  }

  lemma WellFormedIsLegal(e: Entry)
    ensures WellFormed(e) <==> LegalEntry(e)
  {
    if LegalEntry(e) {
      forall c | c in e.digest
        ensures '0' <= c <= '9' || 'a' <= c <= 'f'
      {
        var i :| 0 <= i < |e.digest| && e.digest[i] == c;
      }
    }
    if WellFormed(e) {
      assert e.name[0] in e.name;
      forall i | 0 <= i < |e.digest|
        ensures Text.HexDigit(e.digest[i])
      {
        assert e.digest[i] in e.digest;
      }
    }
  }

  // ----- From lines to text ----------------------------------------------------------------

  /** Cutting off the first line of a text that ends with a newline. */
  lemma {:induction false} FirstLine(raw: string) returns (line: string, end: string, rest: string)
    requires raw != "" && EndsWithNewline(Translate(raw))
    ensures raw == line + end + rest && LineBreak(end)
    ensures Lines(raw) == [line] + Lines(rest)
    ensures if rest == "" then NewlineOnReading(end) else EndsWithNewline(Translate(rest))
    decreases |raw|, 1
  {
    var text := Translate(raw);
    if raw[0] == '\r' {
      line, end := "", if |raw| > 1 && raw[1] == '\n' then "\r\n" else "\r";
      rest := raw[|end|..];
      assert raw == end + rest;
      assert text[1..] == Translate(rest);
    } else if IsBreak(raw[0]) {
      line, end, rest := "", raw[..1], raw[1..];
      assert text[1..] == Translate(rest);
    } else {
      line, end, rest := AfterPlain(raw);
      return;
    }
    if rest != "" {
      EndsAsRead(rest);
      TailEndsToo(text[..1], Translate(rest));
      assert text == text[..1] + Translate(rest);
    }
  }

  lemma {:induction false} AfterPlain(raw: string) returns (line: string, end: string, rest: string)
    requires raw != "" && raw[0] != '\r' && !IsBreak(raw[0]) && EndsWithNewline(Translate(raw))
    ensures raw == line + end + rest && LineBreak(end)
    ensures Lines(raw) == [line] + Lines(rest)
    ensures if rest == "" then NewlineOnReading(end) else EndsWithNewline(Translate(rest))
    decreases |raw|, 0
  {
    var c, tail := raw[0], raw[1..];
    assert raw == [c] + tail;
    assert tail != "" && Translate(raw) == [c] + Translate(tail);
    EndsAsRead(tail);
    TailEndsToo([c], Translate(tail));
    line, end, rest := FirstLine(tail);
    PlainJoinsLine(c, tail, line, rest);
    Regroup(c, line, end, rest);
    line := [c] + line;
  }

  lemma Regroup(c: char, line: string, end: string, rest: string)
    ensures [c] + (line + end + rest) == ([c] + line) + end + rest
  {}

  lemma PlainJoinsLine(c: char, tail: string, line: string, rest: string)
    requires c != '\r' && !IsBreak(c) && Lines(tail) == [line] + Lines(rest)
    ensures Lines([c] + tail) == [[c] + line] + Lines(rest)
  {
    var raw, text := [c] + tail, Translate([c] + tail);
    assert raw[1..] == tail;
    assert text == [c] + Translate(tail) && text[1..] == Translate(tail);
    assert Lines(tail)[0] == line && Lines(tail)[1..] == Lines(rest);
  }

  lemma TailEndsToo(head: string, tail: string)
    requires tail != ""
    ensures EndsWithNewline(head + tail) <==> EndsWithNewline(tail)
  {}

  lemma {:induction false} Unspell(raw: string, es: seq<Entry>) returns (ends: seq<string>)
    requires Lines(raw) == AsLines(es) && (raw == "" || EndsWithNewline(Translate(raw)))
    ensures |ends| == |es| && raw == Spelled(es, ends)
    ensures forall i :: 0 <= i < |ends| ==> LineBreak(ends[i])
    ensures raw != "" ==> es != [] && NewlineOnReading(ends[|ends| - 1])
    decreases |raw|
  {
    if raw == "" {
      ends := [];
    } else {
      var line, end, rest := FirstLine(raw);
      assert AsLines(es)[0] == line == Line(es[0]);
      assert AsLines(es[1..]) == AsLines(es)[1..] == Lines(rest);
      var others := Unspell(rest, es[1..]);
      ends := [end] + others;
      assert ends[1..] == others;
    }
  }

  // ----- From text to lines ------------------------------------------------------------------

  lemma {:induction false} SplitAtBreak(line: string, b: char, rest: string)
    requires Unbroken(line) && IsBreak(b)
    ensures SplitLines(line + [b] + rest) == [line] + SplitLines(rest)
  {
    var text := line + [b] + rest;
    if line == "" {
      assert text[1..] == rest;
    } else {
      SplitAtBreak(line[1..], b, rest);
      assert text[1..] == line[1..] + [b] + rest;
      assert line[0] in line && line == [line[0]] + line[1..];
      assert ([line[1..]] + SplitLines(rest))[1..] == SplitLines(rest);
    }
  }

  lemma {:induction false} TranslateAfter(plain: string, rest: string)
    requires '\r' !in plain
    ensures Translate(plain + rest) == plain + Translate(rest)
  {
    if plain == "" {
      assert plain + rest == rest;
    } else {
      var c, others := plain[0], plain[1..];
      TranslateAfter(others, rest);
      assert plain == [c] + others;
      assert plain + rest == [c] + (others + rest);
      assert (plain + rest)[1..] == others + rest;
      assert [c] + (others + Translate(rest)) == plain + Translate(rest);
    }
  }

  lemma BreakIsRead(end: string, rest: string) returns (b: char)
    requires LineBreak(end) && (rest != "" ==> rest[0] != '\n')
    ensures IsBreak(b) && Translate(end + rest) == [b] + Translate(rest)
    ensures NewlineOnReading(end) ==> b == '\n'
  {
    b := if NewlineOnReading(end) then '\n' else end[0];
    if end == "\r\n" {
      assert (end + rest)[2..] == rest;
    } else {
      assert (end + rest)[1..] == rest;
    }
  }

  /** A line, its break, and what follows are read as that line and then the rest. */
  lemma LineIsRead(line: string, end: string, rest: string)
    requires Unbroken(line) && '\r' !in line && LineBreak(end) && (rest != "" ==> rest[0] != '\n')
    ensures Lines(line + end + rest) == [line] + Lines(rest)
    ensures rest == "" && NewlineOnReading(end) ==> EndsWithNewline(Translate(line + end + rest))
    ensures EndsWithNewline(Translate(rest)) ==> EndsWithNewline(Translate(line + end + rest))
  {
    var b := BreakIsRead(end, rest);
    var text := Translate(rest);
    TranslateAfter(line, end + rest);
    assert line + end + rest == line + (end + rest);
    assert line + ([b] + text) == line + [b] + text;
    SplitAtBreak(line, b, text);
    if text != "" { TailEndsToo(line + [b], text); }
  }

  lemma {:induction false} SpelledIsRead(es: seq<Entry>, ends: seq<string>)
    requires |es| == |ends| && forall i :: 0 <= i < |es| ==> LegalEntry(es[i]) && LineBreak(ends[i])
    ensures Lines(Spelled(es, ends)) == AsLines(es) && Ascii(Spelled(es, ends))
    ensures Spelled(es, ends) != "" ==> Spelled(es, ends)[0] != '\n'
    ensures es != [] && NewlineOnReading(ends[|ends| - 1]) ==> EndsWithNewline(Translate(Spelled(es, ends)))
  {
    if es != [] {
      var e, line, rest := es[0], Line(es[0]), Spelled(es[1..], ends[1..]);
      SpelledIsRead(es[1..], ends[1..]);
      forall c | c in line
        ensures c as int < 128 && c != '\r' && !IsBreak(c)
      {
        LegalLineChars(e, c);
      }
      assert forall c :: c in ends[0] ==> c as int < 128;
      LineIsRead(line, ends[0], rest);
      assert AsLines(es) == [line] + AsLines(es[1..]);
      assert Spelled(es, ends) == line + ends[0] + rest;
      assert Spelled(es, ends)[0] == line[0] && line[0] in line;
    }
  }

  // ----- The law -------------------------------------------------------------------------------

  /** A text is accepted for some entries exactly when it is at most 1 MiB long and spells
      them, each on a line of its own and in ascending order of their names, up to the last
      line break. */
  lemma AcceptedMeans(raw: string)
    ensures Accepted(raw) <==> |raw| <= 0x10_0000 && exists es, ends :: Written(raw, es, ends)
  {
    if Accepted(raw) {
      var _, _ := AcceptedIsWritten(raw);
    }
    if |raw| <= 0x10_0000 && exists es, ends :: Written(raw, es, ends) {
      var es, ends :| Written(raw, es, ends);
      WrittenIsAccepted(raw, es, ends);
    }
  }

  /** The mapping read from a text holds the entries it spells and nothing else. */
  lemma MappingMeans(raw: string, es: seq<Entry>, ends: seq<string>)
    requires Written(raw, es, ends) && |raw| <= 0x10_0000
    ensures Accepted(raw) && Holds(Mapping(Entries(Lines(raw))), es)
  {
    WrittenIsAccepted(raw, es, ends);
    var m := Mapping(es);
    forall i | 0 <= i < |es|
      ensures es[i].name in m && m[es[i].name] == es[i].digest
    {
      MappingAt(es, i);
    }
    forall name | name in m
      ensures exists i :: 0 <= i < |es| && es[i].name == name
    {
      MappingKeys(es, name);
    }
  }

  lemma AcceptedIsWritten(raw: string) returns (es: seq<Entry>, ends: seq<string>)
    requires Accepted(raw)
    ensures Written(raw, es, ends)
  {
    es := Entries(Lines(raw));
    assert AsLines(es) == Lines(raw);
    ends := Unspell(raw, es);
    forall i | 0 <= i < |es|
      ensures WellFormed(es[i])
    {
      WellFormedIsLegal(es[i]);
    }
    forall i, j | 0 <= i < j < |es|
      ensures Precedes(es[i].name, es[j].name)
    {
      LeqMeans(es[i].name, es[j].name);
    }
  }

  lemma WrittenIsAccepted(raw: string, es: seq<Entry>, ends: seq<string>)
    requires Written(raw, es, ends) && |raw| <= 0x10_0000
    ensures Accepted(raw) && Entries(Lines(raw)) == es
  {
    forall i | 0 <= i < |es|
      ensures LegalEntry(es[i])
    {
      WellFormedIsLegal(es[i]);
    }
    SpelledIsRead(es, ends);
    forall i | 0 <= i < |es|
      ensures MatchLine(Lines(raw)[i]) == Some(es[i])
    {
      MatchesExactlyLines(es[i]);
    }
    forall i, j | 0 <= i < j < |es|
      ensures es[i].name != es[j].name && Leq(es[i].name, es[j].name)
    {
      LeqMeans(es[i].name, es[j].name);
    }
  }
}
