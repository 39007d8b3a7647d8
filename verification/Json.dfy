/** The JSON text of Python's `json.dumps` with sorted keys and without ASCII escapes, compact
    or indented, and its UTF-8 bytes. Different values never have the same bytes. */
module Json {
  datatype Value =
    | Null
    | Number(value: int)
    | Text(text: string)
    | Array(items: seq<Value>)
    | Object(members: seq<Member>)

  /** The members of an object come in the order of their keys. */
  datatype Member = Member(key: string, value: Value)

  // ----- Numbers and texts ------------------------------------------------------

  const DIGITS := "0123456789abcdef"

  predicate IsDigit(c: char) { '0' <= c <= '9' }

  function Digits(n: nat): (r: string)
    ensures |r| > 0 && forall i :: 0 <= i < |r| ==> IsDigit(r[i])
  {
    if n < 10 then [DIGITS[n]] else Digits(n / 10) + [DIGITS[n % 10]]
  }

  function Magnitude(v: int): nat { if v < 0 then -v else v }

  function Signed(negative: bool, digits: string): string {
    if negative then "-" + digits else digits
  }

  function Decimal(v: int): string {
    Signed(v < 0, Digits(Magnitude(v)))
  }

  /** What follows the backslash of an escaped character; nothing if it is not escaped. */
  function Letter(c: char): string {
    if c == '"' || c == '\\' then [c]
    else if c == '\n' then "n"
    else if c == '\r' then "r"
    else if c == '\t' then "t"
    else if c == '\U{08}' then "b"
    else if c == '\U{0C}' then "f"
    else if c < ' ' then "u00" + [DIGITS[c as int / 16], DIGITS[c as int % 16]]
    else ""
  }

  function Escape(c: char): string {
    if Letter(c) == "" then [c] else "\\" + Letter(c)
  }

  function Escaped(s: string): string {
    if s == "" then "\"" else Escape(s[0]) + Escaped(s[1..])
  }

  function Quoted(s: string): string { "\"" + Escaped(s) }

  // ----- Values --------------------------------------------------------------------

  /** What is written before an item or a closing bracket at this depth. */
  function Gap(indented: bool, depth: nat): string {
    if indented then "\n" + Spaces(2 * depth) else ""
  }

  function Spaces(n: nat): string { if n == 0 then "" else " " + Spaces(n - 1) }

  function Close(bracket: string, indented: bool, depth: nat): string { Gap(indented, depth) + bracket }

  function Comma(indented: bool, depth: nat): string { "," + Gap(indented, depth + 1) }

  function Colon(indented: bool): string { if indented then ": " else ":" }

  function Render(v: Value, indented: bool, depth: nat): string
    decreases v, 1, 0
  {
    match v
    case Null => "null"
    case Number(n) => Decimal(n)
    case Text(s) => Quoted(s)
    case Array(items) =>
      if items == [] then "[]" else "[" + Gap(indented, depth + 1) + RenderItems(v, 0, indented, depth)
    case Object(members) =>
      if members == [] then "{}" else "{" + Gap(indented, depth + 1) + RenderMembers(v, 0, indented, depth)
  }

  function RenderItems(v: Value, i: nat, indented: bool, depth: nat): string
    requires v.Array? && i < |v.items|
    decreases v, 0, |v.items| - i
  {
    Render(v.items[i], indented, depth + 1)
    + if i + 1 == |v.items| then Close("]", indented, depth)
      else Comma(indented, depth) + RenderItems(v, i + 1, indented, depth)
  }

  function RenderMembers(v: Value, i: nat, indented: bool, depth: nat): string
    requires v.Object? && i < |v.members|
    decreases v, 0, |v.members| - i
  {
    Quoted(v.members[i].key) + Colon(indented) + Render(v.members[i].value, indented, depth + 1)
    + if i + 1 == |v.members| then Close("}", indented, depth)
      else Comma(indented, depth) + RenderMembers(v, i + 1, indented, depth)
  }

  // ----- Texts can be told apart ------------------------------------------------------

  lemma Cancel<T>(a: seq<T>, r: seq<T>, s: seq<T>)
    requires a + r == a + s
    ensures r == s
  {
    assert (a + r)[|a|..] == r && (a + s)[|a|..] == s;
  }

  lemma AfterOpening<T>(open: seq<T>, a: seq<T>, b: seq<T>, r: seq<T>, s: seq<T>)
    requires (open + a) + r == (open + b) + s
    ensures a + r == b + s
  {
    assert (open + a) + r == open + (a + r) && (open + b) + s == open + (b + s);
    Cancel(open, a + r, b + s);
  }

  lemma Regroup<T>(a: seq<T>, b: seq<T>, c: seq<T>, d: seq<T>, r: seq<T>)
    ensures (a + b + c + d) + r == a + (b + (c + (d + r)))
  {}

  lemma DigitsDiffer()
    ensures forall i, j :: 0 <= i < j < 16 ==> DIGITS[i] != DIGITS[j]
  {}

  lemma {:induction false} DigitsAreInjective(m: nat, n: nat)
    requires Digits(m) == Digits(n)
    ensures m == n
  {
    DigitsDiffer();
    var a, b := Digits(m), Digits(n);
    if m >= 10 && n >= 10 {
      assert a[..|a| - 1] == Digits(m / 10) && b[..|b| - 1] == Digits(n / 10);
      DigitsAreInjective(m / 10, n / 10);
      assert a[|a| - 1] == DIGITS[m % 10] && b[|b| - 1] == DIGITS[n % 10];
    }
  }

  predicate StartsWithDigit(s: string) { s != "" && IsDigit(s[0]) }

  lemma LongerStart(a: string, b: string, r: string, s: string)
    requires a + r == b + s && |a| < |b| && forall i :: 0 <= i < |b| ==> IsDigit(b[i])
    ensures StartsWithDigit(r)
  {
    assert (a + r)[|a|] == r[0] && (b + s)[|a|] == b[|a|];
  }

  lemma DigitsEnd(m: nat, n: nat, r: string, s: string)
    requires Digits(m) + r == Digits(n) + s && !StartsWithDigit(r) && !StartsWithDigit(s)
    ensures m == n && r == s
  {
    var a, b := Digits(m), Digits(n);
    if |a| < |b| { LongerStart(a, b, r, s); }
    if |b| < |a| { LongerStart(b, a, s, r); }
    assert (a + r)[..|a|] == a && (b + s)[..|b|] == b;
    DigitsAreInjective(m, n);
    Cancel(a, r, s);
  }

  lemma Peel<T>(a: seq<T>, r: seq<T>)
    requires a != []
    ensures (a + r)[0] == a[0] && (a + r)[1..] == a[1..] + r
  {}

  lemma HexDigitsDiffer(c: char, d: char)
    requires c < ' ' && d < ' '
    requires DIGITS[c as int / 16] == DIGITS[d as int / 16] && DIGITS[c as int % 16] == DIGITS[d as int % 16]
    ensures c == d
  {
    DigitsDiffer();
  }

  lemma LettersDiffer(c: char, d: char, r: string, s: string)
    requires Letter(c) != "" && Letter(d) != "" && Letter(c) + r == Letter(d) + s
    ensures c == d && r == s
  {
    var t, u := Letter(c) + r, Letter(d) + s;
    assert t[0] == Letter(c)[0] && u[0] == Letter(d)[0];
    if Letter(c)[0] == 'u' {
      assert t[3] == Letter(c)[3] && u[3] == Letter(d)[3];
      assert t[4] == Letter(c)[4] && u[4] == Letter(d)[4];
      HexDigitsDiffer(c, d);
    } else {
      ShortLettersDiffer(c, d);
    }
    Cancel(Letter(c), r, s);
  }

  lemma ShortLettersDiffer(c: char, d: char)
    requires Letter(c) != "" && Letter(d) != "" && Letter(c)[0] == Letter(d)[0] != 'u'
    ensures c == d
  {}

  lemma EscapesDiffer(c: char, d: char, r: string, s: string)
    requires Escape(c) + r == Escape(d) + s
    ensures c == d && r == s
  {
    Peel(Escape(c), r);
    Peel(Escape(d), s);
    if Letter(c) != "" && Letter(d) != "" {
      assert Escape(c)[1..] == Letter(c) && Escape(d)[1..] == Letter(d);
      LettersDiffer(c, d, r, s);
    } else {
      assert Letter('\\') != "";
      assert c == d;
    }
  }

  /** The closing quotation mark is not the start of a character. */
  lemma EscapeStarts(c: char)
    ensures Escape(c) != "" && Escape(c)[0] != '"'
  {}

  lemma EscapedThen(a: string, r: string)
    requires a != ""
    ensures Escaped(a) + r == Escape(a[0]) + (Escaped(a[1..]) + r) && (Escaped(a) + r)[0] != '"'
  {
    EscapeStarts(a[0]);
  }

  lemma {:induction false} EscapedEnd(a: string, b: string, r: string, s: string)
    requires Escaped(a) + r == Escaped(b) + s
    ensures a == b && r == s
  {
    if a != "" { EscapedThen(a, r); }
    if b != "" { EscapedThen(b, s); }
    if a != "" && b != "" {
      EscapesDiffer(a[0], b[0], Escaped(a[1..]) + r, Escaped(b[1..]) + s);
      EscapedEnd(a[1..], b[1..], r, s);
      assert a == [a[0]] + a[1..] && b == [b[0]] + b[1..];
    } else {
      Cancel("\"", r, s);
    }
  }

  // ----- Values can be told apart ------------------------------------------------------

  /** What may follow a value. */
  predicate Delimited(s: string) { s == "" || Delimiter(s[0]) }

  predicate Delimiter(c: char) { c == ',' || c == ']' || c == '}' || c == '\n' }

  /** The first character tells what kind of value it is. */
  predicate StartsLike(v: Value, c: char) {
    match v
    case Null => c == 'n'
    case Number(_) => c == '-' || IsDigit(c)
    case Text(_) => c == '"'
    case Array(_) => c == '['
    case Object(_) => c == '{'
  }

  lemma RenderStarts(v: Value, indented: bool, depth: nat, r: string)
    ensures
      var t := Render(v, indented, depth) + r;
      t != "" && StartsLike(v, t[0]) && !Delimiter(t[0])
  {
    assert Render(v, indented, depth) != "" && StartsLike(v, Render(v, indented, depth)[0]);
  }

  lemma StartsDiffer(v: Value, w: Value, c: char)
    requires StartsLike(v, c) && StartsLike(w, c)
    ensures v.Null? == w.Null? && v.Number? == w.Number? && v.Text? == w.Text? && v.Array? == w.Array?
  {}

  lemma SignedEnds(p: bool, a: string, q: bool, b: string, r: string, s: string)
    requires Signed(p, a) + r == Signed(q, b) + s && a != "" && b != "" && IsDigit(a[0]) && IsDigit(b[0])
    ensures p == q && a + r == b + s
  {
    assert (Signed(p, a) + r)[0] == Signed(p, a)[0] && (Signed(q, b) + s)[0] == Signed(q, b)[0];
    if p { AfterOpening("-", a, b, r, s); }
  }

  lemma DecimalEnds(m: int, n: int, r: string, s: string)
    requires Decimal(m) + r == Decimal(n) + s && Delimited(r) && Delimited(s)
    ensures m == n && r == s
  {
    SignedEnds(m < 0, Digits(Magnitude(m)), n < 0, Digits(Magnitude(n)), r, s);
    DigitsEnd(Magnitude(m), Magnitude(n), r, s);
  }

  /** What follows item `i`. */
  function AfterItem(v: Value, i: nat, indented: bool, depth: nat): string
    requires v.Array? && i < |v.items|
  {
    if i + 1 == |v.items| then Close("]", indented, depth)
    else Comma(indented, depth) + RenderItems(v, i + 1, indented, depth)
  }

  /** What follows member `i`. */
  function AfterMember(v: Value, i: nat, indented: bool, depth: nat): string
    requires v.Object? && i < |v.members|
  {
    if i + 1 == |v.members| then Close("}", indented, depth)
    else Comma(indented, depth) + RenderMembers(v, i + 1, indented, depth)
  }

  lemma GapIsDelimited(indented: bool, depth: nat, bracket: string, r: string)
    requires bracket == "]" || bracket == "}"
    ensures Delimited(Close(bracket, indented, depth) + r) && (Close(bracket, indented, depth) + r) != ""
    ensures (Close(bracket, indented, depth) + r)[0] != ','
  {}

  lemma CommaIsDelimited(indented: bool, depth: nat, t: string, r: string)
    ensures (Comma(indented, depth) + t) + r != "" && ((Comma(indented, depth) + t) + r)[0] == ','
    ensures (Comma(indented, depth) + t) + r == Comma(indented, depth) + (t + r)
  {}

  lemma ItemThen(v: Value, i: nat, indented: bool, depth: nat, r: string)
    requires v.Array? && i < |v.items|
    ensures RenderItems(v, i, indented, depth) + r
         == Render(v.items[i], indented, depth + 1) + (AfterItem(v, i, indented, depth) + r)
    ensures Delimited(AfterItem(v, i, indented, depth) + r)
  {
    if i + 1 == |v.items| {
      GapIsDelimited(indented, depth, "]", r);
    } else {
      CommaIsDelimited(indented, depth, RenderItems(v, i + 1, indented, depth), r);
    }
  }

  lemma MemberThen(v: Value, i: nat, indented: bool, depth: nat, r: string)
    requires v.Object? && i < |v.members|
    ensures RenderMembers(v, i, indented, depth) + r
         == Quoted(v.members[i].key) + (Colon(indented)
            + (Render(v.members[i].value, indented, depth + 1) + (AfterMember(v, i, indented, depth) + r)))
    ensures Delimited(AfterMember(v, i, indented, depth) + r)
  {
    Regroup(Quoted(v.members[i].key), Colon(indented), Render(v.members[i].value, indented, depth + 1),
            AfterMember(v, i, indented, depth), r);
    MembersAreDelimited(v, i, indented, depth, r);
  }

  lemma MembersAreDelimited(v: Value, i: nat, indented: bool, depth: nat, r: string)
    requires v.Object? && i < |v.members|
    ensures Delimited(AfterMember(v, i, indented, depth) + r)
  {
    if i + 1 == |v.members| {
      GapIsDelimited(indented, depth, "}", r);
    } else {
      CommaIsDelimited(indented, depth, RenderMembers(v, i + 1, indented, depth), r);
    }
  }

  lemma QuotedEnds(a: string, b: string, r: string, s: string)
    requires Quoted(a) + r == Quoted(b) + s
    ensures a == b && r == s
  {
    AfterOpening("\"", Escaped(a), Escaped(b), r, s);
    EscapedEnd(a, b, r, s);
  }

  /** A value's text says where it ends, whatever may follow it. */
  lemma {:induction false} RenderEnds(v: Value, w: Value, indented: bool, depth: nat, r: string, s: string)
    requires Render(v, indented, depth) + r == Render(w, indented, depth) + s && Delimited(r) && Delimited(s)
    ensures v == w && r == s
    decreases v, 1, 0
  {
    RenderStarts(v, indented, depth, r);
    RenderStarts(w, indented, depth, s);
    StartsDiffer(v, w, (Render(v, indented, depth) + r)[0]);
    match v {
      case Null => Cancel("null", r, s);
      case Number(n) => DecimalEnds(n, w.value, r, s);
      case Text(t) => QuotedEnds(t, w.text, r, s);
      case Array(_) => ArrayEnds(v, w, indented, depth, r, s);
      case Object(_) => ObjectEnds(v, w, indented, depth, r, s);
    }
  }

  /** An empty container and one that is not are told apart by their second character. */
  lemma BracketsDiffer(open: string, close: string, gap: string, t: string, r: string, s: string)
    requires |open| == |close| == 1 && t != "" && t[0] != close[0] && (gap != "" ==> gap[0] != close[0])
    ensures (open + close) + r != (open + gap + t) + s
  {
    assert ((open + close) + r)[1] == close[0];
    assert ((open + gap + t) + s)[1] == (gap + t)[0];
  }

  lemma ItemsStart(v: Value, indented: bool, depth: nat)
    requires v.Array? && v.items != []
    ensures RenderItems(v, 0, indented, depth) != "" && !Delimiter(RenderItems(v, 0, indented, depth)[0])
  {
    ItemThen(v, 0, indented, depth, "");
    RenderStarts(v.items[0], indented, depth + 1, AfterItem(v, 0, indented, depth));
  }

  lemma ArrayEnds(v: Value, w: Value, indented: bool, depth: nat, r: string, s: string)
    requires v.Array? && w.Array?
    requires Render(v, indented, depth) + r == Render(w, indented, depth) + s && Delimited(r) && Delimited(s)
    ensures v == w && r == s
    decreases v, 1, 0, 0
  {
    if v.items != [] && w.items != [] {
      AfterOpening("[" + Gap(indented, depth + 1), RenderItems(v, 0, indented, depth),
                   RenderItems(w, 0, indented, depth), r, s);
      ItemsEnd(v, w, 0, indented, depth, r, s);
      assert v.items[0..] == v.items && w.items[0..] == w.items;
    } else {
      if v.items != [] { EmptyArrayDiffers(v, indented, depth, s, r); }
      if w.items != [] { EmptyArrayDiffers(w, indented, depth, r, s); }
      Cancel("[]", r, s);
    }
  }

  lemma EmptyArrayDiffers(v: Value, indented: bool, depth: nat, r: string, s: string)
    requires v.Array? && v.items != []
    ensures "[]" + r != ("[" + Gap(indented, depth + 1) + RenderItems(v, 0, indented, depth)) + s
  {
    ItemsStart(v, indented, depth);
    assert "[" + "]" == "[]";
    BracketsDiffer("[", "]", Gap(indented, depth + 1), RenderItems(v, 0, indented, depth), r, s);
  }

  lemma {:induction false} ItemsEnd(v: Value, w: Value, i: nat, indented: bool, depth: nat, r: string, s: string)
    requires v.Array? && w.Array? && i < |v.items| && i < |w.items| && Delimited(r) && Delimited(s)
    requires RenderItems(v, i, indented, depth) + r == RenderItems(w, i, indented, depth) + s
    ensures v.items[i..] == w.items[i..] && r == s
    decreases v, 0, |v.items| - i
  {
    ItemThen(v, i, indented, depth, r);
    ItemThen(w, i, indented, depth, s);
    var a, b := AfterItem(v, i, indented, depth), AfterItem(w, i, indented, depth);
    RenderEnds(v.items[i], w.items[i], indented, depth + 1, a + r, b + s);
    AfterItemsEnd(v, w, i, indented, depth, r, s);
    if i + 1 < |v.items| {
      ItemsEnd(v, w, i + 1, indented, depth, r, s);
    }
    assert v.items[i..] == [v.items[i]] + v.items[i + 1..] && w.items[i..] == [w.items[i]] + w.items[i + 1..];
  }

  lemma AfterItemsEnd(v: Value, w: Value, i: nat, indented: bool, depth: nat, r: string, s: string)
    requires v.Array? && w.Array? && i < |v.items| && i < |w.items|
    requires AfterItem(v, i, indented, depth) + r == AfterItem(w, i, indented, depth) + s
    ensures i + 1 == |v.items| <==> i + 1 == |w.items|
    ensures i + 1 == |v.items| ==> r == s
    ensures i + 1 < |v.items| && i + 1 < |w.items| ==>
              RenderItems(v, i + 1, indented, depth) + r == RenderItems(w, i + 1, indented, depth) + s
  {
    GapIsDelimited(indented, depth, "]", r);
    GapIsDelimited(indented, depth, "]", s);
    if i + 1 < |v.items| { CommaIsDelimited(indented, depth, RenderItems(v, i + 1, indented, depth), r); }
    if i + 1 < |w.items| { CommaIsDelimited(indented, depth, RenderItems(w, i + 1, indented, depth), s); }
    if i + 1 == |v.items| {
      Cancel(Close("]", indented, depth), r, s);
    } else {
      Cancel(Comma(indented, depth), RenderItems(v, i + 1, indented, depth) + r,
             RenderItems(w, i + 1, indented, depth) + s);
    }
  }

  lemma MembersStart(v: Value, indented: bool, depth: nat)
    requires v.Object? && v.members != []
    ensures RenderMembers(v, 0, indented, depth) != "" && RenderMembers(v, 0, indented, depth)[0] == '"'
  {}

  lemma ObjectEnds(v: Value, w: Value, indented: bool, depth: nat, r: string, s: string)
    requires v.Object? && w.Object?
    requires Render(v, indented, depth) + r == Render(w, indented, depth) + s && Delimited(r) && Delimited(s)
    ensures v == w && r == s
    decreases v, 1, 0, 0
  {
    if v.members != [] && w.members != [] {
      AfterOpening("{" + Gap(indented, depth + 1), RenderMembers(v, 0, indented, depth),
                   RenderMembers(w, 0, indented, depth), r, s);
      MembersEnd(v, w, 0, indented, depth, r, s);
      assert v.members[0..] == v.members && w.members[0..] == w.members;
    } else {
      if v.members != [] { EmptyObjectDiffers(v, indented, depth, s, r); }
      if w.members != [] { EmptyObjectDiffers(w, indented, depth, r, s); }
      Cancel("{}", r, s);
    }
  }

  lemma EmptyObjectDiffers(v: Value, indented: bool, depth: nat, r: string, s: string)
    requires v.Object? && v.members != []
    ensures "{}" + r != ("{" + Gap(indented, depth + 1) + RenderMembers(v, 0, indented, depth)) + s
  {
    MembersStart(v, indented, depth);
    assert "{" + "}" == "{}";
    BracketsDiffer("{", "}", Gap(indented, depth + 1), RenderMembers(v, 0, indented, depth), r, s);
  }

  lemma {:induction false} MembersEnd(v: Value, w: Value, i: nat, indented: bool, depth: nat, r: string, s: string)
    requires v.Object? && w.Object? && i < |v.members| && i < |w.members| && Delimited(r) && Delimited(s)
    requires RenderMembers(v, i, indented, depth) + r == RenderMembers(w, i, indented, depth) + s
    ensures v.members[i..] == w.members[i..] && r == s
    decreases v, 0, |v.members| - i
  {
    MemberThen(v, i, indented, depth, r);
    MemberThen(w, i, indented, depth, s);
    var a, b := AfterMember(v, i, indented, depth), AfterMember(w, i, indented, depth);
    var m, n := v.members[i], w.members[i];
    var x, y := Render(m.value, indented, depth + 1), Render(n.value, indented, depth + 1);
    MemberParts(m.key, n.key, indented, x + (a + r), y + (b + s));
    RenderEnds(m.value, n.value, indented, depth + 1, a + r, b + s);
    AfterMembersEnd(v, w, i, indented, depth, r, s);
    if i + 1 < |v.members| { MembersEnd(v, w, i + 1, indented, depth, r, s); }
    assert v.members[i..] == [m] + v.members[i + 1..] && w.members[i..] == [n] + w.members[i + 1..];
  }

  lemma MemberParts(k: string, l: string, indented: bool, r: string, s: string)
    requires Quoted(k) + (Colon(indented) + r) == Quoted(l) + (Colon(indented) + s)
    ensures k == l && r == s
  {
    QuotedEnds(k, l, Colon(indented) + r, Colon(indented) + s);
    Cancel(Colon(indented), r, s);
  }

  lemma AfterMembersEnd(v: Value, w: Value, i: nat, indented: bool, depth: nat, r: string, s: string)
    requires v.Object? && w.Object? && i < |v.members| && i < |w.members|
    requires AfterMember(v, i, indented, depth) + r == AfterMember(w, i, indented, depth) + s
    ensures i + 1 == |v.members| <==> i + 1 == |w.members|
    ensures i + 1 == |v.members| ==> r == s
    ensures i + 1 < |v.members| && i + 1 < |w.members| ==>
              RenderMembers(v, i + 1, indented, depth) + r == RenderMembers(w, i + 1, indented, depth) + s
  {
    GapIsDelimited(indented, depth, "}", r);
    GapIsDelimited(indented, depth, "}", s);
    if i + 1 < |v.members| { CommaIsDelimited(indented, depth, RenderMembers(v, i + 1, indented, depth), r); }
    if i + 1 < |w.members| { CommaIsDelimited(indented, depth, RenderMembers(w, i + 1, indented, depth), s); }
    if i + 1 == |v.members| {
      Cancel(Close("}", indented, depth), r, s);
    } else {
      Cancel(Comma(indented, depth), RenderMembers(v, i + 1, indented, depth) + r,
             RenderMembers(w, i + 1, indented, depth) + s);
    }
  }

  /** Different values never have the same text. */
  lemma RenderIsInjective(v: Value, w: Value, indented: bool)
    requires Render(v, indented, 0) == Render(w, indented, 0)
    ensures v == w
  {
    assert Render(v, indented, 0) + "" == Render(v, indented, 0) && Render(w, indented, 0) + "" == Render(w, indented, 0);
    RenderEnds(v, w, indented, 0, "", "");
  }
}
