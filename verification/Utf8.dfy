/** The UTF-8 encoding (RFC 3629, section 3): different texts have different bytes. */
module Utf8 {
  import opened EvidenceModel

  function EncodeChar(c: char): Bytes {
    var n := c as int;
    if n < 0x80 then [n]
    else if n < 0x800 then [0xC0 + n / 0x40, Tail(n)]
    else if n < 0x10000 then [0xE0 + n / 0x1000, Tail(n / 0x40), Tail(n)]
    else [0xF0 + n / 0x40000, Tail(n / 0x1000), Tail(n / 0x40), Tail(n)]
  }

  function Tail(n: nat): Byte { 0x80 + n % 0x40 }

  function Encode(s: string): Bytes {
    if s == "" then [] else EncodeChar(s[0]) + Encode(s[1..])
  }

  /** The first byte tells how many there are. */
  function Length(first: Byte): nat {
    if first < 0x80 then 1 else if first < 0xE0 then 2 else if first < 0xF0 then 3 else 4
  }

  lemma LengthShows(c: char)
    ensures EncodeChar(c) != [] && |EncodeChar(c)| == Length(EncodeChar(c)[0])
  {}

  lemma Digit(m: nat, n: nat)
    requires Tail(m) == Tail(n) && m / 0x40 == n / 0x40
    ensures m == n
  {}

  lemma CharsDiffer(c: char, d: char)
    requires EncodeChar(c) == EncodeChar(d)
    ensures c == d
  {
    var m, n := c as int, d as int;
    LengthShows(c);
    LengthShows(d);
    var e, f := EncodeChar(c), EncodeChar(d);
    assert forall i :: 0 <= i < |e| ==> e[i] == f[i];
    if |e| == 2 {
      Digit(m, n);
    } else if |e| == 3 {
      assert m / 0x1000 == m / 0x40 / 0x40 && n / 0x1000 == n / 0x40 / 0x40;
      Digit(m / 0x40, n / 0x40);
      Digit(m, n);
    } else if |e| == 4 {
      assert m / 0x1000 == m / 0x40 / 0x40 && n / 0x1000 == n / 0x40 / 0x40;
      assert m / 0x40000 == m / 0x1000 / 0x40 && n / 0x40000 == n / 0x1000 / 0x40;
      Digit(m / 0x1000, n / 0x1000);
      Digit(m / 0x40, n / 0x40);
      Digit(m, n);
    }
  }

  lemma {:induction false} EncodeIsInjective(s: string, t: string)
    requires Encode(s) == Encode(t)
    ensures s == t
  {
    if s != "" { LengthShows(s[0]); }
    if t != "" { LengthShows(t[0]); }
    if s != "" && t != "" {
      var e, f := EncodeChar(s[0]), EncodeChar(t[0]);
      assert Encode(s)[0] == e[0] && Encode(t)[0] == f[0];
      assert Encode(s)[..|e|] == e && Encode(t)[..|f|] == f;
      CharsDiffer(s[0], t[0]);
      assert Encode(s)[|e|..] == Encode(s[1..]) && Encode(t)[|f|..] == Encode(t[1..]);
      EncodeIsInjective(s[1..], t[1..]);
      assert s == [s[0]] + s[1..] && t == [t[0]] + t[1..];
    }
  }
}
