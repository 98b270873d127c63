// UTF-8 (section 3 of RFC 3629) of strings of Unicode scalar values, and why it
// can be read back.

module Utf8 {

  type Byte = b: nat | b < 256

  // The bytes a scalar takes.
  function Width(c: char): nat {
    if c as int < 0x80 then 1 else if c as int < 0x800 then 2 else if c as int < 0x1_0000 then 3 else 4
  }

  function Tail(n: nat): Byte { 0x80 + n % 0x40 }

  function EncodeChar(c: char): (b: seq<Byte>)
    ensures |b| == Width(c) <= 4
  {
    var n := c as int;
    if n < 0x80 then [n]
    else if n < 0x800 then [0xc0 + n / 0x40, Tail(n)]
    else if n < 0x1_0000 then [0xe0 + n / 0x1000, Tail(n / 0x40), Tail(n)]
    else [0xf0 + n / 0x4_0000, Tail(n / 0x1000), Tail(n / 0x40), Tail(n)]
  }

  function Encode(s: string): seq<Byte> {
    if s == "" then [] else EncodeChar(s[0]) + Encode(s[1..])
  }

  lemma CharDecodes(c: char, d: char, x: seq<Byte>, y: seq<Byte>)
    requires EncodeChar(c) + x == EncodeChar(d) + y
    ensures c == d && x == y
  {
    var u, v := EncodeChar(c), EncodeChar(d);
    assert u[0] == (u + x)[0] == (v + y)[0] == v[0];
    assert Width(c) == Width(d);
    assert forall i :: 0 <= i < |u| ==> u[i] == (u + x)[i] == (v + y)[i] == v[i];
    assert x == (u + x)[|u|..] && y == (v + y)[|v|..];
    SameBytesSameChar(c, d);
  }

  // The scalar its bytes spell: the payload bits of the first byte, then six a byte.
  function Spelled(b: seq<Byte>): nat {
    match |b|
    case 1 => b[0]
    case 2 => Low(b[0], 0x20) * 0x40 + Low(b[1], 0x40)
    case 3 => Low(b[0], 0x10) * 0x1000 + Low(b[1], 0x40) * 0x40 + Low(b[2], 0x40)
    case 4 => Low(b[0], 0x08) * 0x4_0000 + Low(b[1], 0x40) * 0x1000 + Low(b[2], 0x40) * 0x40 + Low(b[3], 0x40)
    case _ => 0
  }

  function Low(b: Byte, base: nat): nat
    requires base > 0
  {
    b % base
  }

  lemma InSixes(n: nat)
    ensures n == n / 0x40 * 0x40 + n % 0x40
    ensures n == n / 0x1000 * 0x1000 + n / 0x40 % 0x40 * 0x40 + n % 0x40
    ensures n == n / 0x4_0000 * 0x4_0000 + n / 0x1000 % 0x40 * 0x1000 + n / 0x40 % 0x40 * 0x40 + n % 0x40
  {
    var q, r := n / 0x40, n / 0x1000;
    assert q / 0x40 == r;
    assert r / 0x40 == n / 0x4_0000;
  }

  lemma SpelledChar(c: char)
    ensures Spelled(EncodeChar(c)) == c as int
  {
    var n := c as int;
    InSixes(n);
    assert forall i: nat :: Tail(i) % 0x40 == i % 0x40;
    assert n < 0x800 ==> (0xc0 + n / 0x40) % 0x20 == n / 0x40;
    assert n < 0x1_0000 ==> (0xe0 + n / 0x1000) % 0x10 == n / 0x1000;
    assert (0xf0 + n / 0x4_0000) % 0x08 == n / 0x4_0000;
  }

  lemma SameBytesSameChar(c: char, d: char)
    requires EncodeChar(c) == EncodeChar(d)
    ensures c == d
  {
    SpelledChar(c);
    SpelledChar(d);
    assert c as int == d as int;
  }

  // The bytes determine the string.
  lemma {:induction false} EncodingDecodes(s: string, t: string)
    requires Encode(s) == Encode(t)
    ensures s == t
  {
    hide EncodeChar;
    if s != "" && t != "" {
      CharDecodes(s[0], t[0], Encode(s[1..]), Encode(t[1..]));
      EncodingDecodes(s[1..], t[1..]);
      assert s == [s[0]] + s[1..] && t == [t[0]] + t[1..];
    }
  }

  lemma {:induction false} EncodingAppends(s: string, t: string)
    ensures Encode(s + t) == Encode(s) + Encode(t)
  {
    hide EncodeChar;
    if s == "" {
      assert s + t == t;
    } else {
      assert (s + t)[1..] == s[1..] + t;
      EncodingAppends(s[1..], t);
    }
  }

  // A byte below 0x80 stands for itself and nothing else.
  lemma {:induction false} AsciiStandsForItself(s: string, c: char)
    requires c as int < 0x80
    ensures c as int in Encode(s) <==> c in s
  {
    if s != "" {
      AsciiStandsForItself(s[1..], c);
      assert c as int in EncodeChar(s[0]) <==> c == s[0];
      assert c in s <==> c == s[0] || c in s[1..];
    }
  }
}
