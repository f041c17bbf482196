// UTF-8 as defined in section 3 of RFC 3629. A Dafny `char` is a Unicode scalar
// value, which is exactly what a decoded Python string holds here.
module Utf8 {
  import opened Bytes
  import opened Wrappers
  import Seqs

  function EncodeChar(c: char): (b: seq<Byte>)
    ensures 1 <= |b| <= 4
    ensures !IsContinuation(b[0])
    ensures forall i :: 1 <= i < |b| ==> IsContinuation(b[i])
    ensures (0 in b) == (c == '\0')
  {
    var v := c as int;
    if v < 0x80 then
      [v]
    else if v < 0x800 then
      [0xC0 + v / 64, 0x80 + v % 64]
    else if v < 0x1_0000 then
      [0xE0 + v / 4096, 0x80 + v / 64 % 64, 0x80 + v % 64]
    else
      [0xF0 + v / 0x4_0000, 0x80 + v / 4096 % 64, 0x80 + v / 64 % 64, 0x80 + v % 64]
  }

  // The test `(b & 0xC0) == 0x80`.
  predicate IsContinuation(b: Byte) {
    0x80 <= b < 0xC0
  }

  function Encode(s: string): (b: seq<Byte>)
    ensures |b| >= |s|
    ensures s != "" ==> b != [] && !IsContinuation(b[0])
  {
    if s == "" then [] else EncodeChar(s[0]) + Encode(s[1..])
  }

  predicate IsScalar(v: int) {
    0 <= v < 0xD800 || 0xE000 <= v < 0x11_0000
  }

  // The value bits of a continuation byte.
  function Low6(b: Byte): (x: int)
    requires IsContinuation(b)
    ensures 0 <= x < 64 && 0x80 + x == b
  {
    b - 0x80
  }

  // The first code point of `b` and how many bytes it took, or None where a strict
  // decoder stops: stray or missing continuation bytes, overlong forms, surrogates.
  function DecodeFirst(b: seq<Byte>): (r: Option<(char, nat)>)
    requires b != []
    ensures r.Some? ==> 1 <= r.value.1 <= |b|
  {
    var lead: int := b[0];
    if lead < 0x80 then
      Some((lead as char, 1))
    else if 0xC0 <= lead < 0xE0 && |b| >= 2 && IsContinuation(b[1]) then
      var v := (lead - 0xC0) * 64 + Low6(b[1]);
      if 0x80 <= v then Some((v as char, 2)) else None
    else if 0xE0 <= lead < 0xF0 && |b| >= 3 && IsContinuation(b[1]) && IsContinuation(b[2]) then
      var v := (lead - 0xE0) * 4096 + Low6(b[1]) * 64 + Low6(b[2]);
      if 0x800 <= v && IsScalar(v) then Some((v as char, 3)) else None
    else if
      0xF0 <= lead < 0xF5 && |b| >= 4 &&
      IsContinuation(b[1]) && IsContinuation(b[2]) && IsContinuation(b[3])
    then
      var v := (lead - 0xF0) * 0x4_0000 + Low6(b[1]) * 4096 + Low6(b[2]) * 64 + Low6(b[3]);
      if 0x1_0000 <= v && IsScalar(v) then Some((v as char, 4)) else None
    else
      None
  }

  function Decode(b: seq<Byte>): (r: Option<string>) {
    if b == [] then Some("")
    else
      match DecodeFirst(b)
      case None => None
      case Some((c, n)) =>
        match Decode(b[n..])
        case None => None
        case Some(rest) => Some([c] + rest)
  }

  lemma Digits64(a: int, x1: int, x2: int, x3: int)
    requires 0 <= a && 0 <= x1 < 64 && 0 <= x2 < 64 && 0 <= x3 < 64
    ensures
      var v := a * 0x4_0000 + x1 * 4096 + x2 * 64 + x3;
      v / 0x4_0000 == a && v / 4096 % 64 == x1 && v / 64 % 64 == x2 && v % 64 == x3
  {
    var v := a * 0x4_0000 + x1 * 4096 + x2 * 64 + x3;
    assert v / 64 == a * 4096 + x1 * 64 + x2;
    assert v / 4096 == a * 64 + x1;
  }

  lemma DecodeFirstSound(b: seq<Byte>)
    requires b != [] && DecodeFirst(b).Some?
    ensures var (c, n) := DecodeFirst(b).value; EncodeChar(c) == b[..n]
  {
    var (c, n) := DecodeFirst(b).value;
    var lead: int := b[0];
    var v := c as int;
    if n == 2 {
      Digits64(0, 0, lead - 0xC0, Low6(b[1]));
      assert EncodeChar(c) == [b[0], b[1]];
    } else if n == 3 {
      Digits64(0, lead - 0xE0, Low6(b[1]), Low6(b[2]));
      assert EncodeChar(c) == [b[0], b[1], b[2]];
    } else if n == 4 {
      Digits64(lead - 0xF0, Low6(b[1]), Low6(b[2]), Low6(b[3]));
      assert EncodeChar(c) == [b[0], b[1], b[2], b[3]];
    }
  }

  lemma DecodeFirstInverts(c: char, rest: seq<Byte>)
    ensures DecodeFirst(EncodeChar(c) + rest) == Some((c, |EncodeChar(c)|))
  {
    var b := EncodeChar(c) + rest;
    var v := c as int;
    if v < 0x80 {
      assert b[0] == v;
    } else if v < 0x800 {
      assert b[0] == 0xC0 + v / 64 && b[1] == 0x80 + v % 64;
    } else if v < 0x1_0000 {
      assert b[0] == 0xE0 + v / 4096 && b[1] == 0x80 + v / 64 % 64 && b[2] == 0x80 + v % 64;
      Reassemble(v);
    } else {
      assert b[0] == 0xF0 + v / 0x4_0000 && b[1] == 0x80 + v / 4096 % 64;
      assert b[2] == 0x80 + v / 64 % 64 && b[3] == 0x80 + v % 64;
      Reassemble(v);
    }
  }

  lemma Reassemble(v: int)
    requires 0 <= v
    ensures v == v / 4096 * 4096 + v / 64 % 64 * 64 + v % 64
    ensures v / 4096 == v / 0x4_0000 * 64 + v / 4096 % 64
  {
    var m := v / 64;
    assert v / 4096 == m / 64;
    assert v / 0x4_0000 == m / 64 / 64;
  }

  // The decoder accepts only what the encoder produces.
  lemma {:induction false} EncodeInvertsDecode(b: seq<Byte>)
    requires Decode(b).Some?
    ensures Encode(Decode(b).value) == b
  {
    hide DecodeFirst, EncodeChar;
    if b != [] {
      var (c, n) := DecodeFirst(b).value;
      DecodeFirstSound(b);
      EncodeInvertsDecode(b[n..]);
      Seqs.TailOfCons(c, Decode(b[n..]).value);
    }
  }

  // A strict decoder recovers exactly the text that was encoded.
  lemma {:induction false} DecodeInvertsEncode(s: string)
    ensures Decode(Encode(s)) == Some(s)
  {
    if s != "" {
      DecodeFirstInverts(s[0], Encode(s[1..]));
      assert Encode(s)[|EncodeChar(s[0])|..] == Encode(s[1..]);
      DecodeInvertsEncode(s[1..]);
      assert [s[0]] + s[1..] == s;
    }
  }

  lemma {:induction false} EncodeConcat(s: string, t: string)
    ensures Encode(s + t) == Encode(s) + Encode(t)
  {
    if s == "" {
      assert s + t == t;
    } else {
      EncodeConcat(s[1..], t);
      assert (s + t)[1..] == s[1..] + t;
    }
  }

  lemma EncodeOne(c: char)
    ensures Encode([c]) == EncodeChar(c)
  {
    assert [c][1..] == "";
  }

  // Where the code point at index `i` sits in the encoding.
  lemma EncodeAt(s: string, i: nat)
    requires i < |s|
    ensures Encode(s) == Encode(s[..i]) + EncodeChar(s[i]) + Encode(s[i + 1..])
    ensures Encode(s[..i + 1]) == Encode(s[..i]) + EncodeChar(s[i])
  {
    hide Encode, EncodeChar;
    EncodeOne(s[i]);
    assert s[..i + 1] == s[..i] + [s[i]];
    EncodeConcat(s[..i], [s[i]]);
    assert s == s[..i + 1] + s[i + 1..];
    EncodeConcat(s[..i + 1], s[i + 1..]);
  }

  lemma {:induction false} EncodeKeepsNul(s: string)
    ensures (0 in Encode(s)) == ('\0' in s)
  {
    if s != "" {
      EncodeKeepsNul(s[1..]);
      assert s == [s[0]] + s[1..];
    }
  }

  // Where the sequences of each length begin and end, and the byte that starts each.
  lemma KnownEncodings()
    ensures Encode("A") == [0x41] && Encode("\U{7F}") == [0x7F]
    ensures Encode("\U{80}") == [0xC2, 0x80] && Encode("\U{7FF}") == [0xDF, 0xBF]
    ensures Encode("\U{800}") == [0xE0, 0xA0, 0x80] && Encode("\U{20AC}") == [0xE2, 0x82, 0xAC]
    ensures Encode("\U{FFFF}") == [0xEF, 0xBF, 0xBF]
    ensures Encode("\U{10000}") == [0xF0, 0x90, 0x80, 0x80] && Encode("\U{10FFFF}") == [0xF4, 0x8F, 0xBF, 0xBF]
  {
    EncodeOne('A');
    EncodeOne('\U{7F}');
    EncodeOne('\U{80}');
    EncodeOne('\U{7FF}');
    EncodeOne('\U{800}');
    EncodeOne('\U{20AC}');
    EncodeOne('\U{FFFF}');
    EncodeOne('\U{10000}');
    EncodeOne('\U{10FFFF}');
  }

  // How many bytes a character takes.
  lemma EncodedLength(c: char)
    ensures |EncodeChar(c)|
         == if c as int < 0x80 then 1 else if c as int < 0x800 then 2 else if c as int < 0x1_0000 then 3 else 4
  {
  }
}
