/**
 The byte strings that a Rust `String` can hold are exactly the concatenated encodings of Unicode
 scalar values (section 3 of RFC 3629).
 */
module Utf8 {
  import opened Bytes

  /** Code points without the surrogates. */
  predicate IsScalar(c: nat) {
    c < 0xD800 || 0xE000 <= c < 0x11_0000
  }

  /** The encoding of a scalar value: six bits per continuation byte. */
  function Encode(c: nat): (b: seq<u8>)
    requires IsScalar(c)
    ensures 1 <= |b| <= 4
  {
    if c < 0x80 then [c]
    else if c < 0x800 then [0xC0 + c / 0x40, 0x80 + c % 0x40]
    else if c < 0x1_0000 then [0xE0 + c / 0x1000, 0x80 + c / 0x40 % 0x40, 0x80 + c % 0x40]
    else [0xF0 + c / 0x4_0000, 0x80 + c / 0x1000 % 0x40, 0x80 + c / 0x40 % 0x40, 0x80 + c % 0x40]
  }

  function EncodeAll(cs: seq<nat>): seq<u8>
    requires forall i :: 0 <= i < |cs| ==> IsScalar(cs[i])
  {
    if cs == [] then [] else Encode(cs[0]) + EncodeAll(cs[1..])
  }

  lemma EncodedScalar(c: nat, rest: seq<u8>)
    requires IsScalar(c)
    ensures ScalarLength(Encode(c) + rest) == |Encode(c)|
  {
    var b := Encode(c);
    assert forall i :: 0 <= i < |b| ==> (b + rest)[i] == b[i];
    if c < 0x800 {
    } else if c < 0x1_0000 {
      assert c / 0x1000 == 0xD ==> c / 0x40 % 0x40 < 0x20;
      assert c / 0x1000 == 0 ==> c / 0x40 % 0x40 >= 0x20;
    } else {
      assert 1 <= c / 0x1_0000 <= 0x10;
      assert c / 0x4_0000 == 0 ==> c / 0x1000 % 0x40 >= 0x10;
      assert c / 0x4_0000 == 4 ==> c / 0x1000 % 0x40 < 0x10;
    }
  }

  /** Six-bit digits. */
  lemma Digits(x: nat, y: nat, z: nat, w: nat)
    requires y < 0x40 && z < 0x40 && w < 0x40
    ensures var c := x * 0x4_0000 + y * 0x1000 + z * 0x40 + w;
            c / 0x4_0000 == x && c / 0x1000 % 0x40 == y && c / 0x40 % 0x40 == z && c % 0x40 == w
    ensures var c := y * 0x1000 + z * 0x40 + w;
            c / 0x1000 == y && c / 0x40 % 0x40 == z && c % 0x40 == w
  {
    var c := x * 0x4_0000 + y * 0x1000 + z * 0x40 + w;
    assert c / 0x40 == x * 0x1000 + y * 0x40 + z;
    assert c / 0x1000 == x * 0x40 + y;
  }

  lemma ThreeBytes(a: u8, b: u8, d: u8) returns (c: nat)
    requires 0xE0 <= a <= 0xEF && IsContinuation(b) && IsContinuation(d)
    requires (a == 0xE0 ==> 0xA0 <= b) && (a == 0xED ==> b <= 0x9F)
    ensures IsScalar(c) && [a, b, d] == Encode(c)
  {
    var x: int, y: int, z: int := a, b, d;
    c := (x - 0xE0) * 0x1000 + (y - 0x80) * 0x40 + (z - 0x80);
    Digits(0, x - 0xE0, y - 0x80, z - 0x80);
  }

  lemma FourBytes(a: u8, b: u8, d: u8, e: u8) returns (c: nat)
    requires 0xF0 <= a <= 0xF4 && IsContinuation(b) && IsContinuation(d) && IsContinuation(e)
    requires (a == 0xF0 ==> 0x90 <= b) && (a == 0xF4 ==> b <= 0x8F)
    ensures IsScalar(c) && [a, b, d, e] == Encode(c)
  {
    var x: int, y: int, z: int, w: int := a, b, d, e;
    c := (x - 0xF0) * 0x4_0000 + (y - 0x80) * 0x1000 + (z - 0x80) * 0x40 + (w - 0x80);
    Digits(x - 0xF0, y - 0x80, z - 0x80, w - 0x80);
  }

  /** Whatever is taken for a scalar encodes one. */
  lemma ScalarDecoded(s: seq<u8>) returns (c: nat)
    requires s != [] && ScalarLength(s) > 0
    ensures IsScalar(c) && s[..ScalarLength(s)] == Encode(c)
  {
    var n := ScalarLength(s);
    if n == 1 {
      c := s[0];
    } else if n == 2 {
      var x: int, y: int := s[0], s[1];
      c := (x - 0xC0) * 0x40 + (y - 0x80);
    } else if n == 3 {
      c := ThreeBytes(s[0], s[1], s[2]);
      hide Encode;
      assert s[..3] == [s[0], s[1], s[2]];
    } else {
      c := FourBytes(s[0], s[1], s[2], s[3]);
      hide Encode;
      assert s[..4] == [s[0], s[1], s[2], s[3]];
    }
  }

  lemma {:induction false} EncodedIsValid(cs: seq<nat>)
    requires forall i :: 0 <= i < |cs| ==> IsScalar(cs[i])
    ensures ValidUtf8(EncodeAll(cs))
  {
    hide Encode, ScalarLength;
    if cs == [] {
    } else {
      EncodedIsValid(cs[1..]);
      EncodedScalar(cs[0], EncodeAll(cs[1..]));
      var s := EncodeAll(cs);
      assert s[|Encode(cs[0])|..] == EncodeAll(cs[1..]);
    }
  }

  lemma {:induction false} ValidIsEncoded(s: seq<u8>) returns (cs: seq<nat>)
    requires ValidUtf8(s)
    ensures (forall i :: 0 <= i < |cs| ==> IsScalar(cs[i])) && EncodeAll(cs) == s
    decreases |s|
  {
    hide Encode, ScalarLength, IsScalar;
    if s == [] {
      cs := [];
    } else {
      var n := ScalarLength(s);
      var c := ScalarDecoded(s);
      var later := ValidIsEncoded(s[n..]);
      cs := [c] + later;
      assert cs[1..] == later && s == s[..n] + s[n..];
    }
  }
}
