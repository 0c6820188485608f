/**
 Machine integers, byte strings and the small sequence toolkit shared by every other module.
 Integer widths are explicit: a value that the program stores in a `u32` has type `u32` here,
 and every `as u32` cast of the program is written as `% 0x1_0000_0000`.
 */
module Bytes {
  type u8 = x: int | 0 <= x < 0x100
  type u16 = x: int | 0 <= x < 0x1_0000
  type u32 = x: int | 0 <= x < 0x1_0000_0000
  type u64 = x: int | 0 <= x < 0x1_0000_0000_0000_0000

  const TWO_32: int := 0x1_0000_0000

  datatype Option<+T> = None | Some(value: T) {
    function GetOr(default: T): T {
      if Some? then value else default
    }
  }

  function Min(a: int, b: int): int {
    if a <= b then a else b
  }

  function Max(a: int, b: int): int {
    if a >= b then a else b
  }

  /** Concatenation of a list of pieces, in order. */
  function Concat<T>(parts: seq<seq<T>>): seq<T> {
    if parts == [] then [] else parts[0] + Concat(parts[1..])
  }

  lemma {:induction false} ConcatAppend<T>(a: seq<seq<T>>, b: seq<seq<T>>)
    ensures Concat(a + b) == Concat(a) + Concat(b)
  {
    if a == [] {
      assert a + b == b;
    } else {
      ConcatAppend(a[1..], b);
      assert (a + b)[1..] == a[1..] + b;
      assert (a + b)[0] == a[0];
    }
  }

  lemma ConcatSnoc<T>(a: seq<seq<T>>, x: seq<T>)
    ensures Concat(a + [x]) == Concat(a) + x
  {
    ConcatAppend(a, [x]);
    assert Concat([x]) == x + Concat<T>([]);
  }

  lemma AppendAssociates<T>(a: seq<T>, b: seq<T>, c: seq<T>)
    ensures (a + b) + c == a + (b + c)
  {}

  // Big-endian words ---------------------------------------------------------------

  function U32Bytes(v: u32): (b: seq<u8>)
    ensures |b| == 4 && U32Of(b) == v
  {
    var w := v / 0x100;
    var x := w / 0x100;
    [x / 0x100, x % 0x100, w % 0x100, v % 0x100]
  }

  function U32Of(b: seq<u8>): u32
    requires |b| == 4
  {
    var b0: int, b1: int, b2: int, b3: int := b[0], b[1], b[2], b[3];
    ((b0 * 0x100 + b1) * 0x100 + b2) * 0x100 + b3
  }

  lemma U32BytesInverse(b: seq<u8>)
    requires |b| == 4
    ensures U32Bytes(U32Of(b)) == b
  {
    var v := U32Of(b);
    var w := v / 0x100;
    assert v % 0x100 == b[3];
    assert w % 0x100 == b[2];
    assert w / 0x100 % 0x100 == b[1];
  }

  function U64Bytes(v: u64): (b: seq<u8>)
    ensures |b| == 8 && U64Of(b) == v
  {
    var b := U32Bytes(v / 0x1_0000_0000) + U32Bytes(v % 0x1_0000_0000);
    assert b[..4] == U32Bytes(v / 0x1_0000_0000) && b[4..] == U32Bytes(v % 0x1_0000_0000);
    b
  }

  function U64Of(b: seq<u8>): u64
    requires |b| == 8
  {
    U32Of(b[..4]) * 0x1_0000_0000 + U32Of(b[4..])
  }

  lemma U64BytesInverse(b: seq<u8>)
    requires |b| == 8
    ensures U64Bytes(U64Of(b)) == b
  {
    U32BytesInverse(b[..4]);
    U32BytesInverse(b[4..]);
    assert U64Of(b) / 0x1_0000_0000 == U32Of(b[..4]);
    assert U64Of(b) % 0x1_0000_0000 == U32Of(b[4..]);
    assert b == b[..4] + b[4..];
  }

  // UTF-8 --------------------------------------------------------------------------

  predicate IsContinuation(b: u8) {
    0x80 <= b <= 0xBF
  }

  /** Length of the well-formed scalar at the front of `s`, or 0 when there is none
      (the byte table in section 4 of RFC 3629). */
  function ScalarLength(s: seq<u8>): (n: nat)
    requires s != []
    ensures n <= |s|
  {
    if s[0] < 0x80 then 1
    else if |s| >= 2 && 0xC2 <= s[0] <= 0xDF && IsContinuation(s[1]) then 2
    else if |s| >= 3 && 0xE0 <= s[0] <= 0xEF && IsContinuation(s[1]) && IsContinuation(s[2])
            && (s[0] == 0xE0 ==> 0xA0 <= s[1]) && (s[0] == 0xED ==> s[1] <= 0x9F) then 3
    else if |s| >= 4 && 0xF0 <= s[0] <= 0xF4 && IsContinuation(s[1]) && IsContinuation(s[2]) && IsContinuation(s[3])
            && (s[0] == 0xF0 ==> 0x90 <= s[1]) && (s[0] == 0xF4 ==> s[1] <= 0x8F) then 4
    else 0
  }

  predicate ValidUtf8(s: seq<u8>) {
    s == [] || (var n := ScalarLength(s); n != 0 && ValidUtf8(s[n..]))
  }

  /** A Rust `String`: bytes that are valid UTF-8. */
  type Text = s: seq<u8> | ValidUtf8(s)

  lemma {:induction false} AsciiIsUtf8(s: seq<u8>)
    requires forall i :: 0 <= i < |s| ==> s[i] < 0x80
    ensures ValidUtf8(s)
  {
    if s == [] {
    } else {
      AsciiIsUtf8(s[1..]);
    }
  }

  /** The bytes of an ASCII literal. */
  function Ascii(s: string): (t: Text)
    requires forall i :: 0 <= i < |s| ==> s[i] as int < 0x80
    ensures |t| == |s| && forall i :: 0 <= i < |s| ==> t[i] == s[i] as int
  {
    var t: seq<u8> := seq(|s|, i requires 0 <= i < |s| => s[i] as int);
    AsciiIsUtf8(t);
    t
  }
}
