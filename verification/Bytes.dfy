/** Bytes, byte strings and the small result types shared by every module. */
module Bytes {

  newtype Byte = b: int | 0 <= b < 256

  datatype Option<+T> = None | Some(value: T)

  datatype Result<+T, +E> = Ok(value: T) | Err(error: E)

  /** The largest value of `usize` on a 64-bit target. */
  const USIZE_MAX: nat := 0xFFFF_FFFF_FFFF_FFFF

  const TAB: Byte := 9
  const LF: Byte := 10
  const CR: Byte := 13
  const SPACE: Byte := 32
  const DOUBLE_QUOTE: Byte := 34
  const SINGLE_QUOTE: Byte := 39
  const DASH: Byte := 45
  const ZERO_DIGIT: Byte := 48
  const NINE_DIGIT: Byte := 57
  const COLON: Byte := 58
  const SEMICOLON: Byte := 59
  const EQUALS: Byte := 61

  const CRLF: seq<Byte> := [13, 10]

  /** The marker that ends a header block: CR LF CR LF. */
  const HEADER_END: seq<Byte> := [13, 10, 13, 10]

  predicate IsAscii(text: string) {
    forall i :: 0 <= i < |text| ==> text[i] as int < 128
  }

  /** The bytes of an ASCII literal. */
  function Ascii(text: string): (b: seq<Byte>)
    requires IsAscii(text)
    ensures |b| == |text|
    ensures forall i :: 0 <= i < |text| ==> b[i] as int == text[i] as int
  {
    seq(|text|, i requires 0 <= i < |text| => text[i] as int as Byte)
  }

  predicate IsDigit(b: Byte) {
    ZERO_DIGIT <= b <= NINE_DIGIT
  }

  /** `u8::to_ascii_lowercase`. */
  function Lower(b: Byte): Byte {
    if 65 <= b <= 90 then b + 32 else b
  }

  /** `eq_ignore_ascii_case` on slices. */
  predicate EqIgnoreCase(a: seq<Byte>, b: seq<Byte>) {
    |a| == |b| && forall i :: 0 <= i < |a| ==> Lower(a[i]) == Lower(b[i])
  }

  /** The text is the word `w`, itself in small letters, with each letter in either case. */
  predicate Spells(w: seq<Byte>, text: seq<Byte>) {
    && |text| == |w|
    && forall k :: 0 <= k < |w| ==> text[k] == w[k] || (97 <= w[k] <= 122 && text[k] == w[k] - 32)
  }

  lemma SpellsIs(w: seq<Byte>, text: seq<Byte>)
    requires forall k :: 0 <= k < |w| ==> !(65 <= w[k] <= 90)
    ensures Spells(w, text) <==> EqIgnoreCase(text, w)
  {
  }

  function Min(a: int, b: int): int {
    if a <= b then a else b
  }

  function Max(a: int, b: int): int {
    if a <= b then b else a
  }

  /** What `Vec::resize` appends when it grows a buffer. */
  function Zeros(n: nat): (z: seq<Byte>)
    ensures |z| == n
  {
    seq(n, _ => 0)
  }

  lemma Assoc<T>(x: seq<T>, y: seq<T>, z: seq<T>)
    ensures (x + y) + z == x + (y + z)
  {
  }

  /** All buffers of a list, end to end. */
  function Flatten(bufs: seq<seq<Byte>>): seq<Byte> {
    if bufs == [] then [] else bufs[0] + Flatten(bufs[1..])
  }

  lemma {:induction false} FlattenAppend(a: seq<seq<Byte>>, b: seq<seq<Byte>>)
    ensures Flatten(a + b) == Flatten(a) + Flatten(b)
  {
    if a == [] {
      assert a + b == b;
    } else {
      FlattenAppend(a[1..], b);
      assert (a + b)[1..] == a[1..] + b;
      Assoc(a[0], Flatten(a[1..]), Flatten(b));
    }
  }
}
