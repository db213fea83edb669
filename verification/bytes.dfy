/** Bytes, 32-bit words and the big-endian layout both wire formats use. */
module Bytes {

  type Byte = b: int | 0 <= b < 256

  const WORD_RANGE := 0x1_0000_0000

  type UInt32 = w: int | 0 <= w < WORD_RANGE

  datatype Option<+T> = None | Some(value: T)

  /** The four bytes of a word, most significant first. */
  function BigEndian(w: UInt32): (s: seq<Byte>)
    ensures |s| == 4
  {
    [w / 0x100_0000, w / 0x1_0000 % 256, w / 0x100 % 256, w % 256]
  }

  /** The word four bytes spell, most significant first. */
  function Word(s: seq<Byte>): UInt32
    requires |s| == 4
  {
    var a: int, b: int, c: int, d: int := s[0], s[1], s[2], s[3];
    a * 0x100_0000 + b * 0x1_0000 + c * 0x100 + d
  }

  /** Four digits in base 256. */
  function PlaceValue(a: int, b: int, c: int, d: int): int {
    ((a * 256 + b) * 256 + c) * 256 + d
  }

  lemma WordOfBigEndian(w: UInt32)
    ensures Word(BigEndian(w)) == w
  {
    assert w / 0x1_0000 == w / 0x100_0000 * 256 + w / 0x1_0000 % 256;
    assert w / 0x100 == w / 0x1_0000 * 256 + w / 0x100 % 256;
  }

  lemma BigEndianOfWord(s: seq<Byte>)
    requires |s| == 4
    ensures BigEndian(Word(s)) == s
  {
    var w: int := Word(s);
    var a: int, b: int, c: int := s[0], s[1], s[2];
    assert w / 0x100 == a * 0x1_0000 + b * 0x100 + c;
    assert w / 0x1_0000 == a * 0x100 + b;
    assert w / 0x100_0000 == a;
  }

  /** Writes a word into four bytes of a buffer, in place. */
  method PutWord(buf: array<Byte>, at: nat, w: UInt32)
    requires at + 4 <= buf.Length
    modifies buf
    ensures buf[..] == old(buf[..at]) + BigEndian(w) + old(buf[at + 4..])
  {
    buf[at] := w / 0x100_0000;
    buf[at + 1] := w / 0x1_0000 % 256;
    buf[at + 2] := w / 0x100 % 256;
    buf[at + 3] := w % 256;
  }

  function Min(a: nat, b: nat): nat {
    if a <= b then a else b
  }

  /** The bytes of a list of pieces, in order. */
  function Flatten<T>(pieces: seq<seq<T>>): seq<T> {
    if pieces == [] then [] else pieces[0] + Flatten(pieces[1..])
  }

  lemma {:induction false} FlattenAppend<T>(a: seq<seq<T>>, b: seq<seq<T>>)
    ensures Flatten(a + b) == Flatten(a) + Flatten(b)
  {
    if a == [] {
      assert a + b == b;
    } else {
      assert (a + b)[1..] == a[1..] + b;
      FlattenAppend(a[1..], b);
    }
  }

  lemma FlattenSnoc<T>(a: seq<seq<T>>, piece: seq<T>)
    ensures Flatten(a + [piece]) == Flatten(a) + piece
  {
    FlattenAppend(a, [piece]);
    assert Flatten([piece]) == piece + Flatten<T>([]);
  }
}
