/** Small vocabulary shared by every module of the model. */
module Common {

  datatype Option<+T> = None | Some(value: T)

  type byte = x: int | 0 <= x < 256

  /** The byte at position i, as a number. */
  function ByteAt(s: seq<byte>, i: nat): nat
    requires i < |s|
  {
    s[i]
  }

  /** n little-endian bytes. */
  function Le(x: nat, n: nat): (r: seq<byte>)
    ensures |r| == n
    decreases n
  {
    if n == 0 then [] else [x % 256] + Le(x / 256, n - 1)
  }

  /** The number that little-endian bytes stand for. */
  function FromLe(b: seq<byte>): nat {
    if b == [] then 0 else ByteAt(b, 0) + 256 * FromLe(b[1..])
  }

  /** How many numbers n bytes can hold. */
  function ByteSpan(n: nat): nat { if n == 0 then 1 else 256 * ByteSpan(n - 1) }

  lemma {:induction false} LeRoundTrip(x: nat, n: nat)
    requires x < ByteSpan(n)
    ensures FromLe(Le(x, n)) == x
    decreases n
  {
    if n > 0 {
      LeRoundTrip(x / 256, n - 1);
      assert Le(x, n)[1..] == Le(x / 256, n - 1);
    }
  }

  /** What two and four bytes stand for, and how many numbers 2, 4 and 8 bytes hold. */
  lemma LittleEndian(a: byte, b: byte, c: byte, d: byte)
    ensures FromLe([a, b]) == a + 0x100 * b
    ensures FromLe([a, b, c, d]) == a + 0x100 * b + 0x1_0000 * c + 0x100_0000 * d
    ensures ByteSpan(2) == 0x1_0000 && ByteSpan(4) == 0x1_0000_0000 && ByteSpan(8) == 0x1_0000_0000_0000_0000
  {
    var s := [a, b, c, d];
    assert FromLe([d]) == d + 256 * FromLe([]) by { assert [d][1..] == []; }
    assert FromLe([c, d]) == c + 256 * FromLe([d]) by { assert [c, d][1..] == [d]; }
    assert FromLe([b, c, d]) == b + 256 * FromLe([c, d]) by { assert [b, c, d][1..] == [c, d]; }
    assert s[1..] == [b, c, d];
    assert FromLe([b]) == b + 256 * FromLe([]) by { assert [b][1..] == []; }
    assert [a, b][1..] == [b];
    Spans();
  }

  lemma Spans()
    ensures ByteSpan(2) == 0x1_0000 && ByteSpan(4) == 0x1_0000_0000 && ByteSpan(8) == 0x1_0000_0000_0000_0000
  {
    assert ByteSpan(2) == 256 * ByteSpan(1) && ByteSpan(4) == 256 * ByteSpan(3) && ByteSpan(3) == 256 * ByteSpan(2);
    assert ByteSpan(8) == 256 * ByteSpan(7) && ByteSpan(7) == 256 * ByteSpan(6);
    assert ByteSpan(6) == 256 * ByteSpan(5) && ByteSpan(5) == 256 * ByteSpan(4);
  }

  /** The first byte is the lowest, whatever the number of bytes. */
  lemma LowFirst(b: byte, later: seq<byte>)
    ensures FromLe([b] + later) == b + 256 * FromLe(later)
  {
    assert ([b] + later)[1..] == later;
  }

  const U32: int := 0x1_0000_0000
  const U64: int := 0x1_0000_0000_0000_0000

  function Min(a: int, b: int): int { if a <= b then a else b }

  function Max(a: int, b: int): int { if a <= b then b else a }

  /** Concatenation of a list of sequences. */
  function Flatten<T>(parts: seq<seq<T>>): seq<T> {
    if parts == [] then [] else parts[0] + Flatten(parts[1..])
  }

  lemma {:induction false} FlattenAppend<T>(a: seq<seq<T>>, b: seq<seq<T>>)
    ensures Flatten(a + b) == Flatten(a) + Flatten(b)
  {
    if a == [] {
      assert a + b == b;
    } else {
      assert (a + b)[1..] == a[1..] + b;
      FlattenAppend(a[1..], b);
    }
  }

  lemma FlattenSnoc<T>(a: seq<seq<T>>, x: seq<T>)
    ensures Flatten(a + [x]) == Flatten(a) + x
  {
    FlattenAppend(a, [x]);
    assert Flatten([x]) == x + Flatten<T>([]);
  }
}
