/** Byte strings and the big-endian integers that every wire format of the
    repository writes and reads. */
module Bytes {

  type Byte = x: int | 0 <= x < 0x100
  type U16 = x: int | 0 <= x < 0x1_0000
  type U24 = x: int | 0 <= x < 0x100_0000
  type U32 = x: int | 0 <= x < 0x1_0000_0000
  type U48 = x: int | 0 <= x < 0x1_0000_0000_0000

  type Bytes = seq<Byte>

  function Zeros(n: nat): (z: Bytes)
    ensures |z| == n
  {
    seq(n, _ => 0)
  }

  function Min(a: nat, b: nat): nat { if a <= b then a else b }

  function Be16(n: U16): (b: Bytes)
    ensures |b| == 2 && Read16(b) == n
  {
    [n / 0x100, n % 0x100]
  }

  function Read16(b: Bytes): U16
    requires |b| == 2
  {
    (b[0] as int) * 0x100 + b[1] as int
  }

  function Be24(n: U24): (b: Bytes)
    ensures |b| == 3 && Read24(b) == n
  {
    [n / 0x1_0000, n / 0x100 % 0x100, n % 0x100]
  }

  function Read24(b: Bytes): U24
    requires |b| == 3
  {
    (b[0] as int) * 0x1_0000 + (b[1] as int) * 0x100 + b[2] as int
  }

  function Be32(n: U32): (b: Bytes)
    ensures |b| == 4 && Read32(b) == n
  {
    var b := Be16(n / 0x1_0000) + Be16(n % 0x1_0000);
    assert b[..2] == Be16(n / 0x1_0000) && b[2..] == Be16(n % 0x1_0000);
    b
  }

  function Read32(b: Bytes): U32
    requires |b| == 4
  {
    Read16(b[..2]) * 0x1_0000 + Read16(b[2..])
  }

  function Be48(n: U48): (b: Bytes)
    ensures |b| == 6 && Read48(b) == n
  {
    var b := Be24(n / 0x100_0000) + Be24(n % 0x100_0000);
    assert b[..3] == Be24(n / 0x100_0000) && b[3..] == Be24(n % 0x100_0000);
    b
  }

  function Read48(b: Bytes): U48
    requires |b| == 6
  {
    Read24(b[..3]) * 0x100_0000 + Read24(b[3..])
  }

  /** Two bytes are the number they read as. */
  lemma Read16Injective(b: Bytes)
    requires |b| == 2
    ensures Be16(Read16(b)) == b
  {
  }

  /** The number that bytes write in base 256, the most significant one first. */
  function Number(b: Bytes): nat {
    if b == [] then 0 else 0x100 * Number(b[..|b| - 1]) + b[|b| - 1] as int
  }

  lemma NumberOfTwo(b: Bytes)
    requires |b| == 2
    ensures Number(b) == 0x100 * b[0] as int + b[1] as int
  {
    assert b[..1][..0] == [] && Number(b[..1]) == b[0] as int;
  }

  lemma NumberOfThree(b: Bytes)
    requires |b| == 3
    ensures Number(b) == 0x1_0000 * b[0] as int + 0x100 * b[1] as int + b[2] as int
  {
    NumberOfTwo(b[..2]);
  }

  lemma NumberOfFour(b: Bytes)
    requires |b| == 4
    ensures Number(b) == 0x100_0000 * b[0] as int + 0x1_0000 * b[1] as int + 0x100 * b[2] as int + b[3] as int
  {
    NumberOfThree(b[..3]);
  }

  lemma NumberOfSix(b: Bytes)
    requires |b| == 6
    ensures Number(b) == 0x100_0000 * Number(b[..3]) + Number(b[3..])
  {
    hide Number;
    NumberOfThree(b[3..]);
    LastByte(b);
    LastByte(b[..5]);
    LastByte(b[..4]);
    assert b[..5][..4] == b[..4] && b[..4][..3] == b[..3];
  }

  lemma LastByte(b: Bytes)
    requires b != []
    ensures Number(b) == 0x100 * Number(b[..|b| - 1]) + b[|b| - 1] as int
  {
  }

  /** Every width is written in network byte order. */
  lemma BigEndian(n: U16, t: U24, d: U32, q: U48)
    ensures Number(Be16(n)) == n && Number(Be24(t)) == t && Number(Be32(d)) == d && Number(Be48(q)) == q
  {
    hide Number;
    NumberOfTwo(Be16(n));
    NumberOfThree(Be24(t));
    NumberOfFour(Be32(d));
    NumberOfSix(Be48(q));
    NumberOfThree(Be48(q)[..3]);
    NumberOfThree(Be48(q)[3..]);
  }

  /** And read in it. */
  lemma NumberIsRead(b: Bytes)
    ensures |b| == 2 ==> Number(b) == Read16(b)
    ensures |b| == 4 ==> Number(b) == Read32(b)
  {
    hide Number;
    if |b| == 2 {
      NumberOfTwo(b);
    } else if |b| == 4 {
      NumberOfFour(b);
    }
  }

  lemma Assoc<T>(a: seq<T>, b: seq<T>, c: seq<T>)
    ensures a + (b + c) == (a + b) + c
  {
  }

  lemma EmptyUnit<T>(a: seq<T>)
    ensures [] + a == a && a + [] == a
  {
  }

  /** The concatenation of a list of byte strings. */
  function Concat(parts: seq<Bytes>): Bytes {
    if parts == [] then [] else parts[0] + Concat(parts[1..])
  }

  lemma {:induction false} ConcatAppend(a: seq<Bytes>, b: seq<Bytes>)
    ensures Concat(a + b) == Concat(a) + Concat(b)
  {
    if a == [] {
      assert a + b == b;
    } else {
      ConcatAppend(a[1..], b);
      assert (a + b)[0] == a[0] && (a + b)[1..] == a[1..] + b;
      Assoc(a[0], Concat(a[1..]), Concat(b));
    }
  }

  lemma ConcatSnoc(a: seq<Bytes>, x: Bytes)
    ensures Concat(a + [x]) == Concat(a) + x
  {
    ConcatAppend(a, [x]);
    assert Concat([x]) == x;
  }
}
