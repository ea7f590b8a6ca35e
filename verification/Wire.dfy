/**
 Bytes, big-endian words and bitwise-or, as the migration streams use them
 (qemu_put_byte, qemu_put_be64, qemu_put_buffer and their readers).
 */
module Wire {

  datatype Option<+T> = None | Some(value: T)

  type byte = x: int | 0 <= x < 256

  const TWO_64 := 0x1_0000_0000_0000_0000

  function Pow256(n: nat): (p: nat)
    ensures p > 0
  {
    if n == 0 then 1 else 256 * Pow256(n - 1)
  }

  /** The low n bytes of v, most significant first. */
  function Be(v: nat, n: nat): (s: seq<byte>)
    ensures |s| == n
  {
    if n == 0 then [] else Be(v / 256, n - 1) + [v % 256]
  }

  function FromBe(s: seq<byte>): nat {
    if s == [] then 0 else 256 * FromBe(s[..|s| - 1]) + s[|s| - 1]
  }

  lemma LastByte(front: seq<byte>, b: byte)
    ensures FromBe(front + [b]) == 256 * FromBe(front) + b
  {
    assert (front + [b])[..|front|] == front;
  }

  lemma {:induction false} FromBeInverts(v: nat, n: nat)
    requires v < Pow256(n)
    ensures FromBe(Be(v, n)) == v
  {
    hide FromBe;
    if n == 0 {
      FromNone();
    } else {
      FromBeInverts(v / 256, n - 1);
      LastByte(Be(v / 256, n - 1), v % 256);
    }
  }

  lemma FromNone()
    ensures FromBe([]) == 0
  {
  }

  /** v >> 8k */
  function Shifted(v: nat, k: nat): nat {
    if k == 0 then v else Shifted(v / 256, k - 1)
  }

  /** Byte i of n is the value shifted down by the bytes behind it. */
  lemma {:induction false} BeDigit(v: nat, n: nat, i: nat)
    requires i < n
    ensures Be(v, n)[i] == Shifted(v, n - 1 - i) % 256
  {
    if i < n - 1 {
      BeDigit(v / 256, n - 1, i);
    }
  }

  function Put64(v: nat): (s: seq<byte>)
    ensures |s| == 8
  {
    Be(v, 8)
  }

  /** A reader takes some bytes off the front of the stream; None is a short read. */
  type Reader<T> = Option<(T, seq<byte>)>

  function Get64(f: seq<byte>): (r: Reader<nat>)
    ensures r.Some? ==> |r.value.1| < |f|
  {
    if |f| < 8 then None else Some((FromBe(f[..8]), f[8..]))
  }

  function GetByte(f: seq<byte>): Reader<byte> {
    if f == [] then None else Some((f[0], f[1..]))
  }

  function GetBuffer(f: seq<byte>, n: nat): Reader<seq<byte>> {
    if |f| < n then None else Some((f[..n], f[n..]))
  }

  lemma Get64Put64(v: nat, rest: seq<byte>)
    requires v < TWO_64
    ensures Get64(Put64(v) + rest) == Some((v, rest))
  {
    assert Pow256(8) == TWO_64 by {
      assert Pow256(4) == 0x1_0000_0000;
      assert Pow256(8) == 256 * (256 * (256 * (256 * Pow256(4))));
    }
    FromBeInverts(v, 8);
    assert (Put64(v) + rest)[..8] == Put64(v);
    assert (Put64(v) + rest)[8..] == rest;
  }

  lemma GetBufferPut(s: seq<byte>, rest: seq<byte>)
    ensures GetBuffer(s + rest, |s|) == Some((s, rest))
  {
    assert (s + rest)[..|s|] == s;
    assert (s + rest)[|s|..] == rest;
  }

  lemma Assoc(a: seq<byte>, b: seq<byte>, c: seq<byte>)
    ensures (a + b) + c == a + (b + c)
  {
  }

  /** The C operator | on unsigned words, bit by bit. */
  function Or(a: nat, b: nat): nat {
    if a == 0 then b
    else if b == 0 then a
    else 2 * Or(a / 2, b / 2) + (if a % 2 == 1 || b % 2 == 1 then 1 else 0)
  }

  function Pow2(n: nat): (p: nat)
    ensures p > 0
  {
    if n == 0 then 1 else 2 * Pow2(n - 1)
  }

  /** Words without a common set bit: one above bit n, one below. */
  lemma {:induction false} OrDisjoint(q: nat, low: nat, n: nat)
    requires low < Pow2(n)
    ensures Or(q * Pow2(n), low) == q * Pow2(n) + low
  {
    if n != 0 && q != 0 && low != 0 {
      OrDisjoint(q, low / 2, n - 1);
      var half := q * Pow2(n - 1);
      Doubles(q, Pow2(n - 1));
      OrDoubled(half, low);
    }
  }

  lemma Doubles(q: nat, p: nat)
    requires q > 0 && p > 0
    ensures q * (2 * p) == 2 * (q * p) && q * p > 0
  {
  }

  lemma OrDoubled(half: nat, low: nat)
    requires half > 0 && low > 0
    ensures Or(2 * half, low) == 2 * Or(half, low / 2) + low % 2
  {
    assert (2 * half) / 2 == half && (2 * half) % 2 == 0;
  }

  /** flags & flag, for a flag that is a power of two. */
  predicate Has(flags: nat, flag: nat)
    requires flag > 0
  {
    flags / flag % 2 == 1
  }
}
