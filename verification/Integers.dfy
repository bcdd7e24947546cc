/** Big-endian magnitudes of unbounded integers, as `int.bit_length` and `int.to_bytes` give them. */
module Integers {
  import opened Wrappers
  import opened Utf8

  /** `int.bit_length` of a magnitude. */
  function BitLength(n: nat): nat {
    if n == 0 then 0 else 1 + BitLength(n / 2)
  }

  function Power256(k: nat): (r: nat)
    ensures r > 0
  {
    if k == 0 then 1 else 256 * Power256(k - 1)
  }

  function BigEndian(n: nat, k: nat): (r: Bytes)
    ensures |r| == k
  {
    if k == 0 then [] else BigEndian(n / 256, k - 1) + [n % 256]
  }

  /** `int.to_bytes(k, "big")`, which raises when the number needs more than `k` bytes. */
  function ToBytes(n: nat, k: nat): Option<Bytes> {
    if n < Power256(k) then Some(BigEndian(n, k)) else None
  }

  /** The number a big-endian byte sequence stands for: the partner of `BigEndian`. */
  function FromBytes(b: Bytes): nat {
    if b == [] then 0 else 256 * FromBytes(b[..|b| - 1]) + b[|b| - 1]
  }

  lemma {:induction false} FromToBytes(n: nat, k: nat)
    requires n < Power256(k)
    ensures FromBytes(BigEndian(n, k)) == n
  {
    if k > 0 {
      FromToBytes(n / 256, k - 1);
      var r := BigEndian(n, k);
      assert r[..|r| - 1] == BigEndian(n / 256, k - 1);
    }
  }

  function MagnitudeLength(n: nat): nat {
    (BitLength(n) + 7) / 8
  }

  lemma {:induction false} BitLengthCrumb(n: nat)
    ensures n >= 4 ==> BitLength(n) == 2 + BitLength(n / 4)
    ensures n < 4 ==> BitLength(n) <= 2
  {
    assert n / 4 == n / 2 / 2;
    assert n >= 2 ==> BitLength(n) == 1 + BitLength(n / 2);
    assert n >= 4 ==> BitLength(n / 2) == 1 + BitLength(n / 2 / 2);
  }

  /** Dropping one byte drops eight bits. */
  lemma {:induction false} BitLengthByte(n: nat)
    ensures n >= 256 ==> BitLength(n) == 8 + BitLength(n / 256)
    ensures 0 < n < 256 ==> 1 <= BitLength(n) <= 8
  {
    BitLengthCrumb(n);
    BitLengthCrumb(n / 4);
    BitLengthCrumb(n / 16);
    BitLengthCrumb(n / 64);
    assert n / 16 == n / 4 / 4 && n / 64 == n / 16 / 4 && n / 256 == n / 64 / 4;
  }

  lemma {:induction false} OneByte(n: nat)
    requires 0 < n < 256
    ensures MagnitudeLength(n) == 1 && BigEndian(n, 1) == [n] && FromBytes([n]) == n && n < Power256(1)
  {
    BitLengthByte(n);
    hide BitLength;
    assert BigEndian(n / 256, 0) == [];
    assert Power256(1) == 256 * Power256(0);
    FromToBytes(n, 1);
  }

  /**
    The byte count taken from the bit length always fits, and is never one byte too long:
    `to_bytes` cannot raise, no magnitude starts with a zero byte, zero has no bytes at all,
    and the bytes determine the number.
    */
  lemma {:induction false} MagnitudeExact(n: nat)
    ensures ToBytes(n, MagnitudeLength(n)).Some?
    ensures var b := BigEndian(n, MagnitudeLength(n));
            FromBytes(b) == n && (n == 0 <==> b == []) && (b != [] ==> b[0] != 0)
  {
    if n == 0 {
    } else if n < 256 {
      OneByte(n);
    } else {
      BitLengthByte(n);
      hide BitLength;
      MagnitudeExact(n / 256);
      assert MagnitudeLength(n) == 1 + MagnitudeLength(n / 256);
      FromToBytes(n, MagnitudeLength(n));
    }
  }
}
