/**
 The metadata values that travel through the program: partial metadata known
 when a packet arrives, the scheduler's remainder, and their merge. Addresses
 are four octets; 32-byte signers are numbers in their big-endian order.
 */
module Metas {
  type Byte = b: int | 0 <= b < 256

  datatype Ipv4 = Ipv4(a: Byte, b: Byte, c: Byte, d: Byte)

  /** `u32::from_le_bytes(ip.octets())`: the key under which an address is scored. */
  function ScoreKey(ip: Ipv4): nat {
    ip.a + 0x100 * ip.b + 0x1_0000 * ip.c + 0x100_0000 * ip.d
  }

  /** `ip.to_bits()`: the key under which a parse failure is fed back. */
  function BitsKey(ip: Ipv4): nat {
    ip.d + 0x100 * ip.c + 0x1_0000 * ip.b + 0x100_0000 * ip.a
  }

  datatype PartialMeta = PartialMeta(ip: nat, signer: nat, totalFee: nat, cus: nat)
  datatype RemainingMeta = RemainingMeta(packetHash: nat, executionNanos: nat)
  datatype TxMeta = TxMeta(ip: nat, signer: nat, value: real)

  function NewPartialMeta(ip: Ipv4, signer: nat, totalFee: nat, cus: nat): PartialMeta {
    PartialMeta(ScoreKey(ip), signer, totalFee, cus)
  }

  /** Transactions that were not scheduled are valued at 100 microseconds. */
  function Merge(p: PartialMeta, r: RemainingMeta): TxMeta {
    TxMeta(p.ip, p.signer, p.totalFee as real / (if r.executionNanos == 0 then 100_000 else r.executionNanos) as real)
  }

  /** A completed entry: the merge, with the value of scheduled transactions raised tenfold. */
  function Complete(p: PartialMeta, r: RemainingMeta): TxMeta {
    var m := Merge(p, r);
    if r.executionNanos > 0 then m.(value := m.value * 10.0) else m
  }

  lemma CompleteNonNegative(p: PartialMeta, r: RemainingMeta)
    ensures Complete(p, r).value >= 0.0
  {
  }

  /** A scheduled transaction is worth ten times its fee per nanosecond, any other its fee per 100 microseconds. */
  lemma CompleteValue(p: PartialMeta, r: RemainingMeta)
    ensures Complete(p, r).ip == p.ip && Complete(p, r).signer == p.signer
    ensures r.executionNanos > 0 ==> Complete(p, r).value * r.executionNanos as real == 10.0 * p.totalFee as real
    ensures r.executionNanos == 0 ==> Complete(p, r).value * 100_000.0 == p.totalFee as real
  {
    if r.executionNanos > 0 {
      var fee, nanos := p.totalFee as real, r.executionNanos as real;
      assert fee / nanos * nanos == fee;
      assert fee / nanos * 10.0 * nanos == 10.0 * (fee / nanos * nanos);
    }
  }

  lemma Digits(a: Byte, x: nat, b: Byte, y: nat)
    requires a + 0x100 * x == b + 0x100 * y
    ensures a == b && x == y
  {
  }

  lemma FourDigits(a: Byte, b: Byte, c: Byte, d: Byte, a': Byte, b': Byte, c': Byte, d': Byte)
    requires a + 0x100 * b + 0x1_0000 * c + 0x100_0000 * d == a' + 0x100 * b' + 0x1_0000 * c' + 0x100_0000 * d'
    ensures a == a' && b == b' && c == c' && d == d'
  {
    Digits(a, b + 0x100 * c + 0x1_0000 * d, a', b' + 0x100 * c' + 0x1_0000 * d');
    Digits(b, c + 0x100 * d, b', c' + 0x100 * d');
    Digits(c, d, c', d');
  }

  /** No two addresses share a score key, and none share a bits key. */
  lemma KeysInjective(x: Ipv4, y: Ipv4)
    ensures ScoreKey(x) == ScoreKey(y) ==> x == y
    ensures BitsKey(x) == BitsKey(y) ==> x == y
  {
    if ScoreKey(x) == ScoreKey(y) {
      FourDigits(x.a, x.b, x.c, x.d, y.a, y.b, y.c, y.d);
    }
    if BitsKey(x) == BitsKey(y) {
      FourDigits(x.d, x.c, x.b, x.a, y.d, y.c, y.b, y.a);
    }
  }

  /** The two keys of one address agree exactly for addresses that read the same backwards. */
  lemma KeysAgree(x: Ipv4)
    ensures BitsKey(x) == ScoreKey(x) <==> x.a == x.d && x.b == x.c
  {
    if BitsKey(x) == ScoreKey(x) {
      FourDigits(x.d, x.c, x.b, x.a, x.a, x.b, x.c, x.d);
    }
  }
}
