/**
 The hash preimage of `internal-common/src/xxhash.rs`: the payload, its size in
 eight little-endian bytes and the four address octets.
 */
module PacketHash {
  import opened Basics
  import opened Metas
  import opened Packets
  import opened Fee

  const TRAILER: nat := 12

  /** Eight little-endian bytes of a 64-bit number. */
  function ToLittleEndian(n: nat, width: nat): (bytes: seq<Byte>)
    ensures |bytes| == width
  {
    if width == 0 then [] else [n % 0x100] + ToLittleEndian(n / 0x100, width - 1)
  }

  lemma {:induction false} LittleEndianRoundTrip(n: nat, width: nat)
    requires n < Pow256(width)
    ensures LittleEndian(ToLittleEndian(n, width)) == n
  {
    if width > 0 {
      LittleEndianRoundTrip(n / 0x100, width - 1);
      assert ToLittleEndian(n, width)[1..] == ToLittleEndian(n / 0x100, width - 1);
    }
  }

  /** A price or a limit written by its little-endian bytes is read back. */
  lemma EncodedBudgetRead(view: TransactionView, budgetId: nat, i: nat, n: nat)
    requires i < 8 && i < |view.instructions|
    ensures SetsPrice(view, budgetId, view.instructions[i]) && n < U64
            && (forall j :: 0 <= j < i ==> !SetsPrice(view, budgetId, view.instructions[j]))
            && view.instructions[i].data == [3] + ToLittleEndian(n, 8)
            ==> Price(view, budgetId) == n
    ensures SetsLimit(view, budgetId, view.instructions[i]) && n < U32
            && (forall j :: 0 <= j < i ==> !SetsLimit(view, budgetId, view.instructions[j]))
            && view.instructions[i].data == [2] + ToLittleEndian(n, 4)
            ==> Cus(view, budgetId) == n
  {
    Powers();
    var ix := view.instructions[i];
    if n < U64 && ix.data == [3] + ToLittleEndian(n, 8) && SetsPrice(view, budgetId, ix)
       && forall j :: 0 <= j < i ==> !SetsPrice(view, budgetId, view.instructions[j]) {
      FirstPriceAt(view, budgetId, Checked(view), i);
      assert ix.data[1..9] == ToLittleEndian(n, 8);
      LittleEndianRoundTrip(n, 8);
    }
    if n < U32 && ix.data == [2] + ToLittleEndian(n, 4) && SetsLimit(view, budgetId, ix)
       && forall j :: 0 <= j < i ==> !SetsLimit(view, budgetId, view.instructions[j]) {
      FirstLimitAt(view, budgetId, Checked(view), i);
      assert ix.data[1..5] == ToLittleEndian(n, 4);
      LittleEndianRoundTrip(n, 4);
    }
  }

  function Octets(ip: Ipv4): seq<Byte> {
    [ip.a, ip.b, ip.c, ip.d]
  }

  function Preimage(payload: seq<Byte>, size: nat, ip: Ipv4): seq<Byte> {
    payload + ToLittleEndian(size, 8) + Octets(ip)
  }

  /** The trailer read back from the end of a preimage. */
  function TrailerOf(preimage: seq<Byte>): (nat, Ipv4)
    requires |preimage| >= TRAILER
  {
    var t := preimage[|preimage| - TRAILER..];
    (LittleEndian(t[..8]), Ipv4(t[8], t[9], t[10], t[11]))
  }

  /** Copy `src` into `dst` at `at`. */
  method CopyInto(src: seq<Byte>, dst: array<Byte>, at: nat)
    requires at + |src| <= dst.Length
    modifies dst
    ensures dst[..] == old(dst[..at]) + src + old(dst[at + |src|..])
  {
    for i := 0 to |src|
      invariant dst[..] == old(dst[..at]) + src[..i] + old(dst[at + i..])
    {
      dst[at + i] := src[i];
    }
    assert src[..|src|] == src;
  }

  /** The preimage as the program fills it in a zeroed buffer; every write is in bounds after the size check. */
  method BuildPreimage(packet: Packet) returns (preimage: seq<Byte>)
    requires packet.addr.V4? && packet.size <= PACKET_DATA_SIZE
    ensures preimage == Preimage(packet.buffer[..packet.size], packet.size, packet.addr.ip)
  {
    var buffer := new Byte[PACKET_DATA_SIZE + TRAILER](_ => 0);
    CopyInto(packet.buffer[..packet.size], buffer, 0);
    CopyInto(ToLittleEndian(packet.size, 8), buffer, packet.size);
    CopyInto(Octets(packet.addr.ip), buffer, packet.size + 8);
    preimage := buffer[..packet.size + TRAILER];
  }

  /** The trailer holds the size and the address. */
  lemma TrailerRoundTrip(payload: seq<Byte>, size: nat, ip: Ipv4)
    requires size < U64
    ensures TrailerOf(Preimage(payload, size, ip)) == (size, ip)
  {
    var p := Preimage(payload, size, ip);
    var t := p[|p| - TRAILER..];
    assert t == ToLittleEndian(size, 8) + Octets(ip);
    assert t[..8] == ToLittleEndian(size, 8);
    Powers();
    LittleEndianRoundTrip(size, 8);
  }

  /** Equal preimages come from equal payloads, sizes and addresses. */
  lemma PreimageInjective(payload: seq<Byte>, ip: Ipv4, payload': seq<Byte>, ip': Ipv4)
    requires |payload| <= PACKET_DATA_SIZE && |payload'| <= PACKET_DATA_SIZE
    ensures Preimage(payload, |payload|, ip) == Preimage(payload', |payload'|, ip')
            <==> payload == payload' && ip == ip'
  {
    var p, p' := Preimage(payload, |payload|, ip), Preimage(payload', |payload'|, ip');
    if p == p' {
      TrailerRoundTrip(payload, |payload|, ip);
      TrailerRoundTrip(payload', |payload'|, ip');
      assert p[..|payload|] == payload && p'[..|payload'|] == payload';
    }
  }
}
