/**
 Packets as they arrive on the input channels. What the transaction parser
 makes of the payload is an outcome attached to the packet.
 */
module Packets {
  import opened Metas

  const PACKET_DATA_SIZE: nat := 1232

  datatype Addr = V4(ip: Ipv4) | V6

  datatype Instruction = Instruction(programIdIndex: nat, data: seq<Byte>)

  /** A sanitized transaction has at least one signature; keys are numbers. */
  type Signatures = s: seq<seq<Byte>> | |s| > 0 witness [[]]

  datatype TransactionView =
    TransactionView(signatures: Signatures, staticAccountKeys: seq<nat>, instructions: seq<Instruction>)

  datatype Outcome = NoData | FailedView | FailedSanitize | Sanitized(tx: TransactionView)

  type Buffer = b: seq<Byte> | |b| == PACKET_DATA_SIZE witness seq(PACKET_DATA_SIZE, _ => 0)

  datatype Packet = Packet(addr: Addr, size: nat, buffer: Buffer, outcome: Outcome)

  /** A packet waiting in the priority queue. */
  datatype Scored = Scored(score: real, sigKey: nat, packet: Packet, ipv4: nat)
}
