/** The counters of `common/src/shared_stats.rs`, as unbounded naturals. */
module Counters {
  datatype Stats = Stats(
    totalPackets: nat,
    nonIpv4: nat,
    recentlyProcessed: nat,
    recentlyProcessedQueued: nat,
    recentSignaturesReceived: nat,
    invalidMetaSize: nat,
    failedSanitize: nat,
    failedView: nat,
    invalidPacketData: nat,
    leakedPriority: nat,
    duplicatePackets: nat,
    bankingTransmissions: nat,
    zeroScore: nat,
    completed: nat)

  const NO_STATS := Stats(0, 0, 0, 0, 0, 0, 0, 0, 0, 0, 0, 0, 0, 0)

  /** The packets that have reached a final outcome. */
  function Settled(s: Stats): nat {
    s.nonIpv4 + s.invalidMetaSize + s.failedSanitize + s.failedView + s.invalidPacketData
    + s.recentlyProcessed + s.duplicatePackets + s.leakedPriority + s.recentlyProcessedQueued
    + s.bankingTransmissions
  }
}
