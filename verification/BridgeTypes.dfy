/** Fixed-width integers and the packed records of the bridge's wire format. */
module BridgeTypes {
  type byte = x: int | 0 <= x < 0x100
  type uint16 = x: int | 0 <= x < 0x1_0000
  type uint32 = x: int | 0 <= x < 0x1_0000_0000
  type int32 = x: int | -0x8000_0000 <= x < 0x8000_0000
  type int64 = x: int | -0x8000_0000_0000_0000 <= x < 0x8000_0000_0000_0000
  type uint64 = x: int | 0 <= x < 0x1_0000_0000_0000_0000

  const UINT64_MAX: uint64 := 0xFFFF_FFFF_FFFF_FFFF

  datatype Option<+T> = None | Some(value: T)

  /** One vehicle's certified scheduling state (22 bytes on the wire). */
  datatype VehicleEntry = VehicleEntry(
    replicaId: int32,
    simTimeUs: uint64,
    isAmbulance: byte,
    lane: byte,
    direction: byte,
    positionInLane: byte,
    cyberStatus: byte,
    physicalLaneIndex: byte,
    lateralClaimCm: int32)

  /** Header of an ORDER proposal (20 bytes). */
  datatype ProposeHdr = ProposeHdr(epoch: uint32, leaderId: int32, proposeSimTimeUs: uint64, nVehicles: uint32)

  /** One row of the decision sent back to the vehicles (8 bytes). */
  datatype VehicleDecision = VehicleDecision(replicaId: int32, batchIndex: uint32)

  ghost function Ids(s: seq<VehicleEntry>): set<int32> {
    set e | e in s :: e.replicaId
  }

  ghost predicate DistinctIds(s: seq<VehicleEntry>) {
    forall i, j :: 0 <= i < j < |s| ==> s[i].replicaId != s[j].replicaId
  }
}
