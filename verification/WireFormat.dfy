/** Little-endian integers and the packed records of the bridge. */
module WireFormat {
  import opened BridgeTypes

  type bytes = seq<byte>

  // ----- integers

  /** Two's complement. */
  function AsUnsigned(x: int32): uint32 {
    if x < 0 then x + 0x1_0000_0000 else x
  }

  function AsSigned(x: uint32): int32 {
    if x >= 0x8000_0000 then x - 0x1_0000_0000 else x
  }

  function U16(s: bytes, off: nat): uint16
    requires off + 2 <= |s|
  {
    var b0: int, b1: int := s[off], s[off + 1];
    b0 + 0x100 * b1
  }

  function U32(s: bytes, off: nat): uint32
    requires off + 4 <= |s|
  {
    var b0: int, b1: int, b2: int, b3: int := s[off], s[off + 1], s[off + 2], s[off + 3];
    b0 + 0x100 * b1 + 0x1_0000 * b2 + 0x100_0000 * b3
  }

  function U64(s: bytes, off: nat): uint64
    requires off + 8 <= |s|
  {
    U32(s, off) + 0x1_0000_0000 * U32(s, off + 4)
  }

  function I32(s: bytes, off: nat): int32
    requires off + 4 <= |s|
  {
    AsSigned(U32(s, off))
  }

  /** Integers are little-endian; signed ones are read in two's complement. */
  lemma LittleEndian(s: bytes, off: nat)
    requires off + 8 <= |s|
    ensures s[off] == U16(s, off) % 0x100 && s[off + 1] == U16(s, off) / 0x100
    ensures U16(s, off) == U32(s, off) % 0x1_0000 && U16(s, off + 2) == U32(s, off) / 0x1_0000
    ensures U32(s, off) == U64(s, off) % 0x1_0000_0000 && U32(s, off + 4) == U64(s, off) / 0x1_0000_0000
    ensures I32(s, off) == if U32(s, off) < 0x8000_0000 then U32(s, off) as int else U32(s, off) - 0x1_0000_0000
  {
    assert U32(s, off) == U16(s, off) + 0x1_0000 * U16(s, off + 2);
  }

  function WordBytes(x: uint32): (f: bytes)
    ensures |f| == 4 && U32(f, 0) == x
  {
    var n: int := x;
    var q1 := n / 0x100;
    var q2 := q1 / 0x100;
    var q3 := q2 / 0x100;
    [n % 0x100, q1 % 0x100, q2 % 0x100, q3]
  }

  /** The first byte of a word is its low byte. */
  lemma LowByte(s: bytes, off: nat)
    requires off + 4 <= |s|
    ensures s[off] == U32(s, off) % 0x100
  {
    var b0: int, b1: int, b2: int, b3: int := s[off], s[off + 1], s[off + 2], s[off + 3];
    assert U32(s, off) == b0 + 0x100 * (b1 + 0x100 * b2 + 0x1_0000 * b3);
  }

  lemma SplitLow(a: byte, r: int, b: byte, t: int)
    requires a + 0x100 * r == b + 0x100 * t
    ensures a == b && r == t
  {
  }

  lemma WordUnique(f: bytes, g: bytes)
    requires |f| == 4 && |g| == 4 && U32(f, 0) == U32(g, 0)
    ensures f == g
  {
    var f1: int, f2: int, f3: int := f[1], f[2], f[3];
    var g1: int, g2: int, g3: int := g[1], g[2], g[3];
    SplitLow(f[0], f1 + 0x100 * (f2 + 0x100 * f3), g[0], g1 + 0x100 * (g2 + 0x100 * g3));
    SplitLow(f[1], f2 + 0x100 * f3, g[1], g2 + 0x100 * g3);
    SplitLow(f[2], f3, g[2], g3);
  }

  /** The four bytes whose little-endian value is `x`. */
  ghost function LE32(x: uint32): (f: bytes)
    ensures |f| == 4 && U32(f, 0) == x
  {
    assert |WordBytes(x)| == 4 && U32(WordBytes(x), 0) == x;
    var f: bytes :| |f| == 4 && U32(f, 0) == x;
    f
  }

  ghost function LE16(x: uint16): (f: bytes)
    ensures |f| == 2
  {
    [x % 0x100, x / 0x100]
  }

  ghost function LE64(x: uint64): (f: bytes)
    ensures |f| == 8
  {
    LE32(x % 0x1_0000_0000) + LE32(x / 0x1_0000_0000)
  }

  ghost function LEI32(x: int32): (f: bytes)
    ensures |f| == 4
  {
    LE32(AsUnsigned(x))
  }

  method PutWord(x: uint32) returns (f: bytes)
    ensures f == LE32(x)
  {
    f := WordBytes(x);
    WordUnique(f, LE32(x));
  }

  // ----- placing a field at an offset

  /** `s` carries `field` at offset `off`. */
  ghost predicate At(s: bytes, off: nat, field: bytes) {
    off + |field| <= |s| && s[off..off + |field|] == field
  }

  lemma AtConcat(s: bytes, off: nat, a: bytes, b: bytes)
    requires At(s, off, a + b)
    ensures At(s, off, a) && At(s, off + |a|, b)
  {
    var f := s[off..off + |a + b|];
    assert s[off..off + |a|] == f[..|a|] == a;
    assert s[off + |a|..off + |a| + |b|] == f[|a|..] == b;
  }

  lemma AtConcat4(s: bytes, off: nat, a: bytes, b: bytes, c: bytes, d: bytes)
    requires At(s, off, a + b + c + d)
    ensures At(s, off, a) && At(s, off + |a|, b) && At(s, off + |a| + |b|, c) && At(s, off + |a| + |b| + |c|, d)
  {
    AtConcat(s, off, a + b + c, d);
    AtConcat(s, off, a + b, c);
    AtConcat(s, off, a, b);
  }

  lemma AtConcat6(s: bytes, off: nat, a: bytes, b: bytes, c: bytes, d: bytes, e: bytes, f: bytes)
    requires At(s, off, a + b + c + d + e + f)
    ensures At(s, off, a) && At(s, off + |a|, b) && At(s, off + |a| + |b|, c) && At(s, off + |a| + |b| + |c|, d)
    ensures At(s, off + |a| + |b| + |c| + |d|, e) && At(s, off + |a| + |b| + |c| + |d| + |e|, f)
  {
    AtConcat(s, off, a + b + c + d + e, f);
    AtConcat(s, off, a + b + c + d, e);
    AtConcat4(s, off, a, b, c, d);
  }

  lemma ReadLE32(s: bytes, off: nat, x: uint32)
    requires At(s, off, LE32(x))
    ensures U32(s, off) == x
  {
    var f := LE32(x);
    assert forall i :: 0 <= i < 4 ==> s[off + i] == s[off..off + 4][i] == f[i];
    assert s[off + 0] == f[0];
  }

  lemma ReadLE16(s: bytes, off: nat, x: uint16)
    requires At(s, off, LE16(x))
    ensures U16(s, off) == x
  {
    var f := LE16(x);
    assert forall i :: 0 <= i < 2 ==> s[off + i] == s[off..off + 2][i] == f[i];
    assert s[off + 0] == f[0];
  }

  lemma ReadLE64(s: bytes, off: nat, x: uint64)
    requires At(s, off, LE64(x))
    ensures U64(s, off) == x
    ensures U32(s, off) == x % 0x1_0000_0000 && U32(s, off + 4) == x / 0x1_0000_0000
  {
    AtConcat(s, off, LE32(x % 0x1_0000_0000), LE32(x / 0x1_0000_0000));
    ReadLE32(s, off, x % 0x1_0000_0000);
    ReadLE32(s, off + 4, x / 0x1_0000_0000);
  }

  lemma ReadLEI32(s: bytes, off: nat, x: int32)
    requires At(s, off, LEI32(x))
    ensures I32(s, off) == x && U32(s, off) == AsUnsigned(x)
  {
    ReadLE32(s, off, AsUnsigned(x));
  }

  // ----- vehicle entries and the proposal header

  const ENTRY_SIZE: nat := 22
  const PROPOSE_HDR_SIZE: nat := 20

  function EncodeFlags(e: VehicleEntry): bytes {
    [e.isAmbulance, e.lane, e.direction, e.positionInLane, e.cyberStatus, e.physicalLaneIndex]
  }

  ghost function EncodeEntry(e: VehicleEntry): (r: bytes)
    ensures |r| == ENTRY_SIZE
  {
    LEI32(e.replicaId) + LE64(e.simTimeUs) + EncodeFlags(e) + LEI32(e.lateralClaimCm)
  }

  function DecodeEntry(s: bytes, off: nat): VehicleEntry
    requires off + ENTRY_SIZE <= |s|
  {
    VehicleEntry(I32(s, off), U64(s, off + 4), s[off + 12], s[off + 13], s[off + 14], s[off + 15],
                 s[off + 16], s[off + 17], I32(s, off + 18))
  }

  lemma ReadFlags(s: bytes, off: nat, e: VehicleEntry)
    requires At(s, off, EncodeFlags(e))
    ensures s[off] == e.isAmbulance && s[off + 1] == e.lane && s[off + 2] == e.direction
    ensures s[off + 3] == e.positionInLane && s[off + 4] == e.cyberStatus && s[off + 5] == e.physicalLaneIndex
  {
    var f := EncodeFlags(e);
    assert forall i :: 0 <= i < 6 ==> s[off + i] == s[off..off + 6][i] == f[i];
    assert s[off + 0] == f[0];
  }

  lemma EntryRoundTrip(s: bytes, off: nat, e: VehicleEntry)
    requires At(s, off, EncodeEntry(e))
    ensures DecodeEntry(s, off) == e
  {
    AtConcat4(s, off, LEI32(e.replicaId), LE64(e.simTimeUs), EncodeFlags(e), LEI32(e.lateralClaimCm));
    ReadLEI32(s, off, e.replicaId);
    ReadLE64(s, off + 4, e.simTimeUs);
    ReadFlags(s, off + 12, e);
    ReadLEI32(s, off + 18, e.lateralClaimCm);
  }

  ghost function EncodeEntries(es: seq<VehicleEntry>): (r: bytes)
    ensures |r| == ENTRY_SIZE * |es|
  {
    if es == [] then [] else EncodeEntry(es[0]) + EncodeEntries(es[1..])
  }

  function DecodeEntries(s: bytes, off: nat, n: nat): (r: seq<VehicleEntry>)
    requires off + ENTRY_SIZE * n <= |s|
    ensures |r| == n
    decreases n
  {
    if n == 0 then [] else [DecodeEntry(s, off)] + DecodeEntries(s, off + ENTRY_SIZE, n - 1)
  }

  lemma {:induction false} DecodeEntriesAt(s: bytes, off: nat, n: nat, i: nat)
    requires off + ENTRY_SIZE * n <= |s| && i < n
    ensures DecodeEntries(s, off, n)[i] == DecodeEntry(s, off + ENTRY_SIZE * i)
    decreases n
  {
    if i > 0 { DecodeEntriesAt(s, off + ENTRY_SIZE, n - 1, i - 1); }
  }

  /** Where a receiver finds the fields of the i-th of a run of entries. */
  lemma EntryBytes(s: bytes, off: nat, n: nat, i: nat)
    requires off + 22 * n <= |s| && i < n
    ensures var e, p := DecodeEntries(s, off, n)[i], off + 22 * i;
      && p + 22 <= |s|
      && e.replicaId == I32(s, p) && e.simTimeUs == U64(s, p + 4)
      && e.isAmbulance == s[p + 12] && e.lane == s[p + 13] && e.direction == s[p + 14]
      && e.positionInLane == s[p + 15] && e.cyberStatus == s[p + 16] && e.physicalLaneIndex == s[p + 17]
      && e.lateralClaimCm == I32(s, p + 18)
  {
    DecodeEntriesAt(s, off, n, i);
  }

  lemma {:induction false} EntriesRoundTrip(s: bytes, off: nat, es: seq<VehicleEntry>)
    requires At(s, off, EncodeEntries(es))
    ensures DecodeEntries(s, off, |es|) == es
    decreases es
  {
    if es != [] {
      AtConcat(s, off, EncodeEntry(es[0]), EncodeEntries(es[1..]));
      EntryRoundTrip(s, off, es[0]);
      EntriesRoundTrip(s, off + ENTRY_SIZE, es[1..]);
    }
  }

  ghost function EncodeHdr(h: ProposeHdr): (r: bytes)
    ensures |r| == PROPOSE_HDR_SIZE
  {
    LE32(h.epoch) + LEI32(h.leaderId) + LE64(h.proposeSimTimeUs) + LE32(h.nVehicles)
  }

  function DecodeHdr(s: bytes): ProposeHdr
    requires PROPOSE_HDR_SIZE <= |s|
  {
    ProposeHdr(U32(s, 0), I32(s, 4), U64(s, 8), U32(s, 16))
  }

  lemma HdrFields(s: bytes, off: nat, h: ProposeHdr)
    requires At(s, off, EncodeHdr(h))
    ensures U32(s, off) == h.epoch && I32(s, off + 4) == h.leaderId && U32(s, off + 4) == AsUnsigned(h.leaderId)
    ensures U64(s, off + 8) == h.proposeSimTimeUs && U32(s, off + 16) == h.nVehicles
    ensures U32(s, off + 8) == h.proposeSimTimeUs % 0x1_0000_0000
    ensures U32(s, off + 12) == h.proposeSimTimeUs / 0x1_0000_0000
  {
    var a, b, c, d := LE32(h.epoch), LEI32(h.leaderId), LE64(h.proposeSimTimeUs), LE32(h.nVehicles);
    AtConcat4(s, off, a, b, c, d);
    ReadLE32(s, off, h.epoch);
    ReadLEI32(s, off + 4, h.leaderId);
    ReadLE64(s, off + 8, h.proposeSimTimeUs);
    ReadLE32(s, off + 16, h.nVehicles);
  }

  // ----- the decision sent to the vehicles

  const ORDER_HDR_SIZE: nat := 12
  const DECISION_SIZE: nat := 8

  datatype OrderDecision = OrderDecision(epoch: uint32, nBatches: uint32, decisions: seq<VehicleDecision>)

  ghost function EncodeDecisions(ds: seq<VehicleDecision>): (r: bytes)
    ensures |r| == DECISION_SIZE * |ds|
  {
    if ds == [] then []
    else
      var n := |ds| - 1;
      EncodeDecisions(ds[..n]) + LEI32(ds[n].replicaId) + LE32(ds[n].batchIndex)
  }

  ghost function EncodeOrder(o: OrderDecision): bytes
    requires |o.decisions| < 0x1_0000_0000
  {
    LE32(o.epoch) + LE32(|o.decisions|) + LE32(o.nBatches) + EncodeDecisions(o.decisions)
  }

  function DecodeDecisions(s: bytes, off: nat, n: nat): (r: seq<VehicleDecision>)
    requires off + DECISION_SIZE * n <= |s|
    ensures |r| == n
    decreases n
  {
    if n == 0 then []
    else
      var p := off + DECISION_SIZE * (n - 1);
      DecodeDecisions(s, off, n - 1) + [VehicleDecision(I32(s, p), U32(s, p + 4))]
  }

  function DecodeOrder(s: bytes): Option<OrderDecision> {
    if |s| < ORDER_HDR_SIZE || |s| < ORDER_HDR_SIZE + DECISION_SIZE * U32(s, 4) then None
    else Some(OrderDecision(U32(s, 0), U32(s, 8), DecodeDecisions(s, ORDER_HDR_SIZE, U32(s, 4))))
  }

  lemma {:induction false} DecodeDecisionsAt(s: bytes, off: nat, n: nat, i: nat)
    requires off + DECISION_SIZE * n <= |s| && i < n
    ensures DecodeDecisions(s, off, n)[i]
      == VehicleDecision(I32(s, off + DECISION_SIZE * i), U32(s, off + DECISION_SIZE * i + 4))
    decreases n
  {
    if i < n - 1 { DecodeDecisionsAt(s, off, n - 1, i); }
  }

  /** Where a receiver finds the decision and its rows: behind a header of 12 bytes, 8 bytes each. */
  lemma OrderBytes(s: bytes, o: OrderDecision)
    ensures DecodeOrder(s) == Some(o) <==>
      && |s| >= 12 && o.epoch == U32(s, 0) && |o.decisions| == U32(s, 4) && o.nBatches == U32(s, 8)
      && |s| >= 12 + 8 * |o.decisions|
      && forall i :: 0 <= i < |o.decisions| ==>
           o.decisions[i].replicaId == I32(s, 12 + 8 * i) && o.decisions[i].batchIndex == U32(s, 16 + 8 * i)
  {
    if |s| >= 12 && |s| >= 12 + 8 * U32(s, 4) {
      var ds := DecodeDecisions(s, 12, U32(s, 4));
      forall i | 0 <= i < |ds| ensures ds[i] == VehicleDecision(I32(s, 12 + 8 * i), U32(s, 16 + 8 * i)) {
        DecodeDecisionsAt(s, 12, U32(s, 4), i);
      }
      assert |o.decisions| == |ds| && (forall i :: 0 <= i < |ds| ==> o.decisions[i] == ds[i]) ==> o.decisions == ds;
    }
  }

  lemma {:induction false} DecisionsRoundTrip(s: bytes, off: nat, ds: seq<VehicleDecision>)
    requires At(s, off, EncodeDecisions(ds))
    ensures DecodeDecisions(s, off, |ds|) == ds
    decreases ds
  {
    if ds != [] {
      var n := |ds| - 1;
      var a, b, c := EncodeDecisions(ds[..n]), LEI32(ds[n].replicaId), LE32(ds[n].batchIndex);
      AtConcat(s, off, a + b, c);
      AtConcat(s, off, a, b);
      ReadLEI32(s, off + DECISION_SIZE * n, ds[n].replicaId);
      ReadLE32(s, off + DECISION_SIZE * n + 4, ds[n].batchIndex);
      DecisionsRoundTrip(s, off, ds[..n]);
    }
  }

  /** A receiver recovers the decision, whatever evidence trailer follows it. */
  lemma OrderRoundTrip(o: OrderDecision, trailer: bytes)
    requires |o.decisions| < 0x1_0000_0000
    ensures DecodeOrder(EncodeOrder(o) + trailer) == Some(o)
  {
    var s := EncodeOrder(o) + trailer;
    var a, b, c, d := LE32(o.epoch), LE32(|o.decisions|), LE32(o.nBatches), EncodeDecisions(o.decisions);
    assert At(s, 0, a + b + c + d);
    AtConcat4(s, 0, a, b, c, d);
    ReadLE32(s, 0, o.epoch);
    ReadLE32(s, 4, |o.decisions|);
    ReadLE32(s, 8, o.nBatches);
    DecisionsRoundTrip(s, ORDER_HDR_SIZE, o.decisions);
  }
}
