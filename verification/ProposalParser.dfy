/** Telling the three overlapping proposal formats apart. */
module ProposalParser {
  import opened BridgeTypes
  import opened WireFormat

  /** Reads "CANCEL_CERT|". */
  const CANCEL_TAG: bytes := [67, 65, 78, 67, 69, 76, 95, 67, 69, 82, 84, 124]

  const MAX_COUNT: nat := 10000
  const ROLLBACK_HDR_SIZE: nat := 16
  const CANCEL_HDR_SIZE: nat := 12

  datatype RollbackHdr = RollbackHdr(newEpoch: uint32, cancelledEpoch: uint32, reason: byte, justificationLen: uint32)

  datatype CancelHdr = CancelHdr(cancelledEpoch: uint32, reason: byte, justificationLen: uint32)

  datatype Kind = KNormal | KCancel | KRollback

  function ReadRollbackHdr(raw: bytes): RollbackHdr
    requires ROLLBACK_HDR_SIZE <= |raw|
  {
    RollbackHdr(U32(raw, 0), U32(raw, 4), raw[8], U32(raw, 12))
  }

  function ReadCancelHdr(raw: bytes): CancelHdr
    requires CANCEL_HDR_SIZE <= |raw|
  {
    CancelHdr(U32(raw, 0), raw[4], U32(raw, 8))
  }

  /** Unsigned 32-bit successor. */
  function Next32(x: uint32): uint32 {
    if x == 0xFFFF_FFFF then 0 else x + 1
  }

  /** A header with a sane count, followed by at least that many entries. */
  function ParseNormalProposal(data: bytes): Option<ProposeHdr> {
    if |data| < PROPOSE_HDR_SIZE then None
    else
      var hdr := DecodeHdr(data);
      if hdr.nVehicles > MAX_COUNT then None
      else if |data| < PROPOSE_HDR_SIZE + hdr.nVehicles * ENTRY_SIZE then None
      else Some(hdr)
  }

  function DecodeElectors(s: bytes, off: nat, n: nat): (r: seq<int32>)
    requires off + 4 * n <= |s|
    ensures |r| == n
    decreases n
  {
    if n == 0 then [] else DecodeElectors(s, off, n - 1) + [I32(s, off + 4 * (n - 1))]
  }

  /** Leader and electorate behind the justification. */
  function CancelTail(raw: bytes, off: nat): Option<(int32, seq<int32>)> {
    if |raw| < off + 8 then None
    else if U32(raw, off + 4) > MAX_COUNT || |raw| < off + 8 + 4 * U32(raw, off + 4) then None
    else Some((I32(raw, off), DecodeElectors(raw, off + 8, U32(raw, off + 4))))
  }

  /** Offsets 0..15 read as a rollback header announcing the successor epoch. */
  predicate RollbackShaped(raw: bytes) {
    |raw| >= ROLLBACK_HDR_SIZE &&
    var r := ReadRollbackHdr(raw);
    r.reason <= 1 && r.newEpoch == Next32(r.cancelledEpoch)
  }

  /** The cancel test up to, but not including, the tail. */
  predicate CancelPrefix(raw: bytes) {
    |raw| >= CANCEL_HDR_SIZE &&
    var c := ReadCancelHdr(raw);
    && c.reason <= 1
    && CANCEL_HDR_SIZE + c.justificationLen <= |raw|
    && c.justificationLen != 0
    && CANCEL_TAG <= raw[CANCEL_HDR_SIZE..CANCEL_HDR_SIZE + c.justificationLen]
    && !RollbackShaped(raw)
  }

  /** The rollback branch: a rollback header around a proposal for its new epoch. */
  predicate RollbackGuard(raw: bytes) {
    |raw| >= ROLLBACK_HDR_SIZE + PROPOSE_HDR_SIZE && RollbackShaped(raw) &&
    var r := ReadRollbackHdr(raw);
    ROLLBACK_HDR_SIZE + r.justificationLen <= |raw| &&
    var inner := ParseNormalProposal(raw[ROLLBACK_HDR_SIZE + r.justificationLen..]);
    inner.Some? && inner.value.epoch == r.newEpoch
  }

  // ----- what a payload is

  datatype Parsed =
    | NormalProposal(data: bytes)
    | CancelProposal(cancel: CancelHdr, leaderId: int32, electors: seq<int32>)
    | RollbackProposal(rollback: RollbackHdr, data: bytes)

  function Classify(raw: bytes): Option<Parsed> {
    if CancelPrefix(raw) && CancelTail(raw, CANCEL_HDR_SIZE + ReadCancelHdr(raw).justificationLen).Some? then
      var tail := CancelTail(raw, CANCEL_HDR_SIZE + ReadCancelHdr(raw).justificationLen).value;
      Some(CancelProposal(ReadCancelHdr(raw), tail.0, tail.1))
    else if RollbackGuard(raw) then
      var r := ReadRollbackHdr(raw);
      Some(RollbackProposal(r, raw[ROLLBACK_HDR_SIZE + r.justificationLen..]))
    else if ParseNormalProposal(raw).Some? then Some(NormalProposal(raw))
    else None
  }

  lemma TagWord(raw: bytes)
    requires |raw| >= 24 && CANCEL_TAG <= raw[12..]
    ensures U32(raw, 16) == 0x435F_4C45 && U32(raw, 12) == 0x434E_4143
  {
    var j := raw[12..];
    assert forall i :: 0 <= i < 12 ==> raw[12 + i] == j[i] == CANCEL_TAG[i];
    assert raw[12 + 0] == 67 && raw[12 + 1] == 65 && raw[12 + 2] == 78 && raw[12 + 3] == 67;
    assert raw[12 + 4] == 69 && raw[12 + 5] == 76 && raw[12 + 6] == 95 && raw[12 + 7] == 67;
  }

  /** No payload passes the cancel test and also reads as a normal or rollback proposal:
      the tag overlays the vehicle count. */
  lemma CancelIsNeverAnOrder(raw: bytes)
    requires CancelPrefix(raw)
    ensures ParseNormalProposal(raw) == None && !RollbackGuard(raw)
  {
    var just := raw[CANCEL_HDR_SIZE..CANCEL_HDR_SIZE + ReadCancelHdr(raw).justificationLen];
    assert |just| >= |CANCEL_TAG|;
    assert CANCEL_TAG <= raw[12..] by {
      assert forall i :: 0 <= i < 12 ==> raw[12..][i] == just[i] == CANCEL_TAG[i];
    }
    TagWord(raw);
  }

  // ----- what a payload is, byte by byte

  lemma {:induction false} DecodeElectorsAt(s: bytes, off: nat, n: nat, i: nat)
    requires off + 4 * n <= |s| && i < n
    ensures DecodeElectors(s, off, n)[i] == I32(s, off + 4 * i)
    decreases n
  {
    if i < n - 1 { DecodeElectorsAt(s, off, n - 1, i); }
  }

  /** Where the tail of a cancel holds the leader, the count and the electors. */
  lemma CancelTailBytes(raw: bytes, off: nat, leaderId: int32, electors: seq<int32>)
    ensures CancelTail(raw, off) == Some((leaderId, electors)) <==>
      && off + 8 <= |raw| && leaderId == I32(raw, off) && |electors| == U32(raw, off + 4) <= 10000
      && off + 8 + 4 * |electors| <= |raw|
      && forall i :: 0 <= i < |electors| ==> electors[i] == I32(raw, off + 8 + 4 * i)
  {
    if off + 8 <= |raw| && off + 8 + 4 * U32(raw, off + 4) <= |raw| {
      var es := DecodeElectors(raw, off + 8, U32(raw, off + 4));
      forall i | 0 <= i < |es| ensures es[i] == I32(raw, off + 8 + 4 * i) {
        DecodeElectorsAt(raw, off + 8, U32(raw, off + 4), i);
      }
      assert |electors| == |es| && (forall i :: 0 <= i < |es| ==> electors[i] == es[i]) ==> electors == es;
    }
  }

  /** The words 0 to 15 announce a rollback of known reason to the successor epoch. */
  lemma RollbackShape(raw: bytes)
    requires |raw| >= 16
    ensures RollbackShaped(raw) <==>
      raw[8] <= 1 && U32(raw, 0) == if U32(raw, 4) == 0xFFFF_FFFF then 0 else U32(raw, 4) + 1
  {
  }

  /** A cancel is read off the bytes: a header of 12 bytes that does not announce a rollback, a
      justification that begins with "CANCEL_CERT|", and a complete tail of at most 10000 electors. */
  lemma CancelBytes(raw: bytes, c: CancelHdr, leaderId: int32, electors: seq<int32>)
    ensures Classify(raw) == Some(CancelProposal(c, leaderId, electors)) <==>
      && |raw| >= 24 && c.cancelledEpoch == U32(raw, 0) && c.reason == raw[4] <= 1 && c.justificationLen == U32(raw, 8)
      && c.justificationLen >= 12 && 12 + c.justificationLen <= |raw|
      && raw[12..24] == [67, 65, 78, 67, 69, 76, 95, 67, 69, 82, 84, 124]
      && !(raw[8] <= 1 && U32(raw, 0) == if U32(raw, 4) == 0xFFFF_FFFF then 0 else U32(raw, 4) + 1)
      && CancelTail(raw, 12 + c.justificationLen) == Some((leaderId, electors))
  {
    if |raw| >= 24 {
      RollbackShape(raw);
      TagBytes(raw, U32(raw, 8));
    } else if |raw| >= 12 {
      ShortIsNoCancel(raw);
    }
  }

  lemma TagBytes(raw: bytes, len: nat)
    requires |raw| >= 24
    ensures 12 + len <= |raw| ==>
      (CANCEL_TAG <= raw[12..12 + len] <==>
        len >= 12 && raw[12..24] == [67, 65, 78, 67, 69, 76, 95, 67, 69, 82, 84, 124])
  {
    if 12 <= len && 12 + len <= |raw| { assert raw[12..12 + len][..12] == raw[12..24]; }
  }

  lemma ShortIsNoCancel(raw: bytes)
    requires 12 <= |raw| < 24
    ensures !CancelPrefix(raw)
  {
    if 12 + U32(raw, 8) <= |raw| { assert |raw[12..12 + U32(raw, 8)]| < 12; }
  }

  /** An order is at least 20 bytes, and 22 more for each of its at most 10000 vehicles. */
  lemma OrderBytesParse(data: bytes, hdr: ProposeHdr)
    ensures ParseNormalProposal(data) == Some(hdr) <==>
      && |data| >= 20 && hdr.epoch == U32(data, 0) && hdr.leaderId == I32(data, 4)
      && hdr.proposeSimTimeUs == U64(data, 8) && hdr.nVehicles == U32(data, 16) <= 10000
      && |data| >= 20 + 22 * hdr.nVehicles
  {
  }

  /** A rollback is a header of 16 bytes, a justification, and an order for the epoch announced. */
  lemma RollbackBytes(raw: bytes, r: RollbackHdr, data: bytes)
    ensures Classify(raw) == Some(RollbackProposal(r, data)) <==>
      && |raw| >= 36 && r.newEpoch == U32(raw, 0) && r.cancelledEpoch == U32(raw, 4) && r.reason == raw[8] <= 1
      && r.justificationLen == U32(raw, 12) && 16 + r.justificationLen <= |raw|
      && r.newEpoch == (if r.cancelledEpoch == 0xFFFF_FFFF then 0 else r.cancelledEpoch + 1)
      && data == raw[16 + r.justificationLen..] && ParseNormalProposal(data).Some? && U32(data, 0) == r.newEpoch
  {
    if CancelPrefix(raw) { CancelIsNeverAnOrder(raw); }
  }

  /** Every other payload that parses as an order is one, and nothing else is recognised. */
  lemma NormalBytes(raw: bytes, data: bytes)
    ensures Classify(raw) == Some(NormalProposal(data)) <==>
      data == raw && ParseNormalProposal(raw).Some? && !exists r, d :: Classify(raw) == Some(RollbackProposal(r, d))
  {
    if CancelPrefix(raw) { CancelIsNeverAnOrder(raw); }
  }

  // ----- the parser proper

  class ProposalView {
    var data: bytes
    var kind: Kind
    var rollback: RollbackHdr
    var cancel: CancelHdr
    var cancelLeaderId: int32
    var cancelElectors: seq<int32>
    var rawPayload: bytes

    constructor ()
      ensures data == [] && kind == KNormal && cancelLeaderId == -1 && cancelElectors == [] && rawPayload == []
    {
      data, kind, rawPayload := [], KNormal, [];
      rollback, cancel := RollbackHdr(0, 0, 0, 0), CancelHdr(0, 0, 0);
      cancelLeaderId, cancelElectors := -1, [];
    }

    /** The fields describe `p`, parsed from `raw`. */
    ghost predicate Describes(raw: bytes, p: Parsed)
      reads this
    {
      rawPayload == raw &&
      match p
      case NormalProposal(d) => kind == KNormal && data == d
      case CancelProposal(c, leader, electors) =>
        kind == KCancel && data == raw && cancel == c && cancelLeaderId == leader && cancelElectors == electors
      case RollbackProposal(r, d) => kind == KRollback && rollback == r && data == d
    }

    method ParseCancelTail(raw: bytes, off: nat) returns (ok: bool)
      modifies this`cancelLeaderId, this`cancelElectors
      ensures ok <==> CancelTail(raw, off).Some?
      ensures ok ==> (cancelLeaderId, cancelElectors) == CancelTail(raw, off).value
      ensures !ok ==> cancelLeaderId == old(cancelLeaderId) && cancelElectors == old(cancelElectors)
    {
      if |raw| < off + 8 { return false; }
      var n := U32(raw, off + 4);
      if n > MAX_COUNT || |raw| < off + 8 + 4 * n { return false; }
      cancelLeaderId := I32(raw, off);
      cancelElectors := [];
      for i := 0 to n
        invariant cancelElectors == DecodeElectors(raw, off + 8, i) && cancelLeaderId == I32(raw, off)
      {
        cancelElectors := cancelElectors + [I32(raw, off + 8 + 4 * i)];
      }
      return true;
    }

    /** Sets `kind` before the tail is checked, and leaves it set when the tail is bad. */
    method LooksLikeCancelProposal(raw: bytes) returns (ok: bool)
      modifies this
      ensures ok <==> CancelPrefix(raw) && CancelTail(raw, CANCEL_HDR_SIZE + ReadCancelHdr(raw).justificationLen).Some?
      ensures ok ==> Classify(raw).Some? && Describes(raw, Classify(raw).value)
      ensures !ok && !CancelPrefix(raw) ==>
        data == old(data) && kind == old(kind) && rawPayload == old(rawPayload)
      ensures !ok && CancelPrefix(raw) ==> kind == KCancel && rawPayload == raw
    {
      if |raw| < CANCEL_HDR_SIZE { return false; }
      var chdr := ReadCancelHdr(raw);
      if chdr.reason > 1 { return false; }
      if CANCEL_HDR_SIZE + chdr.justificationLen > |raw| { return false; }
      if chdr.justificationLen == 0 { return false; }
      var just := raw[CANCEL_HDR_SIZE..CANCEL_HDR_SIZE + chdr.justificationLen];
      if !(CANCEL_TAG <= just) { return false; }
      if |raw| >= ROLLBACK_HDR_SIZE {
        var rhdr := ReadRollbackHdr(raw);
        if rhdr.reason <= 1 && rhdr.newEpoch == Next32(rhdr.cancelledEpoch) { return false; }
      }
      kind := KCancel;
      cancel := chdr;
      rawPayload := raw;
      ok := ParseCancelTail(raw, CANCEL_HDR_SIZE + chdr.justificationLen);
      if !ok { return false; }
      data := raw;
    }

    /** Succeeds exactly on the payloads `Classify` recognises, and then describes them:
        a cancel kind left behind by a bad tail is never visible to the caller. */
    method UnwrapRollbackIfPresent(raw: bytes) returns (ok: bool)
      modifies this
      ensures ok <==> Classify(raw).Some?
      ensures ok ==> Describes(raw, Classify(raw).value)
    {
      data := raw;
      kind := KNormal;
      cancelElectors := [];
      cancelLeaderId := -1;
      rawPayload := raw;
      var isCancel := LooksLikeCancelProposal(raw);
      if isCancel { return true; }
      if CancelPrefix(raw) { CancelIsNeverAnOrder(raw); }
      if |raw| < ROLLBACK_HDR_SIZE + PROPOSE_HDR_SIZE { return ParseNormalProposal(raw).Some?; }
      var rhdr := ReadRollbackHdr(raw);
      if rhdr.reason > 1 { return ParseNormalProposal(raw).Some?; }
      if rhdr.newEpoch != Next32(rhdr.cancelledEpoch) { return ParseNormalProposal(raw).Some?; }
      var innerOff := ROLLBACK_HDR_SIZE + rhdr.justificationLen;
      if innerOff > |raw| { return ParseNormalProposal(raw).Some?; }
      var inner := ParseNormalProposal(raw[innerOff..]);
      if inner.None? { return ParseNormalProposal(raw).Some?; }
      if inner.value.epoch != rhdr.newEpoch { return ParseNormalProposal(raw).Some?; }
      data := raw[innerOff..];
      kind := KRollback;
      rollback := rhdr;
      return true;
    }
  }

  // ----- what senders put on the wire

  ghost function EncodeNormal(hdr: ProposeHdr, entries: seq<VehicleEntry>): bytes {
    EncodeHdr(hdr) + EncodeEntries(entries)
  }

  /** Only zero pads are sent. */
  ghost function EncodeRollback(r: RollbackHdr, justification: bytes, inner: bytes): bytes {
    LE32(r.newEpoch) + LE32(r.cancelledEpoch) + [r.reason, 0, 0, 0] + LE32(r.justificationLen) + justification + inner
  }

  ghost function EncodeElectors(electors: seq<int32>): (r: bytes)
    ensures |r| == 4 * |electors|
  {
    if electors == [] then []
    else EncodeElectors(electors[..|electors| - 1]) + LEI32(electors[|electors| - 1])
  }

  ghost function EncodeCancel(c: CancelHdr, justification: bytes, leaderId: int32, electors: seq<int32>): bytes
    requires |electors| < 0x1_0000_0000
  {
    LE32(c.cancelledEpoch) + [c.reason, 0, 0, 0] + LE32(c.justificationLen) + justification +
    (LEI32(leaderId) + LE32(|electors|) + EncodeElectors(electors))
  }

  type Certificate = c: bytes | |c| < 0x1_0000_0000

  ghost function EncodeCerts(certs: seq<Certificate>): bytes {
    if certs == [] then [] else LE32(|certs[0]|) + certs[0] + EncodeCerts(certs[1..])
  }

  /** The trailer of a crash-recovery order: magic, version, count, and each certificate behind its length. */
  ghost function EncodeEvidence(version: uint16, certs: seq<Certificate>): bytes
    requires |certs| < 0x1_0000
  {
    LE32(0x4F45_5631) + LE16(version) + LE16(|certs|) + EncodeCerts(certs)
  }

  // ----- round trips

  lemma {:induction false} ElectorsRoundTrip(s: bytes, off: nat, electors: seq<int32>)
    requires At(s, off, EncodeElectors(electors))
    ensures DecodeElectors(s, off, |electors|) == electors
    decreases electors
  {
    if electors != [] {
      var n := |electors| - 1;
      AtConcat(s, off, EncodeElectors(electors[..n]), LEI32(electors[n]));
      ReadLEI32(s, off + 4 * n, electors[n]);
      ElectorsRoundTrip(s, off, electors[..n]);
    }
  }

  lemma PadWord(s: bytes, off: nat, x: byte)
    requires At(s, off, [x, 0, 0, 0])
    ensures U32(s, off) == x && s[off] == x
  {
    var f := [x, 0, 0, 0];
    assert forall i :: 0 <= i < 4 ==> s[off + i] == s[off..off + 4][i] == f[i];
    assert s[off + 0] == f[0];
  }

  lemma CancelTailFields(raw: bytes, t: nat, leaderId: int32, n: uint32, z: bytes)
    requires At(raw, t, LEI32(leaderId) + LE32(n) + z)
    ensures t + 8 + |z| <= |raw| && I32(raw, t) == leaderId && U32(raw, t + 4) == n && At(raw, t + 8, z)
  {
    AtConcat(raw, t, LEI32(leaderId) + LE32(n), z);
    AtConcat(raw, t, LEI32(leaderId), LE32(n));
    ReadLEI32(raw, t, leaderId);
    ReadLE32(raw, t + 4, n);
  }

  lemma CancelTailValue(raw: bytes, t: nat, leaderId: int32, electors: seq<int32>)
    requires t + 8 + 4 * |electors| <= |raw|
    requires I32(raw, t) == leaderId && U32(raw, t + 4) == |electors|
    requires DecodeElectors(raw, t + 8, |electors|) == electors
    ensures CancelTail(raw, t) == if |electors| <= 10000 then Some((leaderId, electors)) else None
  {
  }

  lemma CancelTailContents(raw: bytes, t: nat, leaderId: int32, electors: seq<int32>)
    requires |electors| < 0x1_0000_0000
    requires At(raw, t, LEI32(leaderId) + LE32(|electors|) + EncodeElectors(electors))
    ensures t + 8 + 4 * |electors| <= |raw|
    ensures I32(raw, t) == leaderId && U32(raw, t + 4) == |electors|
    ensures DecodeElectors(raw, t + 8, |electors|) == electors
  {
    CancelTailFields(raw, t, leaderId, |electors|, EncodeElectors(electors));
    ElectorsRoundTrip(raw, t + 8, electors);
  }

  lemma CancelHdrLayout(raw: bytes, c: CancelHdr, just: bytes, tail: bytes)
    requires raw == LE32(c.cancelledEpoch) + [c.reason, 0, 0, 0] + LE32(c.justificationLen) + just + tail
    requires c.justificationLen == |just|
    ensures |raw| == CANCEL_HDR_SIZE + |just| + |tail|
    ensures ReadCancelHdr(raw) == c && U32(raw, 4) == c.reason && raw[8] == |just| % 0x100
    ensures raw[CANCEL_HDR_SIZE..CANCEL_HDR_SIZE + |just|] == just && At(raw, CANCEL_HDR_SIZE + |just|, tail)
  {
    var a, b, d := LE32(c.cancelledEpoch), [c.reason, 0, 0, 0], LE32(c.justificationLen);
    assert At(raw, 0, a + b + d + just + tail);
    AtConcat(raw, 0, a + b + d + just, tail);
    AtConcat4(raw, 0, a, b, d, just);
    ReadLE32(raw, 0, c.cancelledEpoch);
    PadWord(raw, 4, c.reason);
    ReadLE32(raw, 8, c.justificationLen);
    LowByte(raw, 8);
  }

  /** A cancel proposal comes back as sent exactly when its reason is known, its
      justification is a CANCEL_CERT, its electorate has at most 10000 members, and it
      does not look like a rollback: cancelled epoch one above the reason, with a
      justification length whose low byte is 0 or 1. */
  lemma CancelRoundTrip(c: CancelHdr, just: bytes, leaderId: int32, electors: seq<int32>)
    requires |electors| < 0x1_0000_0000 && c.justificationLen == |just|
    ensures Classify(EncodeCancel(c, just, leaderId, electors)) == Some(CancelProposal(c, leaderId, electors))
      <==> (c.reason <= 1 && [67, 65, 78, 67, 69, 76, 95, 67, 69, 82, 84, 124] <= just && |electors| <= 10000
            && !(c.cancelledEpoch == c.reason + 1 && |just| % 0x100 <= 1))
    ensures Classify(EncodeCancel(c, just, leaderId, electors)) == Some(CancelProposal(c, leaderId, electors))
      <==> (Classify(EncodeCancel(c, just, leaderId, electors)).Some?
            && Classify(EncodeCancel(c, just, leaderId, electors)).value.CancelProposal?)
  {
    var raw := EncodeCancel(c, just, leaderId, electors);
    var tail := LEI32(leaderId) + LE32(|electors|) + EncodeElectors(electors);
    CancelHdrLayout(raw, c, just, tail);
    CancelTailContents(raw, CANCEL_HDR_SIZE + |just|, leaderId, electors);
    CancelTailValue(raw, CANCEL_HDR_SIZE + |just|, leaderId, electors);
    CancelOrNot(raw, c, just, leaderId, electors);
    ClassifiedAsCancel(raw, c, CANCEL_HDR_SIZE + |just|);
  }

  /** A cancel that collides with the rollback layout is not recognised at all, unless it
      exceeds a gigabyte: the tag, read as a length, points behind its end. */
  lemma CollidingCancelIsLost(c: CancelHdr, just: bytes, leaderId: int32, electors: seq<int32>)
    requires |electors| < 0x1_0000_0000 && c.justificationLen == |just| && CANCEL_TAG <= just
    requires c.reason <= 1 && c.cancelledEpoch == c.reason + 1 && |just| % 0x100 <= 1
    requires |EncodeCancel(c, just, leaderId, electors)| < 0x434E_4143
    ensures Classify(EncodeCancel(c, just, leaderId, electors)).None?
  {
    var raw := EncodeCancel(c, just, leaderId, electors);
    CancelHdrLayout(raw, c, just, LEI32(leaderId) + LE32(|electors|) + EncodeElectors(electors));
    assert |just| >= 12;
    ShapeOnFields(raw, c, raw[8]);
    TagBehindHeader(raw, just);
    TaggedRollbackIsNothing(raw);
  }

  lemma TagBehindHeader(raw: bytes, just: bytes)
    requires |raw| >= 12 + |just| && raw[12..12 + |just|] == just && CANCEL_TAG <= just
    ensures CANCEL_TAG <= raw[12..]
  {
    assert raw[12..] == just + raw[12 + |just|..];
  }

  lemma TaggedRollbackIsNothing(raw: bytes)
    requires 24 <= |raw| < 0x434E_4143 && CANCEL_TAG <= raw[12..] && RollbackShaped(raw)
    ensures Classify(raw).None?
  {
    TagWord(raw);
    assert !CancelPrefix(raw);
    assert ParseNormalProposal(raw).None?;
    assert !RollbackGuard(raw);
  }

  /** For instance a crash cancel of epoch 1 with a justification of 256 bytes. */
  lemma LostCancelExample(filler: bytes)
    requires |filler| == 244
    ensures Classify(EncodeCancel(CancelHdr(1, 0, 256), CANCEL_TAG + filler, 0, [0, 1, 2, 3])).None?
  {
    CollidingCancelIsLost(CancelHdr(1, 0, 256), CANCEL_TAG + filler, 0, [0, 1, 2, 3]);
  }

  lemma ShapeOnFields(raw: bytes, c: CancelHdr, low: byte)
    requires |raw| >= ROLLBACK_HDR_SIZE && ReadCancelHdr(raw) == c && U32(raw, 4) == c.reason && raw[8] == low
    ensures RollbackShaped(raw) <==> low <= 1 && c.cancelledEpoch == Next32(c.reason)
  {
  }

  lemma PrefixOnFields(raw: bytes, c: CancelHdr, just: bytes)
    requires |raw| >= CANCEL_HDR_SIZE + |just| && ReadCancelHdr(raw) == c && c.justificationLen == |just|
    requires raw[CANCEL_HDR_SIZE..CANCEL_HDR_SIZE + |just|] == just
    ensures CancelPrefix(raw) <==> c.reason <= 1 && CANCEL_TAG <= just && !RollbackShaped(raw)
  {
    assert CANCEL_TAG <= just ==> |just| >= 12;
  }

  lemma ClassifiedAsCancel(raw: bytes, c: CancelHdr, t: nat)
    requires |raw| >= CANCEL_HDR_SIZE && ReadCancelHdr(raw) == c && t == CANCEL_HDR_SIZE + c.justificationLen
    ensures CancelPrefix(raw) && CancelTail(raw, t).Some? ==>
      Classify(raw) == Some(CancelProposal(c, CancelTail(raw, t).value.0, CancelTail(raw, t).value.1))
    ensures !(CancelPrefix(raw) && CancelTail(raw, t).Some?) ==>
      Classify(raw).None? || !Classify(raw).value.CancelProposal?
  {
  }

  lemma CancelOrNot(raw: bytes, c: CancelHdr, just: bytes, leaderId: int32, electors: seq<int32>)
    requires |raw| >= CANCEL_HDR_SIZE + |just| + 8 && c.justificationLen == |just|
    requires ReadCancelHdr(raw) == c && U32(raw, 4) == c.reason && raw[8] == |just| % 0x100
    requires raw[CANCEL_HDR_SIZE..CANCEL_HDR_SIZE + |just|] == just
    requires CancelTail(raw, CANCEL_HDR_SIZE + |just|)
      == if |electors| <= 10000 then Some((leaderId, electors)) else None
    ensures Classify(raw) == Some(CancelProposal(c, leaderId, electors))
      <==> (c.reason <= 1 && CANCEL_TAG <= just && |electors| <= 10000
            && !(c.cancelledEpoch == c.reason + 1 && |just| % 0x100 <= 1))
  {
    ShapeOnFields(raw, c, raw[8]);
    PrefixOnFields(raw, c, just);
    ClassifiedAsCancel(raw, c, CANCEL_HDR_SIZE + |just|);
  }

  /** Where a voter finds the magic number, the count and the first certificate of a trailer. */
  lemma EvidenceLayout(raw: bytes, off: nat, version: uint16, certs: seq<Certificate>)
    requires |certs| < 0x1_0000 && off <= |raw| && raw[off..] == EncodeEvidence(version, certs)
    ensures off + 8 <= |raw| && U32(raw, off) == 0x4F45_5631 && U16(raw, off + 6) == |certs|
    ensures certs != [] ==>
      && off + 12 + |certs[0]| <= |raw| && U32(raw, off + 8) == |certs[0]|
      && raw[off + 12..off + 12 + |certs[0]|] == certs[0]
  {
    var rest := EncodeCerts(certs);
    assert At(raw, off, EncodeEvidence(version, certs));
    AtConcat4(raw, off, LE32(0x4F45_5631), LE16(version), LE16(|certs|), rest);
    ReadLE32(raw, off, 0x4F45_5631);
    ReadLE16(raw, off + 6, |certs|);
    if certs != [] {
      AtConcat(raw, off + 8, LE32(|certs[0]|) + certs[0], EncodeCerts(certs[1..]));
      AtConcat(raw, off + 8, LE32(|certs[0]|), certs[0]);
      ReadLE32(raw, off + 8, |certs[0]|);
    }
  }

  lemma RollbackLayout(raw: bytes, r: RollbackHdr, just: bytes, inner: bytes)
    requires raw == EncodeRollback(r, just, inner) && r.justificationLen == |just|
    ensures |raw| == ROLLBACK_HDR_SIZE + |just| + |inner|
    ensures ReadRollbackHdr(raw) == r
    ensures raw[ROLLBACK_HDR_SIZE + |just|..] == inner
  {
    var a, b, p, d := LE32(r.newEpoch), LE32(r.cancelledEpoch), [r.reason, 0, 0, 0], LE32(|just|);
    assert At(raw, 0, a + b + p + d + just + inner);
    AtConcat6(raw, 0, a, b, p, d, just, inner);
    ReadLE32(raw, 0, r.newEpoch);
    ReadLE32(raw, 4, r.cancelledEpoch);
    PadWord(raw, 8, r.reason);
    ReadLE32(raw, 12, |just|);
  }

  lemma ParseNormalValue(raw: bytes, hdr: ProposeHdr, n: nat)
    requires PROPOSE_HDR_SIZE + ENTRY_SIZE * n <= |raw| && hdr.nVehicles == n && DecodeHdr(raw) == hdr
    ensures ParseNormalProposal(raw) == if n <= 10000 then Some(hdr) else None
  {
  }

  lemma NormalContents(raw: bytes, hdr: ProposeHdr, entries: seq<VehicleEntry>, trailer: bytes)
    requires raw == EncodeNormal(hdr, entries) + trailer
    ensures |raw| == PROPOSE_HDR_SIZE + ENTRY_SIZE * |entries| + |trailer|
    ensures DecodeEntries(raw, PROPOSE_HDR_SIZE, |entries|) == entries
    ensures DecodeHdr(raw) == hdr && At(raw, 0, EncodeHdr(hdr))
  {
    assert At(raw, 0, EncodeNormal(hdr, entries));
    AtConcat(raw, 0, EncodeHdr(hdr), EncodeEntries(entries));
    HdrFields(raw, 0, hdr);
    EntriesRoundTrip(raw, PROPOSE_HDR_SIZE, entries);
  }

  lemma TrailerBehind(raw: bytes, hdr: ProposeHdr, entries: seq<VehicleEntry>, trailer: bytes, p: nat)
    requires raw == EncodeNormal(hdr, entries) + trailer && p == 20 + 22 * |entries|
    ensures p <= |raw| && raw[p..] == trailer
  {
    NormalContents(raw, hdr, entries, trailer);
  }

  lemma NormalLayout(raw: bytes, hdr: ProposeHdr, entries: seq<VehicleEntry>, trailer: bytes)
    requires raw == EncodeNormal(hdr, entries) + trailer && hdr.nVehicles == |entries|
    ensures |raw| == PROPOSE_HDR_SIZE + ENTRY_SIZE * |entries| + |trailer|
    ensures ParseNormalProposal(raw) == if |entries| <= 10000 then Some(hdr) else None
  {
    NormalContents(raw, hdr, entries, trailer);
    ParseNormalValue(raw, hdr, |entries|);
  }

  /** A rollback comes back as sent, justification and inner proposal separated, exactly
      when its reason is known, it announces the successor of the cancelled epoch, and it
      wraps a proposal of at most 10000 vehicles for that epoch. */
  lemma RollbackRoundTrip(r: RollbackHdr, just: bytes, hdr: ProposeHdr, entries: seq<VehicleEntry>, trailer: bytes)
    requires r.justificationLen == |just| && hdr.nVehicles == |entries|
    ensures var inner := EncodeNormal(hdr, entries) + trailer;
      Classify(EncodeRollback(r, just, inner)) == Some(RollbackProposal(r, inner))
      <==> (r.reason <= 1 && r.newEpoch == (if r.cancelledEpoch == 0xFFFF_FFFF then 0 else r.cancelledEpoch + 1)
        && hdr.epoch == r.newEpoch && |entries| <= 10000)
  {
    var inner := EncodeNormal(hdr, entries) + trailer;
    var raw := EncodeRollback(r, just, inner);
    NormalLayout(inner, hdr, entries, trailer);
    RollbackLayout(raw, r, just, inner);
  }

  /** An ORDER payload of at most 10000 vehicles is taken for an ORDER exactly when the
      rollback branch does not claim it. */
  lemma NormalRoundTrip(hdr: ProposeHdr, entries: seq<VehicleEntry>, trailer: bytes)
    requires hdr.nVehicles == |entries|
    ensures var raw := EncodeNormal(hdr, entries) + trailer;
      Classify(raw) == Some(NormalProposal(raw)) <==> |entries| <= 10000 && !RollbackGuard(raw)
  {
    var raw := EncodeNormal(hdr, entries) + trailer;
    NormalLayout(raw, hdr, entries, trailer);
    if CancelPrefix(raw) { CancelIsNeverAnOrder(raw); }
  }

  /** First four flag bytes of an entry, read as a vehicle count. */
  function FlagWord(e: VehicleEntry): int {
    e.isAmbulance as int + 0x100 * (e.lane as int)
      + 0x1_0000 * (e.direction as int) + 0x100_0000 * (e.positionInLane as int)
  }

  lemma FirstEntryFlags(raw: bytes, hdr: ProposeHdr, entries: seq<VehicleEntry>, trailer: bytes)
    requires raw == EncodeNormal(hdr, entries) + trailer && entries != []
    ensures |raw| >= 42 && U32(raw, 32) == FlagWord(entries[0])
  {
    var e := entries[0];
    assert At(raw, 0, EncodeNormal(hdr, entries));
    AtConcat(raw, 0, EncodeHdr(hdr), EncodeEntries(entries));
    AtConcat(raw, 20, EncodeEntry(e), EncodeEntries(entries[1..]));
    AtConcat(raw, 20, LEI32(e.replicaId) + LE64(e.simTimeUs) + EncodeFlags(e), LEI32(e.lateralClaimCm));
    AtConcat(raw, 20, LEI32(e.replicaId) + LE64(e.simTimeUs), EncodeFlags(e));
    ReadFlags(raw, 32, e);
  }

  /** Low byte of the propose time 0 or 1, epoch one above the leader id and equal to the
      vehicle count, and a first vehicle at position 0 whose flags spell a vehicle count
      the payload is long enough for. */
  predicate Mistakable(hdr: ProposeHdr, entries: seq<VehicleEntry>, trailer: bytes)
    requires entries != []
  {
    && hdr.proposeSimTimeUs % 0x100 <= 1
    && hdr.epoch == Next32(AsUnsigned(hdr.leaderId)) && hdr.epoch == hdr.nVehicles
    && entries[0].positionInLane == 0 && FlagWord(entries[0]) <= 10000
    && 16 + 22 * FlagWord(entries[0]) <= 22 * |entries| + |trailer|
  }

  /** Exactly which ORDER payloads proposed before 2^32 microseconds the rollback branch claims. */
  lemma OrderMistakenForRollback(hdr: ProposeHdr, entries: seq<VehicleEntry>, trailer: bytes)
    requires hdr.nVehicles == |entries| && entries != [] && hdr.proposeSimTimeUs < 0x1_0000_0000
    ensures RollbackGuard(EncodeNormal(hdr, entries) + trailer) <==> Mistakable(hdr, entries, trailer)
  {
    var raw := EncodeNormal(hdr, entries) + trailer;
    NormalContents(raw, hdr, entries, trailer);
    HdrFields(raw, 0, hdr);
    ProposeTimeByte(raw, hdr);
    FirstEntryFlags(raw, hdr, entries, trailer);
    GuardOnFields(raw, hdr, FlagWord(entries[0]));
  }

  lemma GuardOnFields(raw: bytes, hdr: ProposeHdr, w: int)
    requires |raw| >= 42 && U32(raw, 0) == hdr.epoch && U32(raw, 4) == AsUnsigned(hdr.leaderId)
    requires raw[8] == hdr.proposeSimTimeUs % 0x100 && U32(raw, 12) == 0
    requires U32(raw, 16) == hdr.nVehicles && U32(raw, 32) == w
    ensures RollbackGuard(raw) <==>
      (hdr.proposeSimTimeUs % 0x100 <= 1 && hdr.epoch == Next32(AsUnsigned(hdr.leaderId)) && hdr.epoch == hdr.nVehicles
       && w <= 10000 && 36 + ENTRY_SIZE * w <= |raw|)
  {
    var inner := raw[16..];
    assert U32(inner, 0) == U32(raw, 16) && U32(inner, 16) == U32(raw, 32);
  }

  /** The propose time is seen by the rollback test through its low byte. */
  lemma ProposeTimeByte(raw: bytes, hdr: ProposeHdr)
    requires At(raw, 0, EncodeHdr(hdr))
    ensures raw[8] == hdr.proposeSimTimeUs % 0x100
  {
    HdrFields(raw, 0, hdr);
    LowByte(raw, 8);
    LowByteOfWord(hdr.proposeSimTimeUs);
  }

  lemma LowByteOfWord(t: nat)
    ensures t % 0x1_0000_0000 % 0x100 == t % 0x100
  {
    var q, r := t / 0x1_0000_0000, t % 0x1_0000_0000;
    RemainderUnique(t, 0x100_0000 * q + r / 0x100, r % 0x100);
  }

  lemma RemainderUnique(t: int, q: int, r: int)
    requires t == 0x100 * q + r && 0 <= r < 0x100
    ensures t % 0x100 == r
  {
  }

  /** Orders whose first vehicle has a real lane position (counted from 1), proposed
      before 2^32 microseconds, always come back as orders; so do all orders whose propose
      time ends in a byte above 1 or whose epoch is not the successor of the leader id. */
  lemma OrdersComeBack(hdr: ProposeHdr, entries: seq<VehicleEntry>, trailer: bytes)
    requires hdr.nVehicles == |entries| && 1 <= |entries| <= 10000
    requires (hdr.proposeSimTimeUs < 0x1_0000_0000 && entries[0].positionInLane >= 1)
      || hdr.proposeSimTimeUs % 0x100 > 1 || hdr.epoch != Next32(AsUnsigned(hdr.leaderId))
    ensures var raw := EncodeNormal(hdr, entries) + trailer;
      Classify(raw) == Some(NormalProposal(raw)) && DecodeEntries(raw, PROPOSE_HDR_SIZE, |entries|) == entries
  {
    var raw := EncodeNormal(hdr, entries) + trailer;
    NormalRoundTrip(hdr, entries, trailer);
    NormalContents(raw, hdr, entries, trailer);
    HdrFields(raw, 0, hdr);
    ProposeTimeByte(raw, hdr);
    if hdr.proposeSimTimeUs < 0x1_0000_0000 { OrderMistakenForRollback(hdr, entries, trailer); }
  }

  /** From 2^32 microseconds on, the high word `shift` of the propose time is skipped as a
      justification, and a header is read from there on. */
  predicate MistakableAt(raw: bytes, hdr: ProposeHdr, shift: nat) {
    && hdr.proposeSimTimeUs % 0x100 <= 1 && hdr.epoch == Next32(AsUnsigned(hdr.leaderId))
    && shift + 36 <= |raw| && U32(raw, shift + 16) == hdr.epoch
    && U32(raw, shift + 32) <= 10000 && shift + 36 + ENTRY_SIZE * U32(raw, shift + 32) <= |raw|
  }

  /** Exactly which ORDER payloads come back as orders, at any propose time. */
  lemma OrderRecognised(hdr: ProposeHdr, entries: seq<VehicleEntry>, trailer: bytes)
    requires hdr.nVehicles == |entries|
    ensures var raw := EncodeNormal(hdr, entries) + trailer;
      Classify(raw) == Some(NormalProposal(raw)) <==>
        |entries| <= 10000 && !MistakableAt(raw, hdr, hdr.proposeSimTimeUs / 0x1_0000_0000)
  {
    var raw := EncodeNormal(hdr, entries) + trailer;
    NormalRoundTrip(hdr, entries, trailer);
    NormalContents(raw, hdr, entries, trailer);
    HdrFields(raw, 0, hdr);
    ProposeTimeByte(raw, hdr);
    GuardAtShift(raw, hdr, hdr.proposeSimTimeUs / 0x1_0000_0000);
  }

  lemma GuardAtShift(raw: bytes, hdr: ProposeHdr, shift: nat)
    requires |raw| >= 20 && U32(raw, 0) == hdr.epoch && U32(raw, 4) == AsUnsigned(hdr.leaderId)
    requires raw[8] == hdr.proposeSimTimeUs % 0x100 && U32(raw, 12) == shift
    ensures RollbackGuard(raw) <==> MistakableAt(raw, hdr, shift)
  {
    if shift + 36 <= |raw| {
      var inner := raw[shift + 16..];
      assert U32(inner, 0) == U32(raw, shift + 16) && U32(inner, 16) == U32(raw, shift + 32);
    }
  }

  /** Such a payload is handed to the voters as a rollback. */
  lemma MistakenOrder(hdr: ProposeHdr, entries: seq<VehicleEntry>, trailer: bytes)
    requires hdr.nVehicles == |entries| && entries != [] && hdr.proposeSimTimeUs < 0x1_0000_0000
    requires Mistakable(hdr, entries, trailer)
    ensures var p := Classify(EncodeNormal(hdr, entries) + trailer); p.Some? && p.value.RollbackProposal?
  {
    var raw := EncodeNormal(hdr, entries) + trailer;
    OrderMistakenForRollback(hdr, entries, trailer);
    if CancelPrefix(raw) { CancelIsNeverAnOrder(raw); }
  }

  /** For instance a one-vehicle order of leader 0 for epoch 1 with lane position 0. */
  lemma PositionZeroExample()
    ensures Mistakable(ProposeHdr(1, 0, 0x100, 1), [VehicleEntry(0, 1, 0, 0, 0, 0, 1, 0, 0)], [])
  {
  }
}
