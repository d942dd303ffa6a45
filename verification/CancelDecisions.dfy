/** What the executor hands to the application for a decided cancel. */
module CancelDecisions {
  import opened BridgeTypes
  import opened WireFormat

  const CANCEL_MAGIC: uint32 := 0xCACE_C0DE
  const CANCEL_DECISION_SIZE: nat := 52
  const DIGEST_SIZE: nat := 32

  type Digest = d: bytes | |d| == DIGEST_SIZE witness seq(DIGEST_SIZE, _ => 0)

  datatype CancelDecision = CancelDecision(cancelledEpoch: uint32, reason: byte, cancelSeq: uint64,
      payloadDigest: Digest)

  /** The digest field: the hash cut or padded with zeros to 32 bytes. */
  function DigestOf(hash: bytes): Digest {
    if |hash| >= DIGEST_SIZE then hash[..DIGEST_SIZE] else hash + seq(DIGEST_SIZE - |hash|, _ => 0)
  }

  /** A hash of 32 bytes is kept, a longer one is cut, and zeros follow a shorter one. */
  lemma DigestBytes(hash: bytes)
    ensures |DigestOf(hash)| == 32 && (|hash| == 32 ==> DigestOf(hash) == hash)
    ensures DigestOf(hash) <= hash || hash <= DigestOf(hash)
    ensures forall i :: |hash| <= i < 32 ==> DigestOf(hash)[i] == 0
  {
  }

  function Pow256(n: nat): nat {
    if n == 0 then 1 else 0x100 * Pow256(n - 1)
  }

  /** The first `n` bytes as a big-endian number. */
  function BigEndian(d: bytes, n: nat): (r: nat)
    requires n <= |d|
    ensures r < Pow256(n)
  {
    if n == 0 then 0 else 0x100 * BigEndian(d, n - 1) + d[n - 1]
  }

  /** The number determines the bytes it was read from. */
  lemma {:induction false} BigEndianInjective(d: bytes, e: bytes, n: nat)
    requires n <= |d| && n <= |e| && BigEndian(d, n) == BigEndian(e, n)
    ensures d[..n] == e[..n]
  {
    if n > 0 {
      var x, y := BigEndian(d, n - 1), BigEndian(e, n - 1);
      assert 0x100 * (x - y) == e[n - 1] as int - d[n - 1] as int;
      BigEndianInjective(d, e, n - 1);
      assert d[..n] == d[..n - 1] + [d[n - 1]] && e[..n] == e[..n - 1] + [e[n - 1]];
    }
  }

  /** The sequence number of a cancel: eight digest bytes shifted together in 64 bits. */
  method CancelSeq(d: Digest) returns (cancelSeq: uint64)
    ensures cancelSeq == BigEndian(d, 8)
  {
    cancelSeq := 0;
    for i := 0 to 8
      invariant cancelSeq == BigEndian(d, i)
    {
      PowBelow(i);
      cancelSeq := cancelSeq * 0x100 % 0x1_0000_0000_0000_0000 + d[i];
    }
  }

  lemma PowBelow(i: nat)
    requires i < 8
    ensures Pow256(i) <= 0x100_0000_0000_0000
  {
    assert Pow256(0) == 1 && Pow256(1) == 0x100 && Pow256(2) == 0x1_0000 && Pow256(3) == 0x100_0000;
    assert Pow256(4) == 0x1_0000_0000 && Pow256(5) == 0x100_0000_0000 && Pow256(6) == 0x1_0000_0000_0000;
    assert Pow256(7) == 0x100_0000_0000_0000;
  }

  /** The first digest byte is the most significant of the sequence number. */
  lemma CancelSeqBytes(d: Digest)
    ensures BigEndian(d, 8) == 0x100_0000_0000_0000 * (d[0] as int) + 0x1_0000_0000_0000 * (d[1] as int)
      + 0x100_0000_0000 * (d[2] as int) + 0x1_0000_0000 * (d[3] as int) + 0x100_0000 * (d[4] as int)
      + 0x1_0000 * (d[5] as int) + 0x100 * (d[6] as int) + (d[7] as int)
  {
    assert BigEndian(d, 2) == 0x100 * (d[0] as int) + (d[1] as int) by { TwoBytes(d, 0); }
    TwoBytes(d, 2);
    TwoBytes(d, 4);
    TwoBytes(d, 6);
  }

  lemma TwoBytes(d: bytes, n: nat)
    requires n + 2 <= |d|
    ensures BigEndian(d, n + 2) == 0x1_0000 * BigEndian(d, n) + 0x100 * (d[n] as int) + (d[n + 1] as int)
  {
    assert BigEndian(d, n + 1) == 0x100 * BigEndian(d, n) + (d[n] as int);
  }

  ghost function EncodeCancelDecision(c: CancelDecision): bytes {
    LE32(CANCEL_MAGIC) + LE32(c.cancelledEpoch) + [c.reason, 0, 0, 0] + LE64(c.cancelSeq) + c.payloadDigest
  }

  method EmitCancelDecision(c: CancelDecision) returns (out: bytes)
    ensures out == EncodeCancelDecision(c)
  {
    var magic := PutWord(CANCEL_MAGIC);
    var epoch := PutWord(c.cancelledEpoch);
    var low := PutWord(c.cancelSeq % 0x1_0000_0000);
    var high := PutWord(c.cancelSeq / 0x1_0000_0000);
    out := magic + epoch + [c.reason, 0, 0, 0] + (low + high) + c.payloadDigest;
  }

  /** The application's test for a cancel decision among the bytes it is handed. */
  predicate LooksLikeCancelDecision(s: bytes) {
    |s| >= CANCEL_DECISION_SIZE && U32(s, 0) == CANCEL_MAGIC
  }

  function DecodeCancelDecision(s: bytes): Option<CancelDecision> {
    if LooksLikeCancelDecision(s) then Some(CancelDecision(U32(s, 4), s[8], U64(s, 12), s[20..52])) else None
  }

  /** Where the application finds the fields. */
  lemma CancelDecisionBytes(s: bytes, c: CancelDecision)
    ensures DecodeCancelDecision(s) == Some(c) <==>
      && |s| >= 52 && U32(s, 0) == 0xCACE_C0DE && c.cancelledEpoch == U32(s, 4) && c.reason == s[8]
      && c.cancelSeq == U64(s, 12) && c.payloadDigest == s[20..52]
  {
  }

  /** The application recovers epoch, reason, sequence number and digest. */
  lemma CancelDecisionRoundTrip(c: CancelDecision)
    ensures DecodeCancelDecision(EncodeCancelDecision(c)) == Some(c)
  {
    var s := EncodeCancelDecision(c);
    var pad := [c.reason, 0, 0, 0];
    assert At(s, 0, s);
    AtConcat(s, 0, LE32(CANCEL_MAGIC) + LE32(c.cancelledEpoch) + pad + LE64(c.cancelSeq), c.payloadDigest);
    AtConcat4(s, 0, LE32(CANCEL_MAGIC), LE32(c.cancelledEpoch), pad, LE64(c.cancelSeq));
    ReadLE32(s, 0, CANCEL_MAGIC);
    ReadLE32(s, 4, c.cancelledEpoch);
    ReadLE64(s, 12, c.cancelSeq);
    assert s[8..12][0] == pad[0];
  }

  /** An order is taken for a cancel decision exactly when its epoch is the magic number and
      it is long enough. */
  lemma OrderTakenForCancel(o: OrderDecision, trailer: bytes)
    requires |o.decisions| < 0x1_0000_0000
    ensures LooksLikeCancelDecision(EncodeOrder(o) + trailer) <==>
      o.epoch == CANCEL_MAGIC && ORDER_HDR_SIZE + DECISION_SIZE * |o.decisions| + |trailer| >= CANCEL_DECISION_SIZE
  {
    OrderRoundTrip(o, trailer);
    var s := EncodeOrder(o) + trailer;
    assert |EncodeOrder(o)| == ORDER_HDR_SIZE + DECISION_SIZE * |o.decisions|;
  }
}
