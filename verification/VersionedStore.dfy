/** The two versioned key-value back ends, and when callers can tell them apart. */
module VersionedStore {
  import opened BridgeTypes

  type Item = (string, int)
  type History = seq<Item>

  // ---------------------------------------------------------------------------
  // Histories: what a key's list of (value, version) pairs means
  // ---------------------------------------------------------------------------

  /** The versions of a key are exactly 1, 2, ..., k, oldest first. */
  ghost predicate Numbered(h: History) {
    forall i :: 0 <= i < |h| ==> h[i].1 == i + 1
  }

  function HistoryOf(m: map<string, History>, key: string): History {
    if key in m then m[key] else []
  }

  ghost predicate Stored(m: map<string, History>) {
    forall key :: key in m ==> m[key] != [] && Numbered(m[key])
  }

  /** The item of a version, or the newest item when there is no such version. */
  function ReadVersion(h: History, version: int): Item {
    if |h| == 0 then ("", 0)
    else if 1 <= version <= |h| then h[version - 1]
    else h[|h| - 1]
  }

  /** Every item with a version in [lo, hi], newest first: a full filter. */
  function Between(h: History, lo: int, hi: int): History {
    if |h| == 0 then []
    else if lo <= h[|h| - 1].1 <= hi then [h[|h| - 1]] + Between(h[..|h| - 1], lo, hi)
    else Between(h[..|h| - 1], lo, hi)
  }

  /** The newest `n` items, newest first. */
  function Newest(h: History, n: nat): History {
    if |h| == 0 || n == 0 then []
    else [h[|h| - 1]] + Newest(h[..|h| - 1], n - 1)
  }

  /** `static_cast<size_t>` of a 32-bit count. */
  function AsSize(count: int32): nat {
    if count >= 0 then count else count + 0x1_0000_0000_0000_0000
  }

  lemma {:induction false} NothingBelow(h: History, lo: int, hi: int)
    requires forall i :: 0 <= i < |h| ==> h[i].1 < lo
    ensures Between(h, lo, hi) == []
  {
    if |h| > 0 {
      NothingBelow(h[..|h| - 1], lo, hi);
    }
  }

  lemma BetweenPeel(h: History, n: nat, lo: int, hi: int)
    requires 0 < n <= |h|
    ensures Between(h[..n], lo, hi)
            == if lo <= h[n - 1].1 <= hi then [h[n - 1]] + Between(h[..n - 1], lo, hi) else Between(h[..n - 1], lo, hi)
  {
    assert h[..n][..n - 1] == h[..n - 1];
  }

  lemma PushAssoc<T>(a: seq<T>, x: T, b: seq<T>)
    ensures (a + [x]) + b == a + ([x] + b)
  {
  }

  lemma NewestPeel(h: History, n: nat, count: nat)
    requires 0 < n <= |h| && 0 < count
    ensures Newest(h[..n], count) == [h[n - 1]] + Newest(h[..n - 1], count - 1)
  {
    assert h[..n][..n - 1] == h[..n - 1];
  }

  function Min(a: int, b: int): int { if a <= b then a else b }
  function Max(a: int, b: int): int { if a <= b then b else a }

  /** The range query returns a contiguous, reversed slice with nothing missing. */
  lemma {:induction false} BetweenIsSlice(h: History, lo: int, hi: int)
    requires Numbered(h)
    ensures |Between(h, lo, hi)| == Max(0, Min(hi, |h|) - Max(lo, 1) + 1)
    ensures forall i :: 0 <= i < |Between(h, lo, hi)| ==>
      0 <= Min(hi, |h|) - 1 - i < |h| && Between(h, lo, hi)[i] == h[Min(hi, |h|) - 1 - i]
  {
    if |h| > 0 {
      BetweenIsSlice(h[..|h| - 1], lo, hi);
    }
  }

  lemma {:induction false} NewestIsReversedTail(h: History, n: nat)
    ensures |Newest(h, n)| == Min(n, |h|)
    ensures forall i :: 0 <= i < |Newest(h, n)| ==> Newest(h, n)[i] == h[|h| - 1 - i]
  {
    if |h| > 0 && n > 0 {
      NewestIsReversedTail(h[..|h| - 1], n - 1);
    }
  }

  /** Asked for a version the key has, a reader gets that version; asked for any other, the newest,
      which is version k of 1..k. */
  lemma ReadVersionMeans(h: History, version: int)
    requires Numbered(h)
    ensures h == [] ==> ReadVersion(h, version) == ("", 0)
    ensures h != [] ==>
      ReadVersion(h, version) in h && ReadVersion(h, version).1 == if 1 <= version <= |h| then version else |h|
  {
  }

  // ---------------------------------------------------------------------------
  // MemoryDB
  // ---------------------------------------------------------------------------

  ghost predicate Ascending(h: History) {
    forall i, j :: 0 <= i <= j < |h| ==> h[i].1 <= h[j].1
  }

  function LastN<T>(s: seq<T>, n: nat): seq<T> {
    if |s| <= n then s else s[|s| - n..]
  }

  /** The newest item of a sequence number; number 0 asks for the newest of all. */
  function ReadSeq(h: History, number: int): Item {
    if |h| == 0 then ("", 0)
    else if h[|h| - 1].1 == number || number == 0 then h[|h| - 1]
    else ReadSeq(h[..|h| - 1], number)
  }

  /** A write is accepted when it names the version the key is at. */
  function MemPut(m: map<string, History>, key: string, value: string, version: int): (map<string, History>, int) {
    var h := HistoryOf(m, key);
    if |h| == version then (m[key := h + [(value, version + 1)]], 0) else (m, -2)
  }

  /** `GetTopHistory` of the in-memory store pushes before it looks at the limit. */
  function MemTop(h: History, count: int32): History {
    Newest(h, Max(1, AsSize(count)))
  }

  /** A sequenced write is accepted unless a later number is already stored. */
  predicate Admits(h: History, number: int) {
    h == [] || h[|h| - 1].1 <= number
  }

  lemma {:induction false} EarlierMeansAbsent(h: History, number: int)
    requires forall i :: 0 <= i < |h| ==> h[i].1 < number
    requires number != 0
    ensures ReadSeq(h, number) == ("", 0)
  {
    if |h| > 0 {
      EarlierMeansAbsent(h[..|h| - 1], number);
    }
  }

  /** The scan for a sequence number finds the newest item that has it, if there is one; number 0
      finds the newest item of all. */
  lemma {:induction false} ReadSeqFinds(h: History, number: int, i: nat)
    requires i < |h| && number != 0 && h[i].1 == number && forall j :: i < j < |h| ==> h[j].1 != number
    ensures ReadSeq(h, number) == h[i]
    ensures ReadSeq(h, 0) == h[|h| - 1]
  {
    if i < |h| - 1 { ReadSeqFinds(h[..|h| - 1], number, i); }
  }

  lemma {:induction false} ReadSeqMisses(h: History, number: int)
    requires number != 0 && forall i :: 0 <= i < |h| ==> h[i].1 != number
    ensures ReadSeq(h, number) == ("", 0)
  {
    if h != [] { ReadSeqMisses(h[..|h| - 1], number); }
  }

  /** On the list a store keeps, a sequenced write is rejected exactly if a later number is stored. */
  lemma AdmitsMeans(h: History, number: int)
    requires Ascending(h)
    ensures Admits(h, number) <==> forall i :: 0 <= i < |h| ==> h[i].1 <= number
  {
    if h != [] && h[|h| - 1].1 <= number {
      forall i | 0 <= i < |h| ensures h[i].1 <= number {
        assert h[i].1 <= h[|h| - 1].1;
      }
    }
  }

  lemma AscendingTail(h: History)
    requires h != [] && Ascending(h)
    ensures Ascending(h[1..])
  {
    forall i, j | 0 <= i <= j < |h| - 1 ensures h[1..][i].1 <= h[1..][j].1 {
      assert h[i + 1].1 <= h[j + 1].1;
    }
  }

  class MemoryDB {
    var versions: map<string, History>
    var recent: map<string, History>
    const maxHistory: nat

    ghost predicate Valid()
      reads this
    {
      && maxHistory > 0
      && Stored(versions)
      && (forall key :: key in recent ==> recent[key] != [] && Ascending(recent[key]))
    }

    constructor (limit: nat)
      requires limit > 0
      ensures Valid() && versions == map[] && recent == map[] && maxHistory == limit
    {
      versions, recent, maxHistory := map[], map[], limit;
    }

    method SetValueWithVersion(key: string, value: string, version: int) returns (code: int)
      requires Valid()
      modifies this`versions
      ensures Valid()
      ensures MemPut(old(versions), key, value, version) == (versions, code)
    {
      if (key !in versions && version != 0)
         || (key in versions && versions[key][|versions[key]| - 1].1 != version) {
        return -2;
      }
      versions := versions[key := HistoryOf(versions, key) + [(value, version + 1)]];
      return 0;
    }

    method GetValueWithVersion(key: string, version: int) returns (item: Item)
      requires Valid()
      ensures item == ReadVersion(HistoryOf(versions, key), version)
    {
      if key in versions && |versions[key]| > 0 {
        var h := versions[key];
        var i := |h|;
        while i != 0
          invariant 0 <= i <= |h|
          invariant forall j :: i <= j < |h| ==> h[j].1 > version
        {
          i := i - 1;
          if h[i].1 == version {
            return h[i];
          }
          if h[i].1 < version {
            break;
          }
        }
        return h[|h| - 1];
      }
      return ("", 0);
    }

    method GetHistory(key: string, minVersion: int, maxVersion: int) returns (resp: History)
      requires Valid()
      ensures resp == Between(HistoryOf(versions, key), minVersion, maxVersion)
    {
      resp := [];
      if key !in versions {
        return;
      }
      var h := versions[key];
      var i := |h|;
      assert h[..i] == h;
      while i != 0
        invariant 0 <= i <= |h|
        invariant resp + Between(h[..i], minVersion, maxVersion) == Between(h, minVersion, maxVersion)
      {
        BetweenPeel(h, i, minVersion, maxVersion);
        i := i - 1;
        if h[i].1 < minVersion {
          NothingBelow(h[..i + 1], minVersion, maxVersion);
          break;
        }
        if h[i].1 <= maxVersion {
          PushAssoc(resp, h[i], Between(h[..i], minVersion, maxVersion));
          resp := resp + [h[i]];
        }
      }
    }

    method GetTopHistory(key: string, count: int32) returns (resp: History)
      requires Valid()
      ensures resp == MemTop(HistoryOf(versions, key), count)
    {
      resp := [];
      if key !in versions {
        return;
      }
      var h := versions[key];
      ghost var limit := Max(1, AsSize(count));
      var i := |h|;
      assert h[..i] == h;
      while i != 0
        invariant 0 <= i <= |h|
        invariant i != 0 ==> |resp| < limit
        invariant resp + Newest(h[..i], Max(0, limit - |resp|)) == Newest(h, limit)
      {
        NewestPeel(h, i, limit - |resp|);
        i := i - 1;
        PushAssoc(resp, h[i], Newest(h[..i], limit - |resp| - 1));
        resp := resp + [h[i]];
        if |resp| >= AsSize(count) {
          break;
        }
      }
    }

    /** The loop that drops the oldest items over the limit. */
    method Trim(all: History) returns (h: History)
      requires maxHistory > 0 && all != [] && Ascending(all)
      ensures h == LastN(all, maxHistory) && h != [] && Ascending(h)
    {
      h := all;
      while |h| > maxHistory
        invariant h != [] && Ascending(h)
        invariant |h| >= Min(maxHistory, |all|) && |h| <= |all|
        invariant h == all[|all| - |h|..]
      {
        AscendingTail(h);
        h := h[1..];
      }
    }

    method SetValueWithSeq(key: string, value: string, number: int) returns (code: int)
      requires Valid()
      modifies this`recent
      ensures Valid()
      ensures code == 0 <==> Admits(HistoryOf(old(recent), key), number)
      ensures code == 0 ==>
        recent == old(recent)[key := ExtendBounded(HistoryOf(old(recent), key), (value, number), maxHistory)]
      ensures code != 0 ==> code == -2 && recent == old(recent)
    {
      if key in recent && recent[key][|recent[key]| - 1].1 > number {
        return -2;
      }
      var h := HistoryOf(recent, key) + [(value, number)];
      assert Ascending(h);
      h := Trim(h);
      recent := recent[key := h];
      return 0;
    }

    method GetValueWithSeq(key: string, number: int) returns (item: Item)
      requires Valid()
      ensures item == ReadSeq(HistoryOf(recent, key), number)
    {
      if key in recent && |recent[key]| > 0 {
        var h := recent[key];
        var i := |h|;
        assert h[..i] == h;
        while i != 0
          invariant 0 <= i <= |h|
          invariant ReadSeq(h[..i], number) == ReadSeq(h, number)
        {
          assert h[..i][..i - 1] == h[..i - 1];
          i := i - 1;
          if h[i].1 == number || number == 0 {
            return h[i];
          }
          if h[i].1 < number {
            EarlierMeansAbsent(h[..i + 1], number);
            break;
          }
        }
      }
      return ("", 0);
    }
  }

  function Extend(h: History, w: Item): History {
    if Admits(h, w.1) then h + [w] else h
  }

  function ExtendBounded(h: History, w: Item, limit: nat): History {
    if Admits(h, w.1) then LastN(h + [w], limit) else h
  }

  /** Sequenced writes to one key, on a log that never forgets. */
  function Log(writes: seq<Item>): History {
    if |writes| == 0 then [] else Extend(Log(writes[..|writes| - 1]), writes[|writes| - 1])
  }

  /** The same writes on the bounded list, which is cut after each accepted write. */
  function BoundedLog(writes: seq<Item>, limit: nat): History {
    if |writes| == 0 then []
    else ExtendBounded(BoundedLog(writes[..|writes| - 1], limit), writes[|writes| - 1], limit)
  }

  lemma CutOnceOrTwice(h: History, w: Item, limit: nat)
    requires limit > 0
    ensures ExtendBounded(LastN(h, limit), w, limit) == LastN(Extend(h, w), limit)
  {
    var t := LastN(h, limit);
    if |h| <= limit {
      assert t == h;
    } else {
      assert |t| == limit && t == h[|h| - limit..];
      assert LastN(t, limit) == t;
      assert (t + [w])[1..] == (h + [w])[|h| + 1 - limit..];
    }
  }

  /** Forgetting never changes which writes are accepted: the list is a window on the full log. */
  lemma {:induction false} BoundedLogIsWindow(writes: seq<Item>, limit: nat)
    requires limit > 0
    ensures BoundedLog(writes, limit) == LastN(Log(writes), limit)
  {
    if |writes| > 0 {
      var before := writes[..|writes| - 1];
      BoundedLogIsWindow(before, limit);
      CutOnceOrTwice(Log(before), writes[|writes| - 1], limit);
      assert writes[..|writes| - 1] == before;
    }
  }

  /** That is, the bounded list is the end of the full log, as far as the limit reaches. */
  lemma BoundedLogIsSuffix(writes: seq<Item>, limit: nat)
    requires limit > 0
    ensures |BoundedLog(writes, limit)| == Min(limit, |Log(writes)|)
    ensures BoundedLog(writes, limit) == Log(writes)[|Log(writes)| - |BoundedLog(writes, limit)|..]
  {
    BoundedLogIsWindow(writes, limit);
    LastItems(Log(writes), limit, BoundedLog(writes, limit));
  }

  lemma LastItems(s: History, n: nat, last: History)
    requires last == LastN(s, n)
    ensures |last| == Min(n, |s|) && last == s[|s| - |last|..]
  {
  }

  // ---------------------------------------------------------------------------
  // ResLevelDB: writes collect in a batch, reads see only the store
  // ---------------------------------------------------------------------------

  type Batch = seq<(string, History)>

  /** How big LevelDB reports a batch to be, and the size at which it is written. */
  datatype Config = Config(approximateSize: Batch -> nat, writeBatchSize: nat)

  datatype Level = Level(batch: Batch, store: map<string, History>)

  /** `DB::Write`: the puts of a batch, in order. */
  function Written(store: map<string, History>, batch: Batch): map<string, History> {
    if |batch| == 0 then store
    else Written(store, batch[..|batch| - 1])[batch[|batch| - 1].0 := batch[|batch| - 1].1]
  }

  ghost predicate Sound(s: Level) {
    && Stored(s.store)
    && (forall i :: 0 <= i < |s.batch| ==> s.batch[i].1 != [] && Numbered(s.batch[i].1))
  }

  ghost predicate Pending(s: Level, key: string) {
    exists i :: 0 <= i < |s.batch| && s.batch[i].0 == key
  }

  lemma {:induction false} WrittenIsStored(store: map<string, History>, batch: Batch)
    requires Sound(Level(batch, store))
    ensures Stored(Written(store, batch))
  {
    if |batch| > 0 {
      WrittenIsStored(store, batch[..|batch| - 1]);
    }
  }

  function LevelPut(c: Config, s: Level, key: string, h: History, writes: bool): (Level, int) {
    var batch := s.batch + [(key, h)];
    if c.approximateSize(batch) < c.writeBatchSize then (Level(batch, s.store), 0)
    else if writes then (Level([], Written(s.store, batch)), 0)
    else (Level(batch, s.store), -1)
  }

  /** The version check looks at the store alone, not at the batch. */
  function LevelPutVersion(c: Config, s: Level, key: string, value: string, version: int, writes: bool): (Level, int) {
    var h := HistoryOf(s.store, key);
    if |h| == version then LevelPut(c, s, key, h + [(value, version + 1)], writes) else (s, -2)
  }

  function LevelTop(h: History, count: int32): History {
    Newest(h, AsSize(count))
  }

  /** Whatever the batch size and the outcome of the disk write, a put is kept: the store with its
      batch applied is as before, with the key's new history.  Only a failed write is reported. */
  lemma PutIsKept(c: Config, s: Level, key: string, h: History, writes: bool)
    ensures var (after, code) := LevelPut(c, s, key, h, writes);
      && Written(after.store, after.batch) == Written(s.store, s.batch)[key := h]
      && code == (if !writes && c.approximateSize(s.batch + [(key, h)]) >= c.writeBatchSize then -1 else 0)
      && (after.store != s.store ==> after.batch == [])
  {
    assert (s.batch + [(key, h)])[..|s.batch|] == s.batch;
  }

  class ResLevelDB {
    var batch: Batch
    var store: map<string, History>
    const config: Config

    ghost predicate Valid()
      reads this
    {
      Sound(Level(batch, store))
    }

    constructor (config: Config)
      ensures Valid() && batch == [] && store == map[] && this.config == config
    {
      batch, store := [], map[];
      this.config := config;
    }

    /** `writes` is the outcome of `DB::Write`, should the call reach it. */
    method SetValue(key: string, h: History, writes: bool) returns (code: int)
      requires Valid() && h != [] && Numbered(h)
      modifies this
      ensures Valid()
      ensures LevelPut(config, old(Level(batch, store)), key, h, writes) == (Level(batch, store), code)
    {
      batch := batch + [(key, h)];
      if config.approximateSize(batch) >= config.writeBatchSize {
        if writes {
          WrittenIsStored(store, batch);
          store := Written(store, batch);
          batch := [];
          return 0;
        } else {
          return -1;
        }
      }
      return 0;
    }

    method Flush(writes: bool) returns (done: bool)
      requires Valid()
      modifies this
      ensures Valid()
      ensures done == writes
      ensures done ==> batch == [] && store == Written(old(store), old(batch))
      ensures !done ==> batch == old(batch) && store == old(store)
    {
      if writes {
        WrittenIsStored(store, batch);
        store := Written(store, batch);
        batch := [];
        return true;
      }
      return false;
    }

    method SetValueWithVersion(key: string, value: string, version: int, writes: bool) returns (code: int)
      requires Valid()
      modifies this
      ensures Valid()
      ensures LevelPutVersion(config, old(Level(batch, store)), key, value, version, writes)
              == (Level(batch, store), code)
    {
      var history := HistoryOf(store, key);
      var last := 0;
      if |history| > 0 {
        last := history[|history| - 1].1;
      }
      if last != version {
        return -2;
      }
      history := history + [(value, version + 1)];
      code := SetValue(key, history, writes);
    }

    method GetValueWithVersion(key: string, version: int) returns (item: Item)
      requires Valid()
      ensures item == ReadVersion(HistoryOf(store, key), version)
    {
      var history := HistoryOf(store, key);
      if |history| == 0 {
        return ("", 0);
      }
      if version > 0 {
        var i := |history| - 1;
        while i >= 0
          invariant -1 <= i < |history|
          invariant forall j :: i < j < |history| ==> history[j].1 > version
        {
          if history[i].1 == version {
            return history[i];
          }
          if history[i].1 < version {
            break;
          }
          i := i - 1;
        }
      }
      return history[|history| - 1];
    }

    method GetHistory(key: string, minVersion: int, maxVersion: int) returns (resp: History)
      requires Valid()
      ensures resp == Between(HistoryOf(store, key), minVersion, maxVersion)
    {
      resp := [];
      var h := HistoryOf(store, key);
      var i := |h| - 1;
      assert h[..i + 1] == h;
      while i >= 0
        invariant -1 <= i < |h|
        invariant resp + Between(h[..i + 1], minVersion, maxVersion) == Between(h, minVersion, maxVersion)
      {
        BetweenPeel(h, i + 1, minVersion, maxVersion);
        if h[i].1 < minVersion {
          NothingBelow(h[..i + 1], minVersion, maxVersion);
          break;
        }
        if h[i].1 <= maxVersion {
          PushAssoc(resp, h[i], Between(h[..i], minVersion, maxVersion));
          resp := resp + [h[i]];
        }
        i := i - 1;
      }
    }

    method GetTopHistory(key: string, count: int32) returns (resp: History)
      requires Valid()
      ensures resp == LevelTop(HistoryOf(store, key), count)
    {
      resp := [];
      var h := HistoryOf(store, key);
      var i := |h| - 1;
      ghost var limit := AsSize(count);
      ghost var rest := Newest(h, limit);
      assert h[..i + 1] == h;
      while i >= 0 && |resp| < AsSize(count)
        invariant -1 <= i < |h| && |resp| <= limit
        invariant rest == Newest(h[..i + 1], limit - |resp|)
        invariant resp + rest == Newest(h, limit)
      {
        NewestPeel(h, i + 1, limit - |resp|);
        rest := Newest(h[..i], limit - |resp| - 1);
        PushAssoc(resp, h[i], rest);
        resp := resp + [h[i]];
        i := i - 1;
      }
      assert rest == [];
    }
  }

  // ---------------------------------------------------------------------------
  // Runs of both stores, side by side
  // ---------------------------------------------------------------------------

  datatype Op =
    | Put(key: string, value: string, version: int)
    | Get(key: string, version: int)
    | Range(key: string, minVersion: int, maxVersion: int)
    | Top(key: string, count: int32)

  datatype Answer = Code(code: int) | One(item: Item) | Many(items: History)

  function MemNext(m: map<string, History>, op: Op): map<string, History> {
    if op.Put? then MemPut(m, op.key, op.value, op.version).0 else m
  }

  function MemAnswer(m: map<string, History>, op: Op): Answer {
    match op
    case Put(key, value, version) => Code(MemPut(m, key, value, version).1)
    case Get(key, version) => One(ReadVersion(HistoryOf(m, key), version))
    case Range(key, lo, hi) => Many(Between(HistoryOf(m, key), lo, hi))
    case Top(key, count) => Many(MemTop(HistoryOf(m, key), count))
  }

  function LevelNext(c: Config, s: Level, op: Op, writes: bool): Level {
    if op.Put? then LevelPutVersion(c, s, op.key, op.value, op.version, writes).0 else s
  }

  function LevelAnswer(c: Config, s: Level, op: Op, writes: bool): Answer {
    match op
    case Put(key, value, version) => Code(LevelPutVersion(c, s, key, value, version, writes).1)
    case Get(key, version) => One(ReadVersion(HistoryOf(s.store, key), version))
    case Range(key, lo, hi) => Many(Between(HistoryOf(s.store, key), lo, hi))
    case Top(key, count) => Many(LevelTop(HistoryOf(s.store, key), count))
  }

  function MemRun(m: map<string, History>, ops: seq<Op>): map<string, History> {
    if |ops| == 0 then m else MemNext(MemRun(m, ops[..|ops| - 1]), ops[|ops| - 1])
  }

  /** `writes(i)` is the outcome of the disk write of step `i`, should it attempt one. */
  function LevelRun(c: Config, s: Level, ops: seq<Op>, writes: nat -> bool): Level {
    if |ops| == 0 then s
    else LevelNext(c, LevelRun(c, s, ops[..|ops| - 1], writes), ops[|ops| - 1], writes(|ops| - 1))
  }

  predicate Always(step: nat) { true }

  const EMPTY: Level := Level([], map[])

  // ---------------------------------------------------------------------------
  // Invariants of every run
  // ---------------------------------------------------------------------------

  /** Whatever is asked of it, the in-memory store numbers each key's versions 1..k. */
  lemma {:induction false} MemoryVersionsAreContiguous(ops: seq<Op>)
    ensures Stored(MemRun(map[], ops))
  {
    if |ops| > 0 {
      MemoryVersionsAreContiguous(ops[..|ops| - 1]);
    }
  }

  lemma LevelStepSound(c: Config, s: Level, op: Op, writes: bool)
    requires Sound(s)
    ensures Sound(LevelNext(c, s, op, writes))
  {
    if op.Put? && |HistoryOf(s.store, op.key)| == op.version {
      var h := HistoryOf(s.store, op.key) + [(op.value, op.version + 1)];
      WrittenIsStored(s.store, s.batch + [(op.key, h)]);
    }
  }

  /** So does LevelDB, for every batch size and every pattern of failing disk writes. */
  lemma {:induction false} LevelVersionsAreContiguous(c: Config, ops: seq<Op>, writes: nat -> bool)
    ensures Sound(LevelRun(c, EMPTY, ops, writes))
  {
    if |ops| > 0 {
      LevelVersionsAreContiguous(c, ops[..|ops| - 1], writes);
      LevelStepSound(c, LevelRun(c, EMPTY, ops[..|ops| - 1], writes), ops[|ops| - 1], writes(|ops| - 1));
    }
  }

  // ---------------------------------------------------------------------------
  // Simulation
  // ---------------------------------------------------------------------------

  lemma {:induction false} NewestStops(h: History, n: nat)
    requires n >= |h|
    ensures Newest(h, n) == Newest(h, |h|)
  {
    if |h| > 0 { NewestStops(h[..|h| - 1], n - 1); }
  }

  /** What the counts of the two top-history loops mean: all items for a negative one, and for 0
      one item in memory and none in LevelDB. */
  lemma TopMeans(h: History, count: int32)
    requires |h| < 0x8000_0000
    ensures LevelTop(h, count) == Newest(h, if count < 0 then |h| else count)
    ensures MemTop(h, count) == Newest(h, if count < 0 then |h| else if count == 0 then 1 else count)
  {
    if count < 0 { NewestStops(h, AsSize(count)); }
  }

  /** LevelDB's store with its batch applied holds what the in-memory store holds. */
  ghost predicate Simulates(m: map<string, History>, s: Level) {
    m == Written(s.store, s.batch)
  }

  lemma {:induction false} NotPendingIsStored(s: Level, key: string)
    requires !Pending(s, key)
    ensures HistoryOf(Written(s.store, s.batch), key) == HistoryOf(s.store, key)
    decreases |s.batch|
  {
    if |s.batch| > 0 {
      NotPendingIsStored(Level(s.batch[..|s.batch| - 1], s.store), key);
    }
  }

  /** The two top-history loops differ on a count of zero, and on nothing else. */
  lemma TopDiffersOnlyAtZero(h: History, count: int32)
    ensures MemTop(h, count) == LevelTop(h, count) <==> count != 0 || h == []
  {
    if count == 0 && h != [] {
      assert |Newest(h, 1)| == 1;
    }
  }

  /** For instance on a key written once. */
  lemma TopZeroExample(c: Config, m: map<string, History>, writes: bool)
    requires m == map["k" := [("v", 1)]]
    ensures MemAnswer(m, Top("k", 0)) == Many([("v", 1)])
    ensures LevelAnswer(c, Level([], m), Top("k", 0), writes) == Many([])
  {
    assert Newest([("v", 1)], 1) == [("v", 1)];
  }

  lemma PutAgrees(c: Config, m: map<string, History>, s: Level, key: string, value: string, version: int)
    requires Simulates(m, s) && HistoryOf(m, key) == HistoryOf(s.store, key)
    ensures var op := Put(key, value, version);
      MemAnswer(m, op) == LevelAnswer(c, s, op, true) && Simulates(MemNext(m, op), LevelNext(c, s, op, true))
  {
    PutIsKept(c, s, key, HistoryOf(s.store, key) + [(value, version + 1)], true);
  }

  /** One step on a key with no pending write: same answer, and the stores still correspond. */
  lemma StepAgrees(c: Config, m: map<string, History>, s: Level, op: Op)
    requires Simulates(m, s) && !Pending(s, op.key)
    requires op.Top? ==> op.count != 0
    ensures MemAnswer(m, op) == LevelAnswer(c, s, op, true)
    ensures Simulates(MemNext(m, op), LevelNext(c, s, op, true))
  {
    NotPendingIsStored(s, op.key);
    match op
    case Put(key, value, version) =>
      PutAgrees(c, m, s, key, value, version);
    case Top(key, count) =>
      TopDiffersOnlyAtZero(HistoryOf(m, key), count);
    case _ =>
  }

  ghost predicate AsksForSome(ops: seq<Op>) {
    forall i :: 0 <= i < |ops| && ops[i].Top? ==> ops[i].count != 0
  }

  /** No step addresses a key whose latest write still sits in the batch. */
  ghost predicate NeverTouchesPending(c: Config, ops: seq<Op>) {
    forall i :: 0 <= i < |ops| ==> !Pending(LevelRun(c, EMPTY, ops[..i], Always), ops[i].key)
  }

  ghost predicate SameAnswers(c: Config, ops: seq<Op>) {
    forall i :: 0 <= i < |ops| ==>
      MemAnswer(MemRun(map[], ops[..i]), ops[i])
      == LevelAnswer(c, LevelRun(c, EMPTY, ops[..i], Always), ops[i], true)
  }

  lemma PrefixesOfPrefix(c: Config, ops: seq<Op>)
    requires |ops| > 0 && NeverTouchesPending(c, ops)
    ensures NeverTouchesPending(c, ops[..|ops| - 1])
  {
    var before := ops[..|ops| - 1];
    forall i | 0 <= i < |before|
      ensures !Pending(LevelRun(c, EMPTY, before[..i], Always), before[i].key)
    {
      assert before[..i] == ops[..i];
    }
  }

  lemma OneMoreAnswer(c: Config, ops: seq<Op>)
    requires |ops| > 0 && SameAnswers(c, ops[..|ops| - 1])
    requires MemAnswer(MemRun(map[], ops[..|ops| - 1]), ops[|ops| - 1])
             == LevelAnswer(c, LevelRun(c, EMPTY, ops[..|ops| - 1], Always), ops[|ops| - 1], true)
    ensures SameAnswers(c, ops)
  {
    var before := ops[..|ops| - 1];
    forall i | 0 <= i < |ops|
      ensures MemAnswer(MemRun(map[], ops[..i]), ops[i])
              == LevelAnswer(c, LevelRun(c, EMPTY, ops[..i], Always), ops[i], true)
    {
      if i < |before| {
        assert before[..i] == ops[..i] && before[i] == ops[i];
      }
    }
  }

  /** Batching is invisible to a run that never touches a key with a pending write. */
  lemma {:induction false} SettledRunsAgree(c: Config, ops: seq<Op>)
    requires AsksForSome(ops) && NeverTouchesPending(c, ops)
    ensures SameAnswers(c, ops)
    ensures Simulates(MemRun(map[], ops), LevelRun(c, EMPTY, ops, Always))
  {
    if |ops| > 0 {
      var before := ops[..|ops| - 1];
      PrefixesOfPrefix(c, ops);
      SettledRunsAgree(c, before);
      StepAgrees(c, MemRun(map[], before), LevelRun(c, EMPTY, before, Always), ops[|ops| - 1]);
      OneMoreAnswer(c, ops);
    }
  }

  /** A single put of a well-formed history always reaches the write threshold. */
  ghost predicate FlushesEachWrite(c: Config) {
    forall key: string, h: History :: h != [] && Numbered(h) ==> Flushes(c, key, h)
  }

  predicate Flushes(c: Config, key: string, h: History) {
    c.approximateSize([(key, h)]) >= c.writeBatchSize
  }

  /** A flushed put at the current version appends to the stored history. */
  lemma FlushedPut(c: Config, s: Level, key: string, value: string)
    requires FlushesEachWrite(c) && Sound(s) && s.batch == []
    ensures var h := HistoryOf(s.store, key) + [(value, |HistoryOf(s.store, key)| + 1)];
      LevelPutVersion(c, s, key, value, |HistoryOf(s.store, key)|, true) == (Level([], s.store[key := h]), 0)
  {
    var h := HistoryOf(s.store, key) + [(value, |HistoryOf(s.store, key)| + 1)];
    assert Flushes(c, key, h);
    assert s.batch + [(key, h)] == [(key, h)];
    WrittenOnce(s.store, key, h);
  }

  lemma WrittenOnce(store: map<string, History>, key: string, h: History)
    ensures Written(store, [(key, h)]) == store[key := h]
  {
    assert [(key, h)][..0] == [];
  }

  lemma {:induction false} FlushedBatchStaysEmpty(c: Config, ops: seq<Op>)
    requires FlushesEachWrite(c)
    ensures LevelRun(c, EMPTY, ops, Always).batch == []
  {
    if |ops| > 0 {
      var before := ops[..|ops| - 1];
      FlushedBatchStaysEmpty(c, before);
      LevelVersionsAreContiguous(c, before, Always);
      var s := LevelRun(c, EMPTY, before, Always);
      var op := ops[|ops| - 1];
      if op.Put? && |HistoryOf(s.store, op.key)| == op.version {
        FlushedPut(c, s, op.key, op.value);
      }
    }
  }

  /** The writes that build a history, one version at a time. */
  function Building(key: string, h: History): seq<Op> {
    seq(|h|, i requires 0 <= i < |h| => Put(key, h[i].0, i))
  }

  /** The shortest prefix whose put is left in the batch. */
  lemma {:induction false} FirstUnflushed(c: Config, key: string, h: History) returns (n: nat)
    requires h != [] && !Flushes(c, key, h)
    ensures 1 <= n <= |h| && !Flushes(c, key, h[..n])
    ensures forall k :: 1 <= k < n ==> Flushes(c, key, h[..k])
  {
    n := 1;
    assert h[..|h|] == h;
    while n < |h| && Flushes(c, key, h[..n])
      invariant 1 <= n <= |h|
      invariant forall k :: 1 <= k < n ==> Flushes(c, key, h[..k])
    {
      n := n + 1;
    }
  }

  lemma BuildingPrefix(key: string, h: History, n: nat)
    requires 0 < n <= |h|
    ensures Building(key, h[..n])[..n - 1] == Building(key, h[..n - 1])
    ensures Building(key, h[..n])[n - 1] == Put(key, h[n - 1].0, n - 1)
  {
  }

  /** Both stores after building a prefix whose every put was flushed. */
  lemma {:induction false} BuiltAndFlushed(c: Config, key: string, h: History, n: nat)
    requires n <= |h| && Numbered(h)
    requires forall k :: 1 <= k <= n ==> Flushes(c, key, h[..k])
    ensures LevelRun(c, EMPTY, Building(key, h[..n]), Always).batch == []
    ensures HistoryOf(LevelRun(c, EMPTY, Building(key, h[..n]), Always).store, key) == h[..n]
    ensures HistoryOf(MemRun(map[], Building(key, h[..n])), key) == h[..n]
    decreases n
  {
    if n > 0 {
      BuiltAndFlushed(c, key, h, n - 1);
      BuildingPrefix(key, h, n);
      BuiltStep(c, key, h, n);
      assert Flushes(c, key, h[..n]);
    }
  }

  lemma BuiltStep(c: Config, key: string, h: History, n: nat)
    requires 0 < n <= |h| && Numbered(h)
    ensures h[..n - 1] + [(h[n - 1].0, n)] == h[..n]
    ensures Written(map[], [(key, h[..n])]) == map[key := h[..n]]
    ensures forall store: map<string, History> {:trigger Written(store, [(key, h[..n])])} ::
      Written(store, [(key, h[..n])]) == store[key := h[..n]]
    ensures [] + [(key, h[..n])] == [(key, h[..n])]
  {
    assert h[n - 1] == (h[n - 1].0, n);
  }

  /** A run that writes a key and reads it back, and so sees the stale store. */
  lemma StaleRead(c: Config, key: string, h: History, n: nat)
    requires 1 <= n <= |h| && Numbered(h) && !Flushes(c, key, h[..n])
    requires forall k :: 1 <= k < n ==> Flushes(c, key, h[..k])
    ensures AsksForSome(Building(key, h[..n]) + [Get(key, n)])
    ensures !SameAnswers(c, Building(key, h[..n]) + [Get(key, n)])
  {
    var build := Building(key, h[..n]);
    var ops := build + [Get(key, n)];
    BuiltAndFlushed(c, key, h, n - 1);
    BuildingPrefix(key, h, n);
    BuiltStep(c, key, h, n);
    assert ops[..n] == build && ops[n] == Get(key, n);
    var s := LevelRun(c, EMPTY, build, Always);
    assert HistoryOf(s.store, key) == h[..n - 1];
    assert HistoryOf(MemRun(map[], build), key) == h[..n];
    assert LevelAnswer(c, s, ops[n], true).item.1 == n - 1;
    assert MemAnswer(MemRun(map[], build), ops[n]).item.1 == n;
  }

  /**
   * The back ends are interchangeable, on every run that never asks for zero
   * items, exactly when no single write is ever left waiting in the batch.
   */
  lemma InterchangeableIffFlushed(c: Config)
    ensures (forall ops: seq<Op> :: AsksForSome(ops) ==> SameAnswers(c, ops)) <==> FlushesEachWrite(c)
  {
    if FlushesEachWrite(c) {
      forall ops: seq<Op> | AsksForSome(ops)
        ensures SameAnswers(c, ops)
      {
        forall i | 0 <= i < |ops|
          ensures !Pending(LevelRun(c, EMPTY, ops[..i], Always), ops[i].key)
        {
          FlushedBatchStaysEmpty(c, ops[..i]);
        }
        SettledRunsAgree(c, ops);
      }
    } else {
      var key: string, h: History :| h != [] && Numbered(h) && !Flushes(c, key, h);
      var n := FirstUnflushed(c, key, h);
      StaleRead(c, key, h, n);
    }
  }

  // ---------------------------------------------------------------------------
  // One writer per version
  // ---------------------------------------------------------------------------

  /** Two puts to one key at one version. */
  predicate Compete(a: Op, b: Op) {
    a.Put? && b.Put? && a.key == b.key && a.version == b.version
  }

  ghost predicate Succeeds(c: Config, ops: seq<Op>, i: nat)
    requires i < |ops|
  {
    LevelAnswer(c, LevelRun(c, EMPTY, ops[..i], Always), ops[i], true) == Code(0)
  }

  /** On this run no version of a key is written successfully twice. */
  ghost predicate OneWriterPerVersion(c: Config, ops: seq<Op>) {
    forall i, j :: 0 <= i < j < |ops| && Compete(ops[i], ops[j]) ==>
      !(Succeeds(c, ops, i) && Succeeds(c, ops, j))
  }

  /** What a step does to the stored histories when every write is flushed. */
  lemma FlushedStep(c: Config, s: Level, op: Op, key: string)
    requires FlushesEachWrite(c) && Sound(s) && s.batch == []
    ensures |HistoryOf(LevelNext(c, s, op, true).store, key)| >= |HistoryOf(s.store, key)|
    ensures op.Put? && LevelAnswer(c, s, op, true) == Code(0) ==>
      |HistoryOf(s.store, op.key)| == op.version
      && |HistoryOf(LevelNext(c, s, op, true).store, op.key)| == op.version + 1
  {
    if op.Put? && |HistoryOf(s.store, op.key)| == op.version {
      FlushedPut(c, s, op.key, op.value);
    }
  }

  lemma {:induction false} HistoriesGrow(c: Config, ops: seq<Op>, i: nat, key: string)
    requires FlushesEachWrite(c) && i <= |ops|
    ensures |HistoryOf(LevelRun(c, EMPTY, ops[..i], Always).store, key)|
      <= |HistoryOf(LevelRun(c, EMPTY, ops, Always).store, key)|
  {
    if i == |ops| {
      assert ops[..i] == ops;
    } else {
      var before := ops[..|ops| - 1];
      assert before[..i] == ops[..i];
      HistoriesGrow(c, before, i, key);
      FlushedBatchStaysEmpty(c, before);
      LevelVersionsAreContiguous(c, before, Always);
      FlushedStep(c, LevelRun(c, EMPTY, before, Always), ops[|ops| - 1], key);
    }
  }

  /** With every write flushed, the first successful put moves the key past its version. */
  lemma FlushedWritersExclude(c: Config, ops: seq<Op>, i: nat, j: nat)
    requires FlushesEachWrite(c) && i < j < |ops| && Compete(ops[i], ops[j])
    ensures !(Succeeds(c, ops, i) && Succeeds(c, ops, j))
  {
    if Succeeds(c, ops, i) && Succeeds(c, ops, j) {
      FlushedAt(c, ops, i);
      FlushedAt(c, ops, j);
      assert ops[..j][..i + 1] == ops[..i + 1];
      HistoriesGrow(c, ops[..j], i + 1, ops[i].key);
    }
  }

  lemma FlushedAt(c: Config, ops: seq<Op>, i: nat)
    requires FlushesEachWrite(c) && i < |ops| && ops[i].Put? && Succeeds(c, ops, i)
    ensures |HistoryOf(LevelRun(c, EMPTY, ops[..i], Always).store, ops[i].key)| == ops[i].version
    ensures |HistoryOf(LevelRun(c, EMPTY, ops[..i + 1], Always).store, ops[i].key)| == ops[i].version + 1
  {
    FlushedBatchStaysEmpty(c, ops[..i]);
    LevelVersionsAreContiguous(c, ops[..i], Always);
    FlushedStep(c, LevelRun(c, EMPTY, ops[..i], Always), ops[i], ops[i].key);
    assert ops[..i + 1][..i] == ops[..i];
  }

  lemma PutSucceeds(c: Config, s: Level, key: string, value: string, version: int)
    requires |HistoryOf(s.store, key)| == version
    ensures LevelAnswer(c, s, Put(key, value, version), true) == Code(0)
  {
  }

  /** A run on which two writers at one version both succeed. */
  lemma DoubleWrite(c: Config, key: string, h: History, n: nat, value: string) returns (ops: seq<Op>)
    requires 1 <= n <= |h| && Numbered(h) && !Flushes(c, key, h[..n])
    requires forall k :: 1 <= k < n ==> Flushes(c, key, h[..k])
    ensures !OneWriterPerVersion(c, ops)
  {
    var build := Building(key, h[..n]);
    var again := Put(key, value, n - 1);
    ops := build + [again];
    BuiltAndFlushed(c, key, h, n - 1);
    BuildingPrefix(key, h, n);
    BuiltStep(c, key, h, n);
    assert ops[..n - 1] == Building(key, h[..n - 1]) && ops[n - 1] == Put(key, h[n - 1].0, n - 1);
    assert ops[..n] == build && ops[n] == again;
    assert HistoryOf(LevelRun(c, EMPTY, build, Always).store, key) == h[..n - 1];
    PutSucceeds(c, LevelRun(c, EMPTY, ops[..n - 1], Always), key, h[n - 1].0, n - 1);
    PutSucceeds(c, LevelRun(c, EMPTY, ops[..n], Always), key, value, n - 1);
    assert Compete(ops[n - 1], ops[n]) && Succeeds(c, ops, n - 1) && Succeeds(c, ops, n);
  }

  /** The version check admits one writer per version, on every run, exactly when no single
      write is ever left waiting in the batch. */
  lemma OneWriterIffFlushed(c: Config)
    ensures (forall ops: seq<Op> :: OneWriterPerVersion(c, ops)) <==> FlushesEachWrite(c)
  {
    if FlushesEachWrite(c) {
      forall ops: seq<Op>, i, j | 0 <= i < j < |ops| && Compete(ops[i], ops[j])
        ensures !(Succeeds(c, ops, i) && Succeeds(c, ops, j))
      {
        FlushedWritersExclude(c, ops, i, j);
      }
    } else {
      var key: string, h: History :| h != [] && Numbered(h) && !Flushes(c, key, h);
      var n := FirstUnflushed(c, key, h);
      var ops := DoubleWrite(c, key, h, n, "");
    }
  }

  /** Two writers at one version: without a flush between them, both are accepted and one is lost. */
  lemma LostUpdate(c: Config, key: string, first: string, second: string)
    requires !Flushes(c, key, [(first, 1)])
    ensures var s := LevelNext(c, EMPTY, Put(key, first, 0), true);
      && LevelAnswer(c, EMPTY, Put(key, first, 0), true) == Code(0)
      && LevelAnswer(c, s, Put(key, second, 0), true) == Code(0)
      && HistoryOf(Written(LevelNext(c, s, Put(key, second, 0), true).store,
                           LevelNext(c, s, Put(key, second, 0), true).batch), key) == [(second, 1)]
      && MemAnswer(MemNext(map[], Put(key, first, 0)), Put(key, second, 0)) == Code(-2)
  {
    var one := (key, [(first, 1)]);
    var two := (key, [(second, 1)]);
    assert [] + [(first, 1)] == [(first, 1)] && [] + [(second, 1)] == [(second, 1)];
    assert [] + [one] == [one];
    var s := LevelNext(c, EMPTY, Put(key, first, 0), true);
    assert s == Level([one], map[]);
    assert ([one] + [two])[..1] == [one];
  }
}
