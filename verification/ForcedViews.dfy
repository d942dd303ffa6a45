/** Forced PBFT views, and the registry that binds them to requests. */
module ForcedViews {
  import opened BridgeTypes
  import opened Sorting
  import opened Quorum

  datatype ForcedView = ForcedView(
    epoch: uint32,
    seqNo: uint64,
    requestHash: string,
    primary: int32,
    members: seq<int>,
    fOverride: bool,
    f: int,
    quorum: int)

  datatype ViewKey = ViewKey(epoch: uint32, seqNo: uint64, hash: string)

  /** Everything the registry holds. */
  datatype Registry = Registry(
    views: map<ViewKey, ForcedView>,
    pending: map<string, ForcedView>,
    latest: Option<ForcedView>)

  predicate IntLE(a: int, b: int) { a <= b }

  lemma IntLEIsOrder()
    ensures TotalPreorder(IntLE)
  {
  }

  /** `std::sort` on integers. */
  function SortInts(s: seq<int>): seq<int> {
    Sort(s, IntLE)
  }

  /** `std::unique` followed by `erase`: drop repeats of the previous element. */
  function Unique(s: seq<int>): seq<int> {
    if |s| <= 1 then s
    else if s[|s| - 1] == s[|s| - 2] then Unique(s[..|s| - 1])
    else Unique(s[..|s| - 1]) + [s[|s| - 1]]
  }

  predicate StrictlySorted(s: seq<int>) {
    forall i, j :: 0 <= i < j < |s| ==> s[i] < s[j]
  }

  lemma {:induction false} UniqueKeeps(s: seq<int>)
    requires StrictlySorted(s)
    ensures Unique(s) == s
  {
    if |s| > 1 {
      UniqueKeeps(s[..|s| - 1]);
      assert s == s[..|s| - 1] + [s[|s| - 1]];
    }
  }

  lemma SortKeeps(s: seq<int>)
    requires StrictlySorted(s)
    ensures SortInts(s) == s
  {
    IntLEIsOrder();
    SortIsSortedPermutation(s, IntLE);
    assert NoTies(SortInts(s), IntLE) by {
      forall i, j | 0 <= i < |SortInts(s)| && 0 <= j < |SortInts(s)| &&
          IntLE(SortInts(s)[i], SortInts(s)[j]) && IntLE(SortInts(s)[j], SortInts(s)[i])
        ensures SortInts(s)[i] == SortInts(s)[j] {}
    }
    assert SortedBy(s, IntLE) by {
      forall i, j | 0 <= i < j < |s| ensures IntLE(s[i], s[j]) {}
    }
    SortedPermutationUnique(SortInts(s), s, IntLE);
  }

  lemma {:induction false} UniqueSorted(s: seq<int>)
    requires SortedBy(s, IntLE)
    ensures StrictlySorted(Unique(s)) && forall m :: m in Unique(s) <==> m in s
    ensures s != [] ==> Unique(s) != [] && Unique(s)[|Unique(s)| - 1] == s[|s| - 1]
  {
    if |s| > 1 {
      var t := s[..|s| - 1];
      assert s == t + [s[|s| - 1]];
      UniqueSorted(t);
      assert IntLE(s[|s| - 2], s[|s| - 1]);
    }
  }

  lemma {:induction false} SizeOfSorted(members: seq<int>)
    requires StrictlySorted(members)
    ensures |set m | m in members| == |members|
  {
    if members != [] {
      var n := |members| - 1;
      SizeOfSorted(members[..n]);
      assert members == members[..n] + [members[n]];
      assert (set m | m in members) == (set m | m in members[..n]) + {members[n]};
      assert members[n] !in members[..n];
    }
  }

  // ----- normalisation

  /** None where the quorum computation throws. */
  function Normalize(v: ForcedView): Option<ForcedView> {
    var members := Unique(SortInts(v.members));
    var n := |members|;
    var f := if v.fOverride then v.f else if n > 0 then (n - 1) / 3 else 0;
    var quorum := BftQuorumSize(n, f);
    if quorum.None? then None else Some(v.(members := members, f := f, quorum := quorum.value))
  }

  /** Each member once, in increasing order. */
  lemma NormalizedMembers(members: seq<int>)
    ensures var w := Unique(SortInts(members));
      && (forall i, j :: 0 <= i < j < |w| ==> w[i] < w[j]) && (forall m :: m in w <==> m in members)
      && |w| == |set m | m in members|
  {
    var sorted := SortInts(members);
    IntLEIsOrder();
    SortIsSortedPermutation(members, IntLE);
    SameElements(sorted, members);
    UniqueSorted(sorted);
    SizeOfSorted(Unique(sorted));
    assert (set m | m in Unique(sorted)) == set m | m in members;
  }

  /** Normalising lists each member once, in increasing order, settles `f` and sizes the quorum: the
      least number of votes of which any two sets share more than `f`.  It throws exactly when the
      members do not support `f`. */
  lemma NormalizeMeans(v: ForcedView)
    ensures var n := |set m | m in v.members|;
      var f := if v.fOverride then v.f else if n > 0 then (n - 1) / 3 else 0;
      && (Normalize(v).Some? <==> n == 0 || (f >= 0 && n >= 3 * f + 1))
      && (Normalize(v).Some? ==>
            var w := Normalize(v).value;
            && w == v.(members := w.members, f := f, quorum := w.quorum)
            && (forall i, j :: 0 <= i < j < |w.members| ==> w.members[i] < w.members[j])
            && (forall m :: m in w.members <==> m in v.members)
            && (if n == 0 then w.quorum == 0 else 2 * w.quorum - n > f && 2 * (w.quorum - 1) - n <= f))
  {
    NormalizedMembers(v.members);
  }

  /** What the builders guarantee about a candidate. */
  predicate Candidate(v: ForcedView, expected: int) {
    && StrictlySorted(v.members)
    && (forall m :: m in v.members ==> 0 <= m < expected)
    && v.primary in v.members
    && (v.fOverride ==> 0 <= v.f <= (|v.members| - 1) / 3)
  }

  /** A view voters can run PBFT on. */
  predicate WellFormed(v: ForcedView, expected: int) {
    && StrictlySorted(v.members)
    && (forall m :: m in v.members ==> 0 <= m < expected)
    && v.primary in v.members
    && BftQuorumSize(|v.members|, v.f) == Some(v.quorum)
  }

  /** Candidates survive normalisation unchanged but for `f` and `quorum`; it never throws on them. */
  lemma CandidateNormalizes(v: ForcedView, expected: int)
    requires Candidate(v, expected)
    ensures Normalize(v).Some? && WellFormed(Normalize(v).value, expected)
    ensures Normalize(v).value == v.(f := Normalize(v).value.f, quorum := Normalize(v).value.quorum)
    ensures v.fOverride ==> Normalize(v).value.f == v.f
  {
    SortKeeps(v.members);
    UniqueKeeps(v.members);
  }

  // ----- what the registry operations do to its contents

  function PendingInstalled(r: Registry, v: ForcedView): Registry {
    r.(pending := r.pending[v.requestHash := v], latest := Some(v))
  }

  function Bound(v: ForcedView, seqNo: uint64, hash: string): ForcedView {
    v.(seqNo := seqNo, requestHash := hash)
  }

  /** A request without a hash, or one already bound to other members, is refused. */
  predicate MayBind(r: Registry, v: ForcedView, hash: string) {
    hash != "" &&
    var key := ViewKey(v.epoch, v.seqNo, hash);
    key in r.views ==> r.views[key].members == v.members
  }

  function RequestInstalled(r: Registry, v: ForcedView): Registry {
    Registry(r.views[ViewKey(v.epoch, v.seqNo, v.requestHash) := v], r.pending[v.requestHash := v], Some(v))
  }

  predicate Matches(k: ViewKey, seqNo: uint64, hash: string) {
    k.seqNo == seqNo && k.hash == hash
  }

  /** The lookup promotes a pending view to the request's sequence number. */
  function AfterLookup(r: Registry, seqNo: uint64, hash: string): Registry {
    if hash == "" || (exists k :: k in r.views && Matches(k, seqNo, hash)) || hash !in r.pending || seqNo == 0 then r
    else
      var v := r.pending[hash].(seqNo := seqNo);
      r.(views := r.views[ViewKey(v.epoch, seqNo, v.requestHash) := v], latest := Some(v))
  }

  /** Some view is bound to the sequence number and hash. */
  ghost predicate Settled(r: Registry, seqNo: uint64, hash: string) {
    hash != "" && exists k :: k in r.views && Matches(k, seqNo, hash)
  }

  lemma {:induction false} LeastEpochFrom(keys: set<ViewKey>, seqNo: uint64, hash: string, k: ViewKey)
    returns (m: ViewKey)
    requires k in keys && Matches(k, seqNo, hash)
    ensures m in keys && Matches(m, seqNo, hash)
    ensures forall k2 :: k2 in keys && Matches(k2, seqNo, hash) ==> m.epoch <= k2.epoch
    decreases k.epoch
  {
    m := k;
    if exists k2 :: k2 in keys && Matches(k2, seqNo, hash) && k2.epoch < k.epoch {
      var k2 :| k2 in keys && Matches(k2, seqNo, hash) && k2.epoch < k.epoch;
      m := LeastEpochFrom(keys, seqNo, hash, k2);
    }
  }

  /** The key of least epoch for a sequence number and hash. */
  ghost function LeastKey(r: Registry, seqNo: uint64, hash: string): (k: ViewKey)
    requires Settled(r, seqNo, hash)
    ensures k in r.views && Matches(k, seqNo, hash)
    ensures forall k2 :: k2 in r.views && Matches(k2, seqNo, hash) ==> k.epoch <= k2.epoch
  {
    LeastKeyExists(r, seqNo, hash);
    var k :| k in r.views && Matches(k, seqNo, hash)
      && (forall k2 :: k2 in r.views && Matches(k2, seqNo, hash) ==> k.epoch <= k2.epoch);
    k
  }

  lemma LeastKeyExists(r: Registry, seqNo: uint64, hash: string)
    requires Settled(r, seqNo, hash)
    ensures exists k :: (k in r.views && Matches(k, seqNo, hash)
      && (forall k2 :: k2 in r.views && Matches(k2, seqNo, hash) ==> k.epoch <= k2.epoch))
  {
    var some :| some in r.views && Matches(some, seqNo, hash);
    var least := LeastEpochFrom(r.views.Keys, seqNo, hash, some);
  }

  /** The view whose members may vote on a request, and whose quorum decides it: among the
      views bound to the sequence number and hash the one of least epoch, else the pending one. */
  ghost function InForce(r: Registry, seqNo: uint64, hash: string): Option<ForcedView> {
    if hash == "" then None
    else if Settled(r, seqNo, hash) then Some(r.views[LeastKey(r, seqNo, hash)])
    else if hash !in r.pending then None
    else Some(if seqNo == 0 then r.pending[hash] else r.pending[hash].(seqNo := seqNo))
  }

  /** What is in force, on the registry's maps: the view of least epoch bound to the sequence number
      and hash, and only if there is none the view pending under the hash, as for this number. */
  lemma InForceMeans(r: Registry, seqNo: uint64, hash: string, v: ForcedView)
    ensures InForce(r, seqNo, hash) == Some(v) <==>
      && hash != ""
      && ((exists epoch :: ViewKey(epoch, seqNo, hash) in r.views && r.views[ViewKey(epoch, seqNo, hash)] == v
             && forall other :: ViewKey(other, seqNo, hash) in r.views ==> epoch <= other)
          || (hash in r.pending && (forall epoch :: ViewKey(epoch, seqNo, hash) !in r.views)
              && v == if seqNo == 0 then r.pending[hash] else r.pending[hash].(seqNo := seqNo)))
  {
    forall epoch | ViewKey(epoch, seqNo, hash) in r.views ensures Matches(ViewKey(epoch, seqNo, hash), seqNo, hash) {}
    if Settled(r, seqNo, hash) {
      var k := LeastKey(r, seqNo, hash);
      assert k == ViewKey(k.epoch, seqNo, hash);
    }
  }

  datatype Install = Installed | Refused | Threw

  class ForcedViewRegistry {
    var views: map<ViewKey, ForcedView>
    var pending: map<string, ForcedView>
    var latest: Option<ForcedView>

    constructor ()
      ensures Contents() == Registry(map[], map[], None)
    {
      views, pending, latest := map[], map[], None;
    }

    function Contents(): Registry
      reads this
    {
      Registry(views, pending, latest)
    }

    method InstallPending(view: ForcedView) returns (r: Install)
      modifies this
      ensures Normalize(view).None? ==> r == Threw && Contents() == old(Contents())
      ensures Normalize(view).Some? ==>
        r == Installed && Contents() == PendingInstalled(old(Contents()), Normalize(view).value)
    {
      var normalized := Normalize(view);
      if normalized.None? { return Threw; }
      pending := pending[normalized.value.requestHash := normalized.value];
      latest := normalized;
      return Installed;
    }

    method InstallForRequest(seqNo: uint64, hash: string, view: ForcedView) returns (r: Install)
      modifies this
      ensures r != Installed ==> Contents() == old(Contents())
      ensures r == Installed <==>
        hash != "" && Normalize(view).Some? && MayBind(old(Contents()), Bound(Normalize(view).value, seqNo, hash), hash)
      ensures r == Threw <==> hash != "" && Normalize(view).None?
      ensures r == Installed ==>
        Contents() == RequestInstalled(old(Contents()), Bound(Normalize(view).value, seqNo, hash))
    {
      if hash == "" { return Refused; }
      var n := Normalize(view);
      if n.None? { return Threw; }
      var normalized := n.value.(seqNo := seqNo, requestHash := hash);
      var key := ViewKey(normalized.epoch, normalized.seqNo, normalized.requestHash);
      if key in views && views[key].members != normalized.members { return Refused; }
      views := views[key := normalized];
      pending := pending[normalized.requestHash := normalized];
      latest := Some(normalized);
      return Installed;
    }

    /** The scan in key order finds the matching view of the least epoch; otherwise a
        pending view for the hash is returned, bound to the sequence number if there is one. */
    method FindForRequest(seqNo: uint64, hash: string) returns (r: Option<ForcedView>)
      modifies this
      ensures Contents() == AfterLookup(old(Contents()), seqNo, hash)
      ensures r == InForce(old(Contents()), seqNo, hash)
    {
      if hash == "" { return None; }
      if exists k :: k in views && Matches(k, seqNo, hash) {
        LeastKeyExists(Contents(), seqNo, hash);
        var k :| k in views && Matches(k, seqNo, hash) &&
          (forall k2 :: k2 in views && Matches(k2, seqNo, hash) ==> k.epoch <= k2.epoch);
        return Some(views[k]);
      }
      if hash !in pending { return None; }
      var view := pending[hash];
      if seqNo != 0 {
        view := view.(seqNo := seqNo);
        views := views[ViewKey(view.epoch, view.seqNo, view.requestHash) := view];
        latest := Some(view);
      }
      return Some(view);
    }
  }
}
