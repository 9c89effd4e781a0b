/** The capsule lists of the two tree views: normalising the list response,
    and the locked/unlocked tally of the personal tree. */
module CapsuleLists {
  import opened Wrappers
  import opened LockClock
  import opened Grouping
  import opened Capsules

  /** The shapes `GET /api/capsules` may answer with: nothing, a flat array
      of capsules of both types, or an object with per-type arrays (each of
      which may be missing). */
  datatype ListPayload =
    | Missing
    | FlatList(items: seq<Capsule>)
    | Partitioned(personal: Option<seq<Capsule>>, collaborative: Option<seq<Capsule>>)

  function OfKind(xs: seq<Capsule>, kind: string): seq<Capsule> {
    Filter(xs, (c: Capsule) => c.kind == kind)
  }

  /** Filtering by type keeps exactly the capsules of that type. */
  lemma OfKindExact(xs: seq<Capsule>, kind: string)
    ensures forall c :: c in OfKind(xs, kind) ==> c in xs && c.kind == kind
    ensures forall c :: c in xs && c.kind == kind ==> c in OfKind(xs, kind)
  {
    FilterCounts(xs, (c: Capsule) => c.kind == kind);
  }

  /** The list the personal tree stores, or `None` when reading the response
      throws (then the previous list stays). A present `personal` array is
      taken as it is, even when empty; otherwise the response must be an
      array, and its personal capsules are kept. */
  function PersonalList(p: ListPayload): (r: Option<seq<Capsule>>)
    ensures p.Partitioned? && p.personal.Some? ==> r == p.personal
    ensures p.FlatList? ==> r == Some(OfKind(p.items, "personal"))
    ensures r.None? <==> p.Missing? || (p.Partitioned? && p.personal.None?)
  {
    match p
    case Missing => None
    case FlatList(xs) => Some(OfKind(xs, "personal"))
    case Partitioned(personal, _) => personal
  }

  /** The list the collaborative tree stores. A missing response gives the
      empty list; an object without a `collaborative` array throws, because
      `filter` is then not a function (`None`, the list stays). */
  function CollaborativeList(p: ListPayload): (r: Option<seq<Capsule>>)
    ensures p.Missing? ==> r == Some([])
    ensures p.Partitioned? && p.collaborative.Some? ==> r == p.collaborative
    ensures p.FlatList? ==> r == Some(OfKind(p.items, "collaborative"))
    ensures r.None? <==> p.Partitioned? && p.collaborative.None?
  {
    match p
    case Missing => Some([])
    case FlatList(xs) => Some(OfKind(xs, "collaborative"))
    case Partitioned(_, collaborative) => collaborative
  }

  /** From a flat array the two trees take disjoint lists that together hold
      every capsule of either type. */
  lemma FlatListSplitsByKind(xs: seq<Capsule>)
    ensures PersonalList(FlatList(xs)).Some? && CollaborativeList(FlatList(xs)).Some?
    ensures forall c :: c in PersonalList(FlatList(xs)).value ==> c !in CollaborativeList(FlatList(xs)).value
    ensures forall c :: c in xs && (c.kind == "personal" || c.kind == "collaborative") ==>
              c in PersonalList(FlatList(xs)).value || c in CollaborativeList(FlatList(xs)).value
  {
    OfKindExact(xs, "personal");
    OfKindExact(xs, "collaborative");
  }

  function LockedAt(now: Instant): Capsule -> bool {
    (c: Capsule) => IsLocked(c.lockDate, now)
  }

  /** A capsule paired with the instant the clock read when it was tested. */
  datatype Sampled = Sampled(capsule: Capsule, now: Instant)

  /** Each capsule with its own clock reading. */
  function Zip(caps: seq<Capsule>, nows: seq<Instant>): (r: seq<Sampled>)
    requires |nows| == |caps|
    ensures |r| == |caps|
    ensures forall i :: 0 <= i < |r| ==> r[i] == Sampled(caps[i], nows[i])
  {
    seq(|caps|, i requires 0 <= i < |caps| => Sampled(caps[i], nows[i]))
  }

  predicate SampledLocked(s: Sampled) {
    IsLocked(s.capsule.lockDate, s.now)
  }

  predicate SampledUnlocked(s: Sampled) {
    !IsLocked(s.capsule.lockDate, s.now)
  }

  /** The summary counts of the personal tree, accumulated as its `forEach`
      does. Each test reads the clock afresh (`new Date()` per capsule), so
      capsule `i` is tested against its own reading `nows[i]`: every capsule
      is counted once, as locked exactly when its lock date lies after that
      reading. */
  method CountLockStates(caps: seq<Capsule>, nows: seq<Instant>) returns (locked: nat, unlocked: nat)
    requires |nows| == |caps|
    ensures locked + unlocked == |caps|
    ensures locked == |Filter(Zip(caps, nows), SampledLocked)|
    ensures unlocked == |Filter(Zip(caps, nows), SampledUnlocked)|
  {
    var zs := Zip(caps, nows);
    locked, unlocked := 0, 0;
    var i := 0;
    while i < |caps|
      invariant i <= |caps|
      invariant locked + unlocked == i
      invariant locked == |Filter(zs[..i], SampledLocked)|
      invariant unlocked == |Filter(zs[..i], SampledUnlocked)|
    {
      FilterPrefix(zs, i, SampledLocked);
      FilterPrefix(zs, i, SampledUnlocked);
      if IsLocked(caps[i].lockDate, nows[i]) {
        locked := locked + 1;
      } else {
        unlocked := unlocked + 1;
      }
      i := i + 1;
    }
    assert zs[..i] == zs;
  }

  /** Readings taken between `lo` and `hi` count no more capsules as locked
      than a single reading at `lo` would, and no fewer than one at `hi`:
      a lock date crossed during the pass makes the only difference. */
  lemma {:induction false} LockedCountBetween(caps: seq<Capsule>, nows: seq<Instant>, lo: Instant, hi: Instant)
    requires |nows| == |caps|
    requires forall i :: 0 <= i < |nows| ==> lo <= nows[i] <= hi
    ensures |Filter(caps, LockedAt(hi))| <= |Filter(Zip(caps, nows), SampledLocked)| <= |Filter(caps, LockedAt(lo))|
    decreases |caps|
  {
    var n := |caps|;
    if n > 0 {
      var c := caps[n - 1];
      assert Zip(caps, nows)[..n - 1] == Zip(caps[..n - 1], nows[..n - 1]);
      LockedCountBetween(caps[..n - 1], nows[..n - 1], lo, hi);
      assert IsLocked(c.lockDate, hi) ==> IsLocked(c.lockDate, nows[n - 1]) ==> IsLocked(c.lockDate, lo);
    }
  }

  /** With a single reading for the whole pass the counts are the capsules
      locked and unlocked at that instant. */
  lemma {:induction false} OneReading(caps: seq<Capsule>, nows: seq<Instant>, now: Instant)
    requires |nows| == |caps|
    requires forall i :: 0 <= i < |nows| ==> nows[i] == now
    ensures |Filter(Zip(caps, nows), SampledLocked)| == |Filter(caps, LockedAt(now))|
  {
    LockedCountBetween(caps, nows, now, now);
  }
}
