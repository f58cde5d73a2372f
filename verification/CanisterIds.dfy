/** Canister ids as principals: the eight bytes of a number, a reserved byte and the id class. */
module CanisterIds {
  import opened Primitives

  type Byte = b: nat | b < 256
  type RawPrincipal = seq<Byte>

  // Principals accepted by the conversion: ten bytes, the last of them the opaque id class. The
  // reserved ninth byte is not looked at.
  type CanisterPrincipal = p: RawPrincipal | |p| == 10 && p[9] == 1
    witness [0, 0, 0, 0, 0, 0, 0, 0, 1, 1]

  function TryFromPrincipal(p: RawPrincipal): Option<CanisterPrincipal> {
    if |p| == 10 && p[9] == 1 then Some(p) else None
  }

  function Power256(k: nat): nat {
    if k == 0 then 1 else 256 * Power256(k - 1)
  }

  // Big-endian bytes.
  function ToBytes(n: nat, length: nat): (bs: seq<Byte>)
    ensures |bs| == length
  {
    if length == 0 then [] else ToBytes(n / 256, length - 1) + [n % 256]
  }

  function FromBytes(bs: seq<Byte>): nat {
    if bs == [] then 0 else 256 * FromBytes(bs[..|bs| - 1]) + bs[|bs| - 1]
  }

  function FromU64(n: nat): CanisterPrincipal
    requires n <= U64_MAX
  {
    ToBytes(n, 8) + [1, 1]
  }

  function ToU64(id: CanisterPrincipal): nat {
    FromBytes(id[..8])
  }

  // The ids that the number-to-id conversion produces.
  predicate Canonical(id: CanisterPrincipal) {
    id[8] == 1
  }

  lemma {:induction false} BytesOfNumber(n: nat, length: nat)
    requires n < Power256(length)
    ensures FromBytes(ToBytes(n, length)) == n
  {
    if length > 0 {
      BytesOfNumber(n / 256, length - 1);
      assert ToBytes(n, length)[..length - 1] == ToBytes(n / 256, length - 1);
    }
  }

  lemma {:induction false} NumberOfBytes(bs: seq<Byte>)
    ensures FromBytes(bs) < Power256(|bs|)
    ensures ToBytes(FromBytes(bs), |bs|) == bs
  {
    if bs != [] {
      NumberOfBytes(bs[..|bs| - 1]);
      assert FromBytes(bs) / 256 == FromBytes(bs[..|bs| - 1]);
    }
  }

  lemma EightBytes()
    ensures Power256(8) == U64_MAX + 1
  {
    assert Power256(2) == 65_536;
    assert Power256(4) == 4_294_967_296;
    assert Power256(6) == 281_474_976_710_656;
  }

  lemma ToU64Bounded(id: CanisterPrincipal)
    ensures ToU64(id) <= U64_MAX
  {
    NumberOfBytes(id[..8]);
    EightBytes();
  }

  // Number to id and back is the identity.
  lemma NumberRoundTrip(n: nat)
    requires n <= U64_MAX
    ensures ToU64(FromU64(n)) == n && Canonical(FromU64(n))
  {
    EightBytes();
    BytesOfNumber(n, 8);
    assert FromU64(n)[..8] == ToBytes(n, 8);
  }

  // Id to number and back is the identity exactly on canonical ids.
  lemma IdRoundTrip(id: CanisterPrincipal)
    ensures ToU64(id) <= U64_MAX
    ensures FromU64(ToU64(id)) == id <==> Canonical(id)
  {
    ToU64Bounded(id);
    NumberOfBytes(id[..8]);
    assert id == id[..8] + [id[8], id[9]];
    assert FromU64(ToU64(id))[8] == 1;
  }

  // Principals of one length compare byte by byte.
  predicate BytesLess(a: seq<Byte>, b: seq<Byte>) {
    |a| > 0 && |b| > 0 && (a[0] < b[0] || (a[0] == b[0] && BytesLess(a[1..], b[1..])))
  }

  lemma {:induction false} FirstByteWeighs(bs: seq<Byte>)
    requires |bs| > 0
    ensures FromBytes(bs) == bs[0] * Power256(|bs| - 1) + FromBytes(bs[1..])
  {
    if |bs| == 1 {
      assert bs[..0] == [] && bs[1..] == [];
    } else {
      var init := bs[..|bs| - 1];
      FirstByteWeighs(init);
      assert bs[1..][..|bs| - 2] == init[1..];
      assert Power256(|bs| - 1) == 256 * Power256(|bs| - 2);
    }
  }

  // Byte order is number order.
  lemma {:induction false} BytesOrder(a: seq<Byte>, b: seq<Byte>)
    requires |a| == |b|
    ensures BytesLess(a, b) <==> FromBytes(a) < FromBytes(b)
  {
    if a != [] {
      BytesOrder(a[1..], b[1..]);
      FirstByteWeighs(a);
      FirstByteWeighs(b);
      NumberOfBytes(a[1..]);
      NumberOfBytes(b[1..]);
      FirstDecides(a[0], b[0], FromBytes(a[1..]), FromBytes(b[1..]), Power256(|a| - 1));
    }
  }

  lemma FirstDecides(x: nat, y: nat, r: nat, s: nat, w: nat)
    requires r < w && s < w
    ensures x < y ==> x * w + r < y * w + s
    ensures y < x ==> y * w + s < x * w + r
  {
    if x < y {
      Multiples(x, y, w);
    } else if y < x {
      Multiples(y, x, w);
    }
  }

  lemma Multiples(x: nat, y: nat, w: nat)
    requires x < y
    ensures x * w + w <= y * w
  {
    assert (x + 1) * w <= y * w;
  }

  lemma {:induction false} PrefixOrder(a: seq<Byte>, b: seq<Byte>, tail: seq<Byte>)
    requires |a| == |b|
    ensures BytesLess(a + tail, b + tail) <==> BytesLess(a, b)
  {
    if a == [] {
      assert a + tail == tail && b + tail == tail;
      Irreflexive(tail);
    } else {
      assert (a + tail)[1..] == a[1..] + tail && (b + tail)[1..] == b[1..] + tail;
      PrefixOrder(a[1..], b[1..], tail);
    }
  }

  lemma {:induction false} Irreflexive(a: seq<Byte>)
    ensures !BytesLess(a, a)
  {
    if a != [] {
      Irreflexive(a[1..]);
    }
  }

  // Canonical ids are ordered as principals exactly as their numbers are.
  lemma CanonicalOrder(a: CanisterPrincipal, b: CanisterPrincipal)
    requires Canonical(a) && Canonical(b)
    ensures BytesLess(a, b) <==> ToU64(a) < ToU64(b)
  {
    assert a == a[..8] + [1, 1] && b == b[..8] + [1, 1];
    PrefixOrder(a[..8], b[..8], [1, 1]);
    BytesOrder(a[..8], b[..8]);
  }
}

/** Ranges of canister ids: compressing live ids into ranges, and expanding ranges in batches. */
module CanisterIdRanges {
  import opened Primitives
  import opened CanisterIds

  const MAX_CALLS_PER_BATCH: nat := 490

  // What an iterator in this state still yields.
  function Items(current: CanisterPrincipal, end: CanisterPrincipal, finished: bool): seq<CanisterPrincipal>
    decreases if finished then 0 else 1 + SaturatingSub(U64_MAX, ToU64(current))
  {
    if finished then []
    else if current == end || ToU64(current) >= U64_MAX then [current]
    else
      NumberRoundTrip(ToU64(current) + 1);
      [current] + Items(FromU64(ToU64(current) + 1), end, false)
  }

  class CanisterIdRange {
    var current: CanisterPrincipal
    var end: CanisterPrincipal
    var finished: bool

    ghost function Rest(): seq<CanisterPrincipal>
      reads this
    {
      Items(current, end, finished)
    }

    constructor (start: CanisterPrincipal, end: CanisterPrincipal)
      ensures Rest() == Items(start, end, false)
    {
      this.current, this.end, this.finished := start, end, false;
    }

    method Next() returns (r: Option<CanisterPrincipal>)
      modifies this
      ensures old(Rest()) == [] ==> r == None && Rest() == []
      ensures old(Rest()) != [] ==> r == Some(old(Rest())[0]) && Rest() == old(Rest())[1..]
    {
      if finished {
        return None;
      }
      if current == end {
        finished := true;
        return Some(current);
      }
      var n := ToU64(current);
      ToU64Bounded(current);
      if n + 1 > U64_MAX {
        finished := true;
        return Some(current);
      }
      r := Some(current);
      current := FromU64(n + 1);
    }

    // `by_ref().take(n).collect()`.
    method Take(n: nat) returns (batch: seq<CanisterPrincipal>)
      modifies this
      ensures batch + Rest() == old(Rest())
      ensures |batch| == Min(n, |old(Rest())|)
    {
      hide Items;
      batch := [];
      while |batch| < n
        invariant batch + Rest() == old(Rest()) && |batch| <= n
        decreases n - |batch|
      {
        var next := Next();
        if next.None? {
          return;
        }
        batch := batch + [next.value];
      }
    }
  }

  function Span(lo: nat, hi: nat): seq<nat>
    decreases hi + 1 - lo
  {
    if lo > hi then [] else [lo] + Span(lo + 1, hi)
  }

  function Numbers(ids: seq<CanisterPrincipal>): (ns: seq<nat>)
    ensures |ns| == |ids| && forall i :: 0 <= i < |ids| ==> ns[i] == ToU64(ids[i])
  {
    seq(|ids|, i requires 0 <= i < |ids| => ToU64(ids[i]))
  }

  ghost predicate Increasing(ns: seq<nat>) {
    forall i, j :: 0 <= i < j < |ns| ==> ns[i] < ns[j]
  }

  lemma {:induction false} SpanElements(lo: nat, hi: nat)
    ensures |Span(lo, hi)| == if lo > hi then 0 else hi + 1 - lo
    ensures forall i :: 0 <= i < |Span(lo, hi)| ==> Span(lo, hi)[i] == lo + i
    decreases hi + 1 - lo
  {
    if lo <= hi {
      SpanElements(lo + 1, hi);
    }
  }

  // The last number an iterator reaches: its end when that end is a canonical id further on, and
  // otherwise the largest number there is.
  function LastNumber(current: CanisterPrincipal, end: CanisterPrincipal): nat {
    if current == end then ToU64(current)
    else if Canonical(end) && ToU64(current) < ToU64(end) then ToU64(end)
    else U64_MAX
  }

  // Every iterator terminates, and yields consecutive numbers from its start to `LastNumber`;
  // after the first id all are canonical.
  lemma {:induction false} ItemsAreSpan(current: CanisterPrincipal, end: CanisterPrincipal)
    ensures Numbers(Items(current, end, false)) == Span(ToU64(current), LastNumber(current, end))
    ensures forall i :: 1 <= i < |Items(current, end, false)| ==> Canonical(Items(current, end, false)[i])
    ensures |Items(current, end, false)| >= 1 && Items(current, end, false)[0] == current
    decreases SaturatingSub(U64_MAX, ToU64(current))
  {
    ToU64Bounded(current);
    ToU64Bounded(end);
    IdRoundTrip(end);
    var items := Items(current, end, false);
    if current == end || ToU64(current) >= U64_MAX {
      assert Span(ToU64(current), ToU64(current)) == [ToU64(current)] + Span(ToU64(current) + 1, ToU64(current));
      assert Numbers(items) == [ToU64(current)];
    } else {
      var next := FromU64(ToU64(current) + 1);
      NumberRoundTrip(ToU64(current) + 1);
      ItemsAreSpan(next, end);
      assert items == [current] + Items(next, end, false);
      assert Numbers(items) == [ToU64(current)] + Numbers(Items(next, end, false));
      assert LastNumber(next, end) == LastNumber(current, end);
    }
  }

  // The iterator covers exactly the numbers from start to end when it starts at its end, or when
  // the end is a canonical id beyond the start; in every other case it runs on to the maximum.
  lemma RangeStopsAtEndIff(start: CanisterPrincipal, end: CanisterPrincipal)
    ensures end in Items(start, end, false) <==> start == end || (Canonical(end) && ToU64(start) < ToU64(end))
  {
    ItemsAreSpan(start, end);
    ToU64Bounded(end);
    var items := Items(start, end, false);
    SpanElements(ToU64(start), LastNumber(start, end));
    if Canonical(end) && ToU64(start) < ToU64(end) {
      var k := ToU64(end) - ToU64(start);
      IdRoundTrip(items[k]);
      IdRoundTrip(end);
      assert Numbers(items)[k] == ToU64(end);
    } else if start != end {
      forall k | 0 <= k < |items| ensures items[k] != end {
        assert Numbers(items)[k] == ToU64(start) + k;
      }
    }
  }

  // No id is yielded twice, so the calls of a batch concern different canisters.
  lemma ItemsDistinct(start: CanisterPrincipal, end: CanisterPrincipal)
    ensures NoDuplicates(Items(start, end, false)) && Increasing(Numbers(Items(start, end, false)))
  {
    ItemsAreSpan(start, end);
    SpanElements(ToU64(start), LastNumber(start, end));
    var items := Items(start, end, false);
    forall i, j | 0 <= i < j < |items| ensures items[i] != items[j] {
      assert Numbers(items)[i] != Numbers(items)[j];
    }
  }

  datatype Range = Range(start: CanisterPrincipal, end: CanisterPrincipal)

  function Expand(ranges: seq<Range>): seq<CanisterPrincipal> {
    if ranges == [] then []
    else Expand(ranges[..|ranges| - 1]) + Items(ranges[|ranges| - 1].start, ranges[|ranges| - 1].end, false)
  }

  function Flatten<T>(batches: seq<seq<T>>): seq<T> {
    if batches == [] then [] else Flatten(batches[..|batches| - 1]) + batches[|batches| - 1]
  }

  lemma {:induction false} FlattenAppend<T>(a: seq<seq<T>>, b: seq<seq<T>>)
    ensures Flatten(a + b) == Flatten(a) + Flatten(b)
    decreases |b|
  {
    if b == [] {
      assert a + b == a;
    } else {
      var init, last := b[..|b| - 1], b[|b| - 1];
      FlattenAppend(a, init);
      assert (a + b)[..|a + b| - 1] == a + init;
      AppendRegroups(Flatten(a), Flatten(init), last);
    }
  }

  // One range, drawn in batches of at most 490 ids until a batch comes back empty.
  method DrainRange(r: Range) returns (batches: seq<seq<CanisterPrincipal>>)
    ensures Flatten(batches) == Items(r.start, r.end, false)
    ensures forall b :: b in batches ==> 1 <= |b| <= MAX_CALLS_PER_BATCH && NoDuplicates(b)
  {
    hide Items, NoDuplicates, Flatten, CanisterIdRange.Rest;
    FlattenNothing();
    var range := new CanisterIdRange(r.start, r.end);
    ghost var all := Items(r.start, r.end, false);
    ItemsDistinct(r.start, r.end);
    batches := [];
    while true
      invariant Flatten(batches) + range.Rest() == all
      invariant forall b :: b in batches ==> 1 <= |b| <= MAX_CALLS_PER_BATCH && NoDuplicates(b)
      decreases |range.Rest()|
    {
      ghost var before := Flatten(batches);
      var batch := range.Take(MAX_CALLS_PER_BATCH);
      if batch == [] {
        break;
      }
      assert all == before + batch + range.Rest();
      MiddleIsDistinct(before, batch, range.Rest());
      FlattenOne(batches, batch);
      batches := batches + [batch];
    }
  }

  lemma MiddleIsDistinct(before: seq<CanisterPrincipal>, batch: seq<CanisterPrincipal>, rest: seq<CanisterPrincipal>)
    requires NoDuplicates(before + batch + rest)
    ensures NoDuplicates(batch)
  {
    assert forall k :: 0 <= k < |batch| ==> batch[k] == (before + batch + rest)[|before| + k];
  }

  lemma FlattenNothing()
    ensures Flatten<CanisterPrincipal>([]) == []
  {
  }

  lemma FlattenOne(batches: seq<seq<CanisterPrincipal>>, batch: seq<CanisterPrincipal>)
    ensures Flatten(batches + [batch]) == Flatten(batches) + batch
  {
    assert (batches + [batch])[..|batches|] == batches;
  }

  // The nested loops of the metrics sync.
  method ExpandInBatches(ranges: seq<Range>) returns (batches: seq<seq<CanisterPrincipal>>)
    ensures Flatten(batches) == Expand(ranges)
    ensures forall b :: b in batches ==> 1 <= |b| <= MAX_CALLS_PER_BATCH && NoDuplicates(b)
  {
    hide Items;
    batches := [];
    for i := 0 to |ranges|
      invariant Flatten(batches) == Expand(ranges[..i])
      invariant forall b :: b in batches ==> 1 <= |b| <= MAX_CALLS_PER_BATCH && NoDuplicates(b)
    {
      assert ranges[..i + 1][..i] == ranges[..i];
      var drained := DrainRange(ranges[i]);
      FlattenAppend(batches, drained);
      batches := batches + drained;
    }
    assert ranges[..|ranges|] == ranges;
  }

  datatype Info = Info(principal: RawPrincipal, isDeleted: bool)

  // The ids of the canisters that are not deleted, in map order.
  function Live(infos: seq<Info>): seq<CanisterPrincipal> {
    if infos == [] then []
    else
      var last := infos[|infos| - 1];
      var before := Live(infos[..|infos| - 1]);
      if last.isDeleted || TryFromPrincipal(last.principal).None? then before else before + [last.principal]
  }

  // The iteration order of the map: principals of one length ascend.
  ghost predicate InMapOrder(infos: seq<Info>) {
    forall i, j :: 0 <= i < j < |infos| && |infos[i].principal| == |infos[j].principal| ==>
      BytesLess(infos[i].principal, infos[j].principal)
  }

  // The id's number follows that of the id before it.
  predicate Continues(ids: seq<CanisterPrincipal>, k: nat) {
    0 < k < |ids| && ToU64(ids[k]) == ToU64(ids[k - 1]) + 1
  }

  // One range for each run of ids whose numbers follow each other.
  function Compress(ids: seq<CanisterPrincipal>): (ranges: seq<Range>)
    ensures ids != [] ==> ranges != [] && ranges[|ranges| - 1].end == ids[|ids| - 1]
  {
    if ids == [] then []
    else
      var k := |ids| - 1;
      var before := Compress(ids[..k]);
      if Continues(ids, k) then before[..|before| - 1] + [Range(before[|before| - 1].start, ids[k])]
      else before + [Range(ids[k], ids[k])]
  }

  // Every id that continues a run is one that the number-to-id conversion gives back.
  ghost predicate ExpandsBack(ids: seq<CanisterPrincipal>) {
    forall k: nat :: Continues(ids, k) ==> Canonical(ids[k])
  }

  // Ordered by number, and no two neighbours could be joined.
  ghost predicate Separate(ranges: seq<Range>) {
    && (forall i :: 0 <= i < |ranges| ==> ToU64(ranges[i].start) <= ToU64(ranges[i].end))
    && (forall i, j :: 0 <= i < j < |ranges| ==> ToU64(ranges[i].end) <= ToU64(ranges[j].start))
    && (forall i, j :: 0 <= i < |ranges| && j == i + 1 < |ranges| ==>
         ToU64(ranges[i].end) + 1 != ToU64(ranges[j].start))
  }

  // Separate ranges of canonical ids do not even touch.
  ghost predicate Maximal(ranges: seq<Range>) {
    && (forall i :: 0 <= i < |ranges| ==>
         Canonical(ranges[i].start) && Canonical(ranges[i].end) && ToU64(ranges[i].start) <= ToU64(ranges[i].end))
    && (forall i, j :: 0 <= i < j < |ranges| ==> ToU64(ranges[i].end) + 1 < ToU64(ranges[j].start))
  }

  ghost predicate AllCanonical(ids: seq<CanisterPrincipal>) {
    forall i :: 0 <= i < |ids| ==> Canonical(ids[i])
  }

  ghost predicate NonDecreasing(ns: seq<nat>) {
    forall i, j :: 0 <= i < j < |ns| ==> ns[i] <= ns[j]
  }

  // Expanding the last range, one id longer.
  lemma ExtendItems(start: CanisterPrincipal, end: CanisterPrincipal, next: CanisterPrincipal)
    requires start == end || (Canonical(end) && ToU64(start) < ToU64(end))
    requires Canonical(next) && ToU64(next) == ToU64(end) + 1
    ensures Items(start, next, false) == Items(start, end, false) + [next]
    decreases ToU64(end) - ToU64(start)
  {
    IdRoundTrip(end);
    IdRoundTrip(next);
    if start != end {
      NumberRoundTrip(ToU64(start) + 1);
      ExtendItems(FromU64(ToU64(start) + 1), end, next);
    }
  }

  lemma ExpandLast(ranges: seq<Range>, r: Range)
    ensures Expand(ranges + [r]) == Expand(ranges) + Items(r.start, r.end, false)
  {
    assert (ranges + [r])[..|ranges|] == ranges;
  }

  lemma LastRange(ids: seq<CanisterPrincipal>)
    requires ids != [] && ExpandsBack(ids)
    ensures var r := Compress(ids)[|Compress(ids)| - 1];
            r.start == r.end || (Canonical(r.end) && ToU64(r.start) < ToU64(r.end))
  {
    var k := |ids| - 1;
    if Continues(ids, k) {
      InitExpandsBack(ids);
      LastRange(ids[..k]);
    }
  }

  lemma InitExpandsBack(ids: seq<CanisterPrincipal>)
    requires ids != [] && ExpandsBack(ids)
    ensures ExpandsBack(ids[..|ids| - 1])
  {
    var before := ids[..|ids| - 1];
    forall k: nat | Continues(before, k) ensures Canonical(before[k]) {
      assert Continues(ids, k);
    }
  }

  lemma {:induction false} ExpandInverts(ids: seq<CanisterPrincipal>)
    requires ExpandsBack(ids)
    ensures Expand(Compress(ids)) == ids
  {
    if ids != [] {
      hide Items, Expand, Canonical, ToU64;
      var k := |ids| - 1;
      InitExpandsBack(ids);
      ExpandInverts(ids[..k]);
      var before := Compress(ids[..k]);
      assert ids == ids[..k] + [ids[k]];
      if Continues(ids, k) {
        LastRange(ids[..k]);
        assert before[|before| - 1].end == ids[k - 1];
        ExpandGrown(before, ids[k]);
      } else {
        ExpandLast(before, Range(ids[k], ids[k]));
        ItemsOfOne(ids[k]);
      }
    }
  }

  // A canonical id right after the last range is appended to the expansion.
  lemma ExpandGrown(ranges: seq<Range>, id: CanisterPrincipal)
    requires ranges != [] && Canonical(id)
    requires var r := ranges[|ranges| - 1];
             && (r.start == r.end || (Canonical(r.end) && ToU64(r.start) < ToU64(r.end)))
             && ToU64(id) == ToU64(r.end) + 1
    ensures Expand(ranges[..|ranges| - 1] + [Range(ranges[|ranges| - 1].start, id)]) == Expand(ranges) + [id]
  {
    hide Items, Expand, Canonical, ToU64;
    var before, r := ranges[..|ranges| - 1], ranges[|ranges| - 1];
    assert ranges == before + [r];
    ExpandLast(before, r);
    ExpandLast(before, Range(r.start, id));
    ExtendItems(r.start, r.end, id);
    AppendRegroups(Expand(before), Items(r.start, r.end, false), [id]);
  }

  lemma AppendRegroups<T>(a: seq<T>, b: seq<T>, c: seq<T>)
    ensures a + (b + c) == a + b + c
  {
  }

  lemma ItemsOfOne(id: CanisterPrincipal)
    ensures Items(id, id, false) == [id]
  {
  }

  // A range starts where a run does.
  lemma {:induction false} StartsAreRunStarts(ids: seq<CanisterPrincipal>, r: Range)
    requires r in Compress(ids)
    ensures exists k :: 0 <= k < |ids| && r.start == ids[k] && !Continues(ids, k)
  {
    var last := |ids| - 1;
    var before := Compress(ids[..last]);
    if !Continues(ids, last) && r == Range(ids[last], ids[last]) {
      assert r.start == ids[last];
    } else {
      var s := if r in before then r else before[|before| - 1];
      StartsAreRunStarts(ids[..last], s);
      var k :| 0 <= k < last && s.start == ids[..last][k] && !Continues(ids[..last], k);
      assert r.start == ids[k] && !Continues(ids, k);
    }
  }

  lemma {:induction false} ExpandedIds(ranges: seq<Range>, id: CanisterPrincipal)
    requires id in Expand(ranges)
    ensures Canonical(id) || exists r :: r in ranges && r.start == id
  {
    var last := ranges[|ranges| - 1];
    if id in Items(last.start, last.end, false) {
      ItemsAreSpan(last.start, last.end);
      assert last in ranges;
    } else {
      ExpandedIds(ranges[..|ranges| - 1], id);
    }
  }

  // The ranges expand to the ids they were made of exactly when every id that continues a run is
  // canonical.
  lemma ExpandInvertsIff(ids: seq<CanisterPrincipal>)
    requires NoDuplicates(ids)
    ensures Expand(Compress(ids)) == ids <==> ExpandsBack(ids)
  {
    hide Expand, Compress, Canonical, ToU64;
    if ExpandsBack(ids) {
      ExpandInverts(ids);
    } else {
      var k: nat :| Continues(ids, k) && !Canonical(ids[k]);
      NotExpanded(ids, k);
    }
  }

  // An id that continues a run and is not canonical is not drawn again.
  lemma NotExpanded(ids: seq<CanisterPrincipal>, k: nat)
    requires NoDuplicates(ids) && Continues(ids, k) && !Canonical(ids[k])
    ensures ids[k] !in Expand(Compress(ids))
  {
    hide Expand, Compress, Canonical, ToU64;
    if ids[k] in Expand(Compress(ids)) {
      ExpandedIds(Compress(ids), ids[k]);
      var r :| r in Compress(ids) && r.start == ids[k];
      StartsAreRunStarts(ids, r);
      assert false;
    }
  }

  lemma {:induction false} CompressSeparates(ids: seq<CanisterPrincipal>)
    requires NonDecreasing(Numbers(ids))
    ensures Separate(Compress(ids))
  {
    if ids != [] {
      var k := |ids| - 1;
      var ns := Numbers(ids);
      assert Numbers(ids[..k]) == ns[..k];
      CompressSeparates(ids[..k]);
      hide ToU64;
      assert k > 0 ==> ns[k - 1] <= ns[k];
      var before := Compress(ids[..k]);
      AppendSeparates(before, ids[k]);
      if Continues(ids, k) {
        GrowSeparates(before, ids[k]);
      }
    }
  }

  lemma AppendSeparates(ranges: seq<Range>, id: CanisterPrincipal)
    requires Separate(ranges)
    requires ranges != [] ==> ToU64(ranges[|ranges| - 1].end) <= ToU64(id)
    ensures (ranges != [] ==> ToU64(ranges[|ranges| - 1].end) + 1 != ToU64(id)) ==> Separate(ranges + [Range(id, id)])
  {
    hide ToU64;
    var grown := ranges + [Range(id, id)];
    assert grown[|ranges|] == Range(id, id) && forall i :: 0 <= i < |ranges| ==> grown[i] == ranges[i];
    forall i | 0 <= i < |ranges| ensures ToU64(ranges[i].end) <= ToU64(id) {
      var last := ranges[|ranges| - 1];
      assert ToU64(last.start) <= ToU64(last.end);
      assert i < |ranges| - 1 ==> ToU64(ranges[i].end) <= ToU64(last.start);
    }
  }

  lemma GrowSeparates(ranges: seq<Range>, id: CanisterPrincipal)
    requires Separate(ranges) && ranges != [] && ToU64(id) == ToU64(ranges[|ranges| - 1].end) + 1
    ensures Separate(ranges[..|ranges| - 1] + [Range(ranges[|ranges| - 1].start, id)])
  {
    hide ToU64;
    var last := |ranges| - 1;
    var grown := ranges[..last] + [Range(ranges[last].start, id)];
    assert grown[last].start == ranges[last].start && grown[last].end == id;
    assert forall i :: 0 <= i < last ==> grown[i] == ranges[i];
  }

  // Of canonical ids the ranges are maximal.
  lemma {:induction false} CanonicalRangesMaximal(ids: seq<CanisterPrincipal>)
    requires AllCanonical(ids) && Increasing(Numbers(ids))
    ensures Maximal(Compress(ids))
  {
    if ids != [] {
      var k := |ids| - 1;
      var ns := Numbers(ids);
      assert Numbers(ids[..k]) == ns[..k];
      CanonicalRangesMaximal(ids[..k]);
      assert Canonical(ids[k]) && (k > 0 ==> ns[k - 1] == ToU64(ids[k - 1]) < ns[k] == ToU64(ids[k]));
      hide ToU64, Canonical, Maximal, Numbers, Increasing, AllCanonical;
      var before := Compress(ids[..k]);
      assert k > 0 ==> before[|before| - 1].end == ids[k - 1];
      if Continues(ids, k) {
        GrowMaximal(before, ids[k]);
      } else {
        assert before != [] ==> ToU64(before[|before| - 1].end) + 1 < ToU64(ids[k]);
        LastEndsLast(before, ids[k]);
        MaximalAppend(before, ids[k]);
      }
    }
  }

  lemma GrowMaximal(ranges: seq<Range>, id: CanisterPrincipal)
    requires Maximal(ranges) && ranges != [] && Canonical(id) && ToU64(id) == ToU64(ranges[|ranges| - 1].end) + 1
    ensures Maximal(ranges[..|ranges| - 1] + [Range(ranges[|ranges| - 1].start, id)])
  {
    hide ToU64, Canonical;
    var last := |ranges| - 1;
    var grown := ranges[..last] + [Range(ranges[last].start, id)];
    assert grown[last].start == ranges[last].start && grown[last].end == id;
    assert forall i :: 0 <= i < last ==> grown[i] == ranges[i];
  }

  lemma LastEndsLast(ranges: seq<Range>, id: CanisterPrincipal)
    requires Maximal(ranges)
    requires ranges != [] ==> ToU64(ranges[|ranges| - 1].end) + 1 < ToU64(id)
    ensures forall i :: 0 <= i < |ranges| ==> ToU64(ranges[i].end) + 1 < ToU64(id)
  {
    hide ToU64, Canonical;
    forall i | 0 <= i < |ranges| ensures ToU64(ranges[i].end) + 1 < ToU64(id) {
      var last := ranges[|ranges| - 1];
      assert ToU64(last.start) <= ToU64(last.end);
      assert i < |ranges| - 1 ==> ToU64(ranges[i].end) + 1 < ToU64(last.start);
    }
  }

  lemma MaximalAppend(ranges: seq<Range>, id: CanisterPrincipal)
    requires Maximal(ranges) && Canonical(id)
    requires forall i :: 0 <= i < |ranges| ==> ToU64(ranges[i].end) + 1 < ToU64(id)
    ensures Maximal(ranges + [Range(id, id)])
  {
    hide ToU64;
    var grown := ranges + [Range(id, id)];
    assert grown[|ranges|] == Range(id, id);
    assert forall i :: 0 <= i < |ranges| ==> grown[i] == ranges[i];
  }

  // `end + 1` wraps around, which never makes two numbers equal that ascend.
  method ListSubnetCanisterIdRanges(infos: seq<Info>) returns (ranges: seq<Range>)
    requires InMapOrder(infos)
    ensures ranges == Compress(Live(infos)) && Separate(ranges)
    ensures AllCanonical(Live(infos)) ==> Maximal(ranges)
    ensures Expand(ranges) == Live(infos) <==> ExpandsBack(Live(infos))
  {
    ranges := [];
    var current: Option<Range> := None;
    LiveNothing();
    hide InMapOrder, NoDuplicates, Increasing, NonDecreasing, Numbers, ToU64, Compress, Live, Expand, Separate, Maximal,
      ExpandsBack, AllCanonical;
    for k := 0 to |infos|
      invariant Compress(Live(infos[..k])) == if current.None? then ranges else ranges + [current.value]
      invariant current.None? <==> Live(infos[..k]) == []
      invariant current.None? ==> ranges == []
    {
      LiveStep(infos, k);
      var info := infos[k];
      ghost var live := Live(infos[..k]);
      if info.isDeleted || TryFromPrincipal(info.principal).None? {
        continue;
      }
      var id: CanisterPrincipal := info.principal;
      CompressStep(live, id);
      if current.None? {
        current := Some(Range(id, id));
      } else {
        var start, end := current.value.start, current.value.end;
        LastIsEnd(live, ranges, current.value);
        NextIsLarger(infos, k, end);
        if (ToU64(end) + 1) % (U64_MAX + 1) == ToU64(id) {
          current := Some(Range(start, id));
        } else {
          ranges := ranges + [current.value];
          current := Some(Range(id, id));
        }
      }
    }
    assert infos[..|infos|] == infos;
    if current.Some? {
      ranges := ranges + [current.value];
    }
    LiveRanges(infos);
  }

  lemma LiveRanges(infos: seq<Info>)
    requires InMapOrder(infos)
    ensures var ids := Live(infos);
            && Separate(Compress(ids)) && (AllCanonical(ids) ==> Maximal(Compress(ids)))
            && (Expand(Compress(ids)) == ids <==> ExpandsBack(ids))
  {
    hide *;
    LiveAscending(infos);
    CompressSeparates(Live(infos));
    ExpandInvertsIff(Live(infos));
    if AllCanonical(Live(infos)) {
      CanonicalRangesMaximal(Live(infos));
    }
  }

  lemma LiveNothing()
    ensures Live([]) == [] && Compress([]) == []
  {
  }

  lemma LiveStep(infos: seq<Info>, k: nat)
    requires k < |infos|
    ensures Live(infos[..k + 1]) ==
            if infos[k].isDeleted || TryFromPrincipal(infos[k].principal).None? then Live(infos[..k])
            else Live(infos[..k]) + [infos[k].principal]
  {
    assert infos[..k + 1][..k] == infos[..k];
  }

  lemma CompressStep(ids: seq<CanisterPrincipal>, id: CanisterPrincipal)
    ensures var before := Compress(ids);
            && (ids == [] <==> before == [])
            && Compress(ids + [id]) ==
               if before != [] && ToU64(id) == ToU64(before[|before| - 1].end) + 1
               then before[..|before| - 1] + [Range(before[|before| - 1].start, id)] else before + [Range(id, id)]
  {
    hide ToU64;
    assert (ids + [id])[..|ids|] == ids;
  }

  lemma LastIsEnd(ids: seq<CanisterPrincipal>, ranges: seq<Range>, last: Range)
    requires Compress(ids) == ranges + [last] && ids != []
    ensures last.end in ids
  {
    assert last == (ranges + [last])[|ranges|];
  }

  // Every live id occurs once, in ascending order.
  lemma LiveAscending(infos: seq<Info>)
    requires InMapOrder(infos)
    ensures NonDecreasing(Numbers(Live(infos))) && NoDuplicates(Live(infos))
    ensures AllCanonical(Live(infos)) ==> Increasing(Numbers(Live(infos)))
  {
    var live := Live(infos);
    LiveOrdered(infos);
    forall i, j | 0 <= i < j < |live| ensures live[i] != live[j] && ToU64(live[i]) <= ToU64(live[j]) {
      TenByteOrder(live[i], live[j]);
      Irreflexive(live[i]);
    }
    if AllCanonical(live) {
      forall i, j | 0 <= i < j < |live| ensures ToU64(live[i]) < ToU64(live[j]) {
        CanonicalOrder(live[i], live[j]);
      }
    }
  }

  ghost predicate Ordered(ids: seq<CanisterPrincipal>) {
    forall i, j :: 0 <= i < j < |ids| ==> BytesLess(ids[i], ids[j])
  }

  lemma {:induction false} LiveOrdered(infos: seq<Info>)
    requires InMapOrder(infos)
    ensures Ordered(Live(infos))
  {
    if infos != [] {
      var k := |infos| - 1;
      LiveOrdered(infos[..k]);
      var live, before := Live(infos), Live(infos[..k]);
      if live != before {
        assert live == before + [infos[k].principal];
        forall i | 0 <= i < |before| ensures BytesLess(live[i], live[|before|]) {
          assert live[i] == before[i] && before[i] in before;
          LiveOccurs(infos[..k], live[i]);
        }
        forall i, j | 0 <= i < j < |live| ensures BytesLess(live[i], live[j]) {
          assert live[i] == before[i] && (j < |before| ==> live[j] == before[j]);
        }
      }
    }
  }

  // Ten-byte principals in order have numbers in order.
  lemma TenByteOrder(a: CanisterPrincipal, b: CanisterPrincipal)
    requires BytesLess(a, b)
    ensures ToU64(a) <= ToU64(b)
  {
    BytesOrder(a, b);
    LastTwoBytes(a);
    LastTwoBytes(b);
  }

  lemma LastTwoBytes(a: CanisterPrincipal)
    ensures var high: nat, low: nat := a[8], a[9]; FromBytes(a) == 65_536 * ToU64(a) + 256 * high + low
  {
    assert a[..9][..8] == a[..8];
    assert FromBytes(a[..9]) == 256 * FromBytes(a[..8]) + a[8];
  }

  // One canister lists its live ids as ranges and another draws them back in batches: it visits
  // every live id exactly once and in order, and nothing else, exactly when every live id that
  // continues a run is canonical.
  method SyncPass(infos: seq<Info>) returns (batches: seq<seq<CanisterPrincipal>>)
    requires InMapOrder(infos)
    ensures NoDuplicates(Live(infos)) && Flatten(batches) == Expand(Compress(Live(infos)))
    ensures Flatten(batches) == Live(infos) <==> ExpandsBack(Live(infos))
    ensures forall b :: b in batches ==> 1 <= |b| <= MAX_CALLS_PER_BATCH && NoDuplicates(b)
  {
    LiveAscending(infos);
    var ranges := ListSubnetCanisterIdRanges(infos);
    batches := ExpandInBatches(ranges);
  }

  predicate ListsLive(infos: seq<Info>, i: int, id: RawPrincipal) {
    0 <= i < |infos| && infos[i].principal == id && !infos[i].isDeleted
  }

  // The live ids are exactly the stored principals of ten bytes, the last of them 1, that are not deleted.
  lemma {:induction false} LiveIff(infos: seq<Info>, id: RawPrincipal)
    ensures (exists k :: 0 <= k < |Live(infos)| && Live(infos)[k] == id) <==>
            |id| == 10 && id[9] == 1 && exists i :: ListsLive(infos, i, id)
  {
    if infos != [] {
      var init, last := infos[..|infos| - 1], infos[|infos| - 1];
      var before, live := Live(init), Live(infos);
      LiveIff(init, id);
      assert forall i :: 0 <= i < |init| ==> (ListsLive(init, i, id) <==> ListsLive(infos, i, id));
      if i :| ListsLive(infos, i, id) {
        if i < |init| {
          assert ListsLive(init, i, id);
        } else if |id| == 10 && id[9] == 1 {
          assert live[|before|] == id;
        }
      }
      if k :| 0 <= k < |before| && before[k] == id {
        assert live[k] == id;
      }
      if k :| 0 <= k < |live| && live[k] == id {
        if k < |before| {
          assert before[k] == id;
        } else {
          assert ListsLive(infos, |init|, id);
        }
      }
    }
  }

  lemma LiveOccurs(infos: seq<Info>, id: CanisterPrincipal)
    requires id in Live(infos)
    ensures exists i :: 0 <= i < |infos| && infos[i].principal == id && !infos[i].isDeleted
  {
    LiveIff(infos, id);
    var i :| ListsLive(infos, i, id);
  }

  // The map is walked in ascending order of the ids' numbers, so that `end + 1` wraps does not matter.
  lemma NextIsLarger(infos: seq<Info>, k: nat, end: CanisterPrincipal)
    requires InMapOrder(infos) && k < |infos| && end in Live(infos[..k])
    requires TryFromPrincipal(infos[k].principal).Some?
    ensures var n := ToU64(infos[k].principal);
            ToU64(end) <= n <= U64_MAX && ((ToU64(end) + 1) % (U64_MAX + 1) == n <==> n == ToU64(end) + 1)
  {
    LiveOccurs(infos[..k], end);
    TenByteOrder(end, infos[k].principal);
    ToU64Bounded(infos[k].principal);
  }
}
