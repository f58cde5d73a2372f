/** The metrics store: snapshots by time and canister, a mirrored index, and 24 hours of retention. */
module MetricsStore {
  import opened Primitives

  type Time = nat
  type Key = (Time, Principal)

  // The contents of a snapshot are only passed on.
  type Snapshot = nat

  const RETENTION: nat := 24 * 60 * 60 * 1_000_000_000

  datatype Store = Store(snapshots: map<Key, Snapshot>, index: set<(Principal, Time)>, latest: map<Principal, Snapshot>)

  const EMPTY_STORE := Store(map[], {}, map[])

  datatype Insertion = Insertion(time: Time, canister: Principal, snapshot: Snapshot)

  // The indexed times of the canister that fall out of the retention period.
  function Stale(s: Store, time: Time, canister: Principal): set<(Principal, Time)> {
    set e | e in s.index && e.0 == canister && e.1 + RETENTION <= time
  }

  function KeysOf(entries: set<(Principal, Time)>): set<Key> {
    set e | e in entries :: (e.1, e.0)
  }

  function Insert(s: Store, i: Insertion): Store {
    var stale := Stale(s, i.time, i.canister);
    Store(
      (s.snapshots - KeysOf(stale))[(i.time, i.canister) := i.snapshot],
      s.index - stale + {(i.canister, i.time)},
      s.latest[i.canister := i.snapshot])
  }

  function InsertAll(s: Store, ins: seq<Insertion>): Store {
    if ins == [] then s else Insert(InsertAll(s, ins[..|ins| - 1]), ins[|ins| - 1])
  }

  ghost predicate Mirrored(s: Store) {
    forall t, c :: (t, c) in s.snapshots <==> (c, t) in s.index
  }

  lemma InsertKeepsMirror(s: Store, i: Insertion)
    requires Mirrored(s)
    ensures Mirrored(Insert(s, i))
  {
    var stale := Stale(s, i.time, i.canister);
    forall t, c ensures (t, c) in KeysOf(stale) <==> (c, t) in stale {
      assert (c, t) in stale ==> (t, c) in KeysOf(stale);
    }
  }

  // The index mirrors the snapshots after any insertions, whatever their times.
  lemma {:induction false} StoreStaysMirrored(ins: seq<Insertion>)
    ensures Mirrored(InsertAll(EMPTY_STORE, ins))
  {
    if ins != [] {
      StoreStaysMirrored(ins[..|ins| - 1]);
      InsertKeepsMirror(InsertAll(EMPTY_STORE, ins[..|ins| - 1]), ins[|ins| - 1]);
    }
  }

  // An insertion leaves every other canister alone.
  lemma OthersUntouched(s: Store, i: Insertion, t: Time, c: Principal)
    requires c != i.canister
    ensures (t, c) in Insert(s, i).snapshots <==> (t, c) in s.snapshots
    ensures (t, c) in s.snapshots ==> Insert(s, i).snapshots[(t, c)] == s.snapshots[(t, c)]
  {
  }

  // The last insertion of canister `c`.
  function LastOf(ins: seq<Insertion>, c: Principal): Option<Insertion> {
    if ins == [] then None
    else if ins[|ins| - 1].canister == c then Some(ins[|ins| - 1])
    else LastOf(ins[..|ins| - 1], c)
  }

  // The last snapshot inserted for canister `c` at time `t`.
  function InsertedAt(ins: seq<Insertion>, t: Time, c: Principal): Option<Snapshot> {
    if ins == [] then None
    else if ins[|ins| - 1].canister == c && ins[|ins| - 1].time == t then Some(ins[|ins| - 1].snapshot)
    else InsertedAt(ins[..|ins| - 1], t, c)
  }

  ghost predicate TimeAdvances(ins: seq<Insertion>, c: Principal) {
    forall i, j :: 0 <= i < j < |ins| && ins[i].canister == c && ins[j].canister == c ==> ins[i].time <= ins[j].time
  }

  function Lookup<K, V>(m: map<K, V>, k: K): Option<V> {
    if k in m then Some(m[k]) else None
  }

  lemma {:induction false} InsertedBefore(ins: seq<Insertion>, t: Time, c: Principal)
    requires TimeAdvances(ins, c) && InsertedAt(ins, t, c).Some?
    ensures LastOf(ins, c).Some? && t <= LastOf(ins, c).value.time
    ensures t == LastOf(ins, c).value.time ==> InsertedAt(ins, t, c) == Some(LastOf(ins, c).value.snapshot)
    ensures exists i :: 0 <= i < |ins| && ins[i].canister == c && ins[i].time == t
  {
    var init, last := ins[..|ins| - 1], ins[|ins| - 1];
    if last.canister == c && last.time == t {
      assert ins[|ins| - 1].time == t;
    } else {
      InsertedBefore(init, t, c);
      var i :| 0 <= i < |init| && init[i].canister == c && init[i].time == t;
      assert ins[i] == init[i];
    }
  }

  // What is stored of a canister is exactly what was inserted for it in the 24 hours up to its
  // last insertion, and its latest entry is that insertion's snapshot.
  lemma {:induction false} StoredExactly(ins: seq<Insertion>, t: Time, c: Principal)
    requires TimeAdvances(ins, c)
    ensures var s := InsertAll(EMPTY_STORE, ins);
            && Lookup(s.snapshots, (t, c)) ==
               (if LastOf(ins, c).Some? && LastOf(ins, c).value.time < t + RETENTION then InsertedAt(ins, t, c)
                else None)
            && Lookup(s.latest, c) == (if LastOf(ins, c).Some? then Some(LastOf(ins, c).value.snapshot) else None)
  {
    if ins != [] {
      var init, last := ins[..|ins| - 1], ins[|ins| - 1];
      StoredExactly(init, t, c);
      var s := InsertAll(EMPTY_STORE, init);
      StoreStaysMirrored(init);
      if last.canister != c {
        OthersUntouched(s, last, t, c);
      } else {
        InsertStores(s, last, t);
        if InsertedAt(init, t, c).Some? {
          InsertedBefore(init, t, c);
        }
        LastOfIsEarlier(ins, c);
      }
    }
  }

  lemma InsertStores(s: Store, i: Insertion, t: Time)
    requires Mirrored(s)
    ensures Lookup(Insert(s, i).snapshots, (t, i.canister)) ==
            if t == i.time then Some(i.snapshot)
            else if t + RETENTION <= i.time then None
            else Lookup(s.snapshots, (t, i.canister))
  {
    var stale := Stale(s, i.time, i.canister);
    assert (t, i.canister) in KeysOf(stale) <==> (i.canister, t) in stale by {
      assert (i.canister, t) in stale ==> (t, i.canister) in KeysOf(stale);
    }
  }

  lemma {:induction false} LastOfOccurs(ins: seq<Insertion>, c: Principal)
    requires LastOf(ins, c).Some?
    ensures exists i :: 0 <= i < |ins| && ins[i] == LastOf(ins, c).value && ins[i].canister == c
  {
    if ins[|ins| - 1].canister != c {
      LastOfOccurs(ins[..|ins| - 1], c);
      var i :| 0 <= i < |ins| - 1 && ins[..|ins| - 1][i] == LastOf(ins, c).value;
      assert ins[i] == LastOf(ins, c).value;
    }
  }

  lemma LastOfIsEarlier(ins: seq<Insertion>, c: Principal)
    requires ins != [] && ins[|ins| - 1].canister == c && TimeAdvances(ins, c)
    ensures LastOf(ins[..|ins| - 1], c).Some? ==> LastOf(ins[..|ins| - 1], c).value.time <= ins[|ins| - 1].time
  {
    if LastOf(ins[..|ins| - 1], c).Some? {
      LastOfOccurs(ins[..|ins| - 1], c);
    }
  }

  // Stored times lie in (last - 24h, last], the last one is stored, and the latest map agrees with it.
  lemma RetentionWindow(ins: seq<Insertion>, t: Time, c: Principal)
    requires TimeAdvances(ins, c)
    ensures var s := InsertAll(EMPTY_STORE, ins);
            && ((t, c) in s.snapshots ==>
                  LastOf(ins, c).Some? && t <= LastOf(ins, c).value.time < t + RETENTION)
            && (LastOf(ins, c).Some? ==>
                  var last := LastOf(ins, c).value;
                  && (last.time, c) in s.snapshots && s.snapshots[(last.time, c)] == last.snapshot
                  && c in s.latest && s.latest[c] == last.snapshot)
  {
    StoredExactly(ins, t, c);
    if (t, c) in InsertAll(EMPTY_STORE, ins).snapshots {
      InsertedBefore(ins, t, c);
    }
    if LastOf(ins, c).Some? {
      var last := LastOf(ins, c).value;
      StoredExactly(ins, last.time, c);
      LastIsInserted(ins, c);
    }
  }

  lemma {:induction false} LastIsInserted(ins: seq<Insertion>, c: Principal)
    requires LastOf(ins, c).Some?
    ensures InsertedAt(ins, LastOf(ins, c).value.time, c) == Some(LastOf(ins, c).value.snapshot)
  {
    if ins[|ins| - 1].canister != c {
      LastIsInserted(ins[..|ins| - 1], c);
    }
  }

  class MetricsRepository {
    var snapshots: map<Key, Snapshot>
    var index: set<(Principal, Time)>
    var latest: map<Principal, Snapshot>

    ghost function Current(): Store
      reads this
    {
      Store(snapshots, index, latest)
    }

    constructor ()
      ensures Current() == EMPTY_STORE
    {
      snapshots, index, latest := map[], {}, map[];
    }

    method InsertSnapshot(time: Time, canister: Principal, snapshot: Snapshot)
      modifies this
      ensures Current() == Insert(old(Current()), Insertion(time, canister, snapshot))
      ensures old(Mirrored(Current())) ==> Mirrored(Current())
    {
      ghost var before := Current();
      if time >= RETENTION {
        var stale := set e | e in index && e.0 == canister && e.1 <= time - RETENTION;
        ghost var removed := {};
        while stale != {}
          invariant stale + removed == Stale(before, time, canister) && stale !! removed
          invariant snapshots == before.snapshots - KeysOf(removed)
          invariant index == before.index - removed && latest == before.latest
          decreases stale
        {
          var e :| e in stale;
          stale := stale - {e};
          assert KeysOf(removed + {e}) == KeysOf(removed) + {(e.1, e.0)};
          removed := removed + {e};
          snapshots := snapshots - {(e.1, e.0)};
          index := index - {e};
        }
        assert removed == Stale(before, time, canister);
      } else {
        assert Stale(before, time, canister) == {} && KeysOf({}) == {};
      }
      snapshots := snapshots[(time, canister) := snapshot];
      index := index + {(canister, time)};
      latest := latest[canister := snapshot];
      if Mirrored(before) {
        InsertKeepsMirror(before, Insertion(time, canister, snapshot));
      }
    }
  }
}

/** Reading the store page by page, and the syncer that drains it. */
module MetricsPaging {
  import opened Primitives
  import opened MetricsStore

  datatype Entry = Entry(key: Key, snapshot: Snapshot)
  type Snapshots = map<Key, Snapshot>

  predicate Less(a: Key, b: Key) {
    a.0 < b.0 || (a.0 == b.0 && a.1 < b.1)
  }

  predicate After(cursor: Option<Key>, k: Key) {
    cursor.None? || Less(cursor.value, k)
  }

  ghost predicate Ascending(es: seq<Entry>) {
    forall i, j :: 0 <= i < j < |es| ==> Less(es[i].key, es[j].key)
  }

  ghost predicate Contains(es: seq<Entry>, k: Key) {
    exists i :: 0 <= i < |es| && es[i].key == k
  }

  lemma ContainsAppend(es: seq<Entry>, e: Entry)
    ensures Contains(es + [e], e.key)
    ensures forall k :: Contains(es, k) ==> Contains(es + [e], k)
  {
    assert (es + [e])[|es|] == e;
    forall k | Contains(es, k) ensures Contains(es + [e], k) {
      var i :| 0 <= i < |es| && es[i].key == k;
      assert (es + [e])[i].key == k;
    }
  }

  // A page is the ascending run of stored keys after the cursor, cut at `limit`; a next cursor is
  // given exactly when keys remain beyond the page, and it is the page's last key.
  ghost predicate IsPage(store: Snapshots, cursor: Option<Key>, limit: nat, page: seq<Entry>, next: Option<Key>) {
    && Ascending(page) && |page| <= limit
    && (forall i :: 0 <= i < |page| ==>
         After(cursor, page[i].key) && page[i].key in store && store[page[i].key] == page[i].snapshot)
    && (next.None? ==> forall k :: k in store && After(cursor, k) ==> Contains(page, k))
    && (next.Some? ==>
          && |page| == limit > 0 && page[limit - 1].key == next.value
          && (forall k :: k in store && After(cursor, k) && !Less(next.value, k) ==> Contains(page, k))
          && exists k :: k in store && Less(next.value, k))
  }

  // The smallest stored key after the cursor.
  method NextKey(store: Snapshots, cursor: Option<Key>) returns (next: Option<Key>)
    ensures next.None? ==> forall k :: k in store ==> !After(cursor, k)
    ensures next.Some? ==>
              && next.value in store && After(cursor, next.value)
              && forall k :: k in store && After(cursor, k) ==> k == next.value || Less(next.value, k)
  {
    next := None;
    var rest := store.Keys;
    while rest != {}
      invariant rest <= store.Keys
      invariant next.None? ==> forall k :: k in store && k !in rest ==> !After(cursor, k)
      invariant next.Some? ==>
                  && next.value in store && After(cursor, next.value)
                  && forall k :: k in store && k !in rest && After(cursor, k) ==> k == next.value || Less(next.value, k)
      decreases rest
    {
      var k :| k in rest;
      rest := rest - {k};
      if After(cursor, k) && (next.None? || Less(k, next.value)) {
        next := Some(k);
      }
    }
  }

  method ListSnapshotsAfter(store: Snapshots, cursor: Option<Key>, limit: nat)
    returns (page: seq<Entry>, next: Option<Key>)
    requires limit >= 1
    ensures IsPage(store, cursor, limit, page, next)
  {
    page := [];
    var last := cursor;
    for i := 0 to limit + 1
      invariant |page| == i <= limit
      invariant i == 0 ==> last == cursor
      invariant i > 0 ==> last == Some(page[i - 1].key)
      invariant Ascending(page)
      invariant forall j :: 0 <= j < i ==>
                  After(cursor, page[j].key) && page[j].key in store && store[page[j].key] == page[j].snapshot
      invariant forall k :: k in store && After(cursor, k) && !After(last, k) ==> Contains(page, k)
    {
      var key := NextKey(store, last);
      if key.None? {
        return page, None;
      }
      if i == limit {
        return page, last;
      }
      ghost var before := page;
      page := page + [Entry(key.value, store[key.value])];
      ContainsAppend(before, page[i]);
      last := key;
    }
  }

  // One answered request of a drain, with the store as it was at that moment.
  datatype Reply = Reply(store: Snapshots, page: seq<Entry>, next: Option<Key>)

  // A complete drain: cursors are followed until none is given. The store may change in between.
  ghost predicate IsDrain(replies: seq<Reply>, cursor: Option<Key>, limit: nat) {
    && replies != []
    && IsPage(replies[0].store, cursor, limit, replies[0].page, replies[0].next)
    && (replies[0].next.None? <==> |replies| == 1)
    && (|replies| > 1 ==> IsDrain(replies[1..], replies[0].next, limit))
  }

  // The cursor of the i-th request.
  ghost function CursorAt(replies: seq<Reply>, cursor: Option<Key>, i: nat): Option<Key>
    requires i <= |replies|
  {
    if i == 0 then cursor else replies[i - 1].next
  }

  ghost predicate Answers(r: Reply, cursor: Option<Key>, limit: nat) {
    IsPage(r.store, cursor, limit, r.page, r.next)
  }

  // Every request but the first asks with the cursor that the one before was given.
  ghost predicate FollowsCursors(replies: seq<Reply>, cursor: Option<Key>, limit: nat) {
    forall i :: 0 <= i < |replies| ==> Answers(replies[i], CursorAt(replies, cursor, i), limit)
  }

  function Drained(replies: seq<Reply>): seq<Entry> {
    if replies == [] then [] else replies[0].page + Drained(replies[1..])
  }

  // A drain returns ascending keys after its cursor, so none twice.
  lemma {:induction false} DrainAscends(replies: seq<Reply>, cursor: Option<Key>, limit: nat)
    requires IsDrain(replies, cursor, limit)
    ensures Ascending(Drained(replies))
    ensures forall i :: 0 <= i < |Drained(replies)| ==> After(cursor, Drained(replies)[i].key)
  {
    if |replies| > 1 {
      DrainAscends(replies[1..], replies[0].next, limit);
      var page, rest := replies[0].page, Drained(replies[1..]);
      assert After(cursor, page[limit - 1].key);
      forall i, j | 0 <= i < |page| && 0 <= j < |rest| ensures Less(page[i].key, rest[j].key) {
        assert i < limit - 1 ==> Less(page[i].key, page[limit - 1].key);
        assert After(replies[0].next, rest[j].key);
      }
    } else {
      assert replies[1..] == [] && Drained(replies) == replies[0].page;
    }
  }

  // Every snapshot that is stored during the whole drain is returned, and by `DrainAscends` once,
  // even when others are inserted or pruned between the pages.
  lemma {:induction false} DrainIsComplete(replies: seq<Reply>, cursor: Option<Key>, limit: nat, k: Key)
    requires IsDrain(replies, cursor, limit) && After(cursor, k)
    requires forall i :: 0 <= i < |replies| ==> k in replies[i].store
    ensures Contains(Drained(replies), k)
  {
    var page, rest := replies[0].page, Drained(replies[1..]);
    if replies[0].next.Some? && Less(replies[0].next.value, k) {
      DrainIsComplete(replies[1..], replies[0].next, limit, k);
      var i :| 0 <= i < |rest| && rest[i].key == k;
      assert Drained(replies)[|page| + i].key == k;
    } else {
      assert Contains(page, k);
      var i :| 0 <= i < |page| && page[i].key == k;
      assert Drained(replies)[i].key == k;
    }
  }

  // Nothing is made up: every returned entry was stored when its page was read.
  lemma {:induction false} DrainIsSound(replies: seq<Reply>, cursor: Option<Key>, limit: nat, e: Entry)
    requires IsDrain(replies, cursor, limit) && e in Drained(replies)
    ensures exists i :: 0 <= i < |replies| && e.key in replies[i].store && replies[i].store[e.key] == e.snapshot
  {
    if e in replies[0].page {
      var i :| 0 <= i < |replies[0].page| && replies[0].page[i] == e;
      assert e.key in replies[0].store && replies[0].store[e.key] == e.snapshot;
    } else {
      DrainIsSound(replies[1..], replies[0].next, limit, e);
      var i :| 0 <= i < |replies| - 1 && e.key in replies[1..][i].store && replies[1..][i].store[e.key] == e.snapshot;
      assert replies[1..][i] == replies[i + 1];
    }
  }

  ghost function Remaining(store: Snapshots, cursor: Option<Key>): set<Key> {
    set k | k in store && After(cursor, k)
  }

  // On a store that does not change, every further page leaves fewer keys: the drain terminates.
  lemma PagesShrink(store: Snapshots, cursor: Option<Key>, limit: nat, page: seq<Entry>, next: Option<Key>)
    requires IsPage(store, cursor, limit, page, next) && next.Some?
    ensures |Remaining(store, next)| < |Remaining(store, cursor)|
  {
    assert Remaining(store, next) <= Remaining(store, cursor) - {next.value} by {
      assert After(cursor, page[limit - 1].key);
    }
    assert next.value in Remaining(store, cursor);
    SubsetSize(Remaining(store, next), Remaining(store, cursor) - {next.value});
  }

  // The last entry of a canister.
  function LastEntry(es: seq<Entry>, c: Principal): Option<Entry> {
    if es == [] then None
    else if es[|es| - 1].key.1 == c then Some(es[|es| - 1])
    else LastEntry(es[..|es| - 1], c)
  }

  // What the syncer reports: for every canister among the entries, its last snapshot.
  ghost predicate IsReport(latest: map<Principal, Entry>, es: seq<Entry>) {
    forall c :: Lookup(latest, c) == LastEntry(es, c)
  }

  lemma {:induction false} LastEntryIsNewest(es: seq<Entry>, c: Principal)
    requires Ascending(es)
    ensures LastEntry(es, c).None? ==> forall i :: 0 <= i < |es| ==> es[i].key.1 != c
    ensures LastEntry(es, c).Some? ==>
              && LastEntry(es, c).value in es && LastEntry(es, c).value.key.1 == c
              && forall i :: 0 <= i < |es| && es[i].key.1 == c ==> es[i].key.0 <= LastEntry(es, c).value.key.0
  {
    if es != [] && es[|es| - 1].key.1 != c {
      LastEntryIsNewest(es[..|es| - 1], c);
    }
  }

  // One entry for every canister with a snapshot after the cursor: its newest, as it is stored.
  ghost predicate IsNewestReport(store: Snapshots, cursor: Option<Key>, latest: map<Principal, Entry>) {
    forall c :: IsNewestOf(store, cursor, latest, c)
  }

  ghost predicate IsNewestOf(store: Snapshots, cursor: Option<Key>, latest: map<Principal, Entry>, c: Principal) {
    && (c in latest <==> exists t: Time :: (t, c) in store && After(cursor, (t, c)))
    && (c in latest ==>
          && latest[c].key.1 == c && latest[c].key in store && store[latest[c].key] == latest[c].snapshot
          && forall t: Time :: (t, c) in store && After(cursor, (t, c)) ==> t <= latest[c].key.0)
  }

  // A drain of a store that does not change reports, for every canister with a snapshot after the
  // cursor, its newest one, and nothing else.
  lemma ReportIsNewest(store: Snapshots, replies: seq<Reply>, cursor: Option<Key>, limit: nat,
                       latest: map<Principal, Entry>, c: Principal)
    requires IsDrain(replies, cursor, limit) && IsReport(latest, Drained(replies))
    requires forall i :: 0 <= i < |replies| ==> replies[i].store == store
    ensures IsNewestOf(store, cursor, latest, c)
  {
    var es := Drained(replies);
    DrainAscends(replies, cursor, limit);
    LastEntryIsNewest(es, c);
    assert Lookup(latest, c) == LastEntry(es, c);
    forall t: Time | (t, c) in store && After(cursor, (t, c)) ensures Contains(es, (t, c)) {
      DrainIsComplete(replies, cursor, limit, (t, c));
    }
    if c in latest {
      DrainIsSound(replies, cursor, limit, latest[c]);
      assert After(cursor, (latest[c].key.0, c));
    }
  }

  // On a store that does not change, the keys that remain bound the number of further pages.
  lemma {:induction false} PagesAreBounded(store: Snapshots, replies: seq<Reply>, cursor: Option<Key>, limit: nat)
    requires FollowsCursors(replies, cursor, limit)
    requires forall i :: 0 <= i < |replies| ==> replies[i].store == store && replies[i].next.Some?
    ensures |replies| + |Remaining(store, CursorAt(replies, cursor, |replies|))| <= |Remaining(store, cursor)|
  {
    hide IsPage, Remaining;
    if replies != [] {
      var n := |replies| - 1;
      var init := replies[..n];
      forall i | 0 <= i < n ensures Answers(init[i], CursorAt(init, cursor, i), limit) {
        assert Answers(replies[i], CursorAt(replies, cursor, i), limit);
      }
      PagesAreBounded(store, init, cursor, limit);
      assert Answers(replies[n], CursorAt(replies, cursor, n), limit);
      assert CursorAt(init, cursor, n) == CursorAt(replies, cursor, n);
      PagesShrink(store, CursorAt(replies, cursor, n), limit, replies[n].page, replies[n].next);
    }
  }

  ghost predicate Fixed(stores: seq<Snapshots>, store: Snapshots) {
    forall i :: 0 <= i < |stores| ==> stores[i] == store
  }

  // The time of the last cursor that was followed.
  ghost function SavedTime(replies: seq<Reply>): Option<Time> {
    if replies != [] && replies[|replies| - 1].next.Some? then Some(replies[|replies| - 1].next.value.0) else None
  }

  // `Run`: drain from the cursor and keep the newest snapshot of every canister. The i-th request
  // sees `stores[i]`; running out of them stands for a failing call. On a fixed store the run ends by
  // itself, and reports exactly the newest snapshots. `saved` is the time written for the next run.
  method Run(stores: seq<Snapshots>, start: Time, lowest: Principal, limit: nat)
    returns (report: Result<map<Principal, Entry>>, saved: Option<Time>, ghost replies: seq<Reply>)
    requires limit >= 1
    ensures |replies| <= |stores| && forall i :: 0 <= i < |replies| ==> replies[i].store == stores[i]
    ensures report.Ok? ==> IsDrain(replies, Some((start, lowest)), limit) && IsReport(report.value, Drained(replies))
    ensures report.Err? ==> |replies| == |stores| && forall i :: 0 <= i < |replies| ==> replies[i].next.Some?
    ensures FollowsCursors(replies, Some((start, lowest)), limit)
    ensures saved == SavedTime(if report.Ok? then replies[..|replies| - 1] else replies)
    ensures forall store :: Fixed(stores, store) && report.Ok? ==>
            IsNewestReport(store, Some((start, lowest)), report.value)
    ensures forall store :: Fixed(stores, store) && |Remaining(store, Some((start, lowest)))| < |stores| ==> report.Ok?
  {
    hide IsPage, FollowsCursors, IsReport, IsDrain, Drained, IsNewestReport, Remaining;
    NothingToReport();
    assert FollowsCursors([], Some((start, lowest)), limit) by { FollowsNothing(Some((start, lowest)), limit); }
    var cursor := Some((start, lowest));
    var latest: map<Principal, Entry> := map[];
    replies, saved := [], None;
    for i := 0 to |stores|
      invariant saved == SavedTime(replies)
      invariant |replies| == i && forall j :: 0 <= j < i ==> replies[j].store == stores[j] && replies[j].next.Some?
      invariant cursor.Some? && cursor == CursorAt(replies, Some((start, lowest)), i)
      invariant FollowsCursors(replies, Some((start, lowest)), limit)
      invariant IsReport(latest, Drained(replies))
      invariant forall c :: c in latest ==> !Less(cursor.value, latest[c].key)
    {
      var page, next := ListSnapshotsAfter(stores[i], cursor, limit);
      PageFacts(stores[i], cursor, limit, page, next);
      latest := KeepNewest(latest, Drained(replies), page, cursor);
      DrainedAppend(replies, Reply(stores[i], page, next));
      FollowsAppend(replies, Some((start, lowest)), limit, Reply(stores[i], page, next));
      replies := replies + [Reply(stores[i], page, next)];
      if next.None? {
        report := Ok(latest);
        DrainFromPages(replies, Some((start, lowest)), limit);
        FixedIsNewest(stores, replies, Some((start, lowest)), limit, latest);
        return;
      }
      cursor, saved := next, Some(next.value.0);
    }
    report := Err;
    FixedIsBounded(stores, replies, Some((start, lowest)), limit);
  }

  lemma FixedIsNewest(stores: seq<Snapshots>, replies: seq<Reply>, cursor: Option<Key>, limit: nat,
    latest: map<Principal, Entry>)
    requires IsDrain(replies, cursor, limit) && IsReport(latest, Drained(replies))
    requires |replies| <= |stores| && forall i :: 0 <= i < |replies| ==> replies[i].store == stores[i]
    ensures forall store :: Fixed(stores, store) ==> IsNewestReport(store, cursor, latest)
  {
    hide IsDrain, IsReport, Drained, IsNewestOf;
    forall store, c | Fixed(stores, store) ensures IsNewestOf(store, cursor, latest, c) {
      ReportIsNewest(store, replies, cursor, limit, latest, c);
    }
  }

  lemma FixedIsBounded(stores: seq<Snapshots>, replies: seq<Reply>, cursor: Option<Key>, limit: nat)
    requires FollowsCursors(replies, cursor, limit) && |replies| == |stores|
    requires forall i :: 0 <= i < |replies| ==> replies[i].store == stores[i] && replies[i].next.Some?
    ensures forall store :: Fixed(stores, store) ==> |stores| <= |Remaining(store, cursor)|
  {
    hide FollowsCursors, Remaining;
    forall store | Fixed(stores, store) ensures |stores| <= |Remaining(store, cursor)| {
      PagesAreBounded(store, replies, cursor, limit);
    }
  }

  lemma NothingToReport()
    ensures IsReport(map[], Drained([]))
  {
  }

  lemma FollowsNothing(cursor: Option<Key>, limit: nat)
    ensures FollowsCursors([], cursor, limit)
  {
  }

  lemma PageFacts(store: Snapshots, cursor: Option<Key>, limit: nat, page: seq<Entry>, next: Option<Key>)
    requires IsPage(store, cursor, limit, page, next)
    ensures Ascending(page) && forall i :: 0 <= i < |page| ==> After(cursor, page[i].key)
    ensures next.Some? ==> page != [] && next == Some(page[|page| - 1].key)
  {
  }

  lemma FollowsAppend(replies: seq<Reply>, cursor: Option<Key>, limit: nat, r: Reply)
    requires FollowsCursors(replies, cursor, limit)
    requires Answers(r, CursorAt(replies, cursor, |replies|), limit)
    ensures FollowsCursors(replies + [r], cursor, limit)
  {
    hide Answers;
    var all := replies + [r];
    forall i | 0 <= i < |all| ensures Answers(all[i], CursorAt(all, cursor, i), limit) {
      assert i < |replies| ==> all[i] == replies[i];
      assert CursorAt(all, cursor, i) == CursorAt(replies, cursor, i);
    }
  }

  lemma {:induction false} DrainedAppend(replies: seq<Reply>, r: Reply)
    ensures Drained(replies + [r]) == Drained(replies) + r.page
  {
    if replies == [] {
      assert [r][1..] == [] && Drained([]) == [];
    } else {
      DrainedAppend(replies[1..], r);
      assert (replies + [r])[1..] == replies[1..] + [r];
    }
  }

  lemma {:induction false} DrainFromPages(replies: seq<Reply>, cursor: Option<Key>, limit: nat)
    requires replies != [] && replies[|replies| - 1].next.None?
    requires forall i :: 0 <= i < |replies| - 1 ==> replies[i].next.Some?
    requires FollowsCursors(replies, cursor, limit)
    ensures IsDrain(replies, cursor, limit)
  {
    hide IsPage;
    assert Answers(replies[0], CursorAt(replies, cursor, 0), limit);
    if |replies| > 1 {
      var rest := replies[1..];
      forall i | 0 <= i < |rest| ensures Answers(rest[i], CursorAt(rest, replies[0].next, i), limit) {
        assert rest[i] == replies[i + 1];
        assert Answers(replies[i + 1], CursorAt(replies, cursor, i + 1), limit);
      }
      DrainFromPages(rest, replies[0].next, limit);
    }
  }

  // The inner loop over one page: a snapshot replaces the kept one unless it is older.
  method KeepNewest(latest: map<Principal, Entry>, ghost done: seq<Entry>, page: seq<Entry>, ghost cursor: Option<Key>)
    returns (r: map<Principal, Entry>)
    requires IsReport(latest, done) && Ascending(page) && cursor.Some?
    requires forall i :: 0 <= i < |page| ==> After(cursor, page[i].key)
    requires forall c :: c in latest ==> !Less(cursor.value, latest[c].key)
    ensures IsReport(r, done + page)
    ensures forall c :: c in r ==> !Less(if page == [] then cursor.value else page[|page| - 1].key, r[c].key)
  {
    r := latest;
    assert done + page[..0] == done;
    for i := 0 to |page|
      invariant IsReport(r, done + page[..i])
      invariant forall c :: c in r ==> !Less(if i == 0 then cursor.value else page[i - 1].key, r[c].key)
    {
      var c := page[i].key.1;
      assert (done + page[..i + 1])[..|done| + i] == done + page[..i];
      assert i > 0 ==> Less(page[i - 1].key, page[i].key);
      if c !in r || page[i].key.0 >= r[c].key.0 {
        r := r[c := page[i]];
      }
    }
    assert page[..|page|] == page;
  }
}
