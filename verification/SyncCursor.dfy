/** The order of principals, which compares lengths first, and its numbering. */
module PrincipalOrder {
  import opened Primitives
  import opened CanisterIds

  const MAX_LENGTH := 29

  // The bytes that the syncer takes for the smallest principal.
  const ZEROS: RawPrincipal := Zeros(MAX_LENGTH)

  function Zeros(n: nat): (p: RawPrincipal)
    ensures |p| == n
  {
    if n == 0 then [] else Zeros(n - 1) + [0]
  }

  // A principal is a length and its bytes, compared in that order.
  predicate PrincipalLess(a: RawPrincipal, b: RawPrincipal) {
    |a| < |b| || (|a| == |b| && BytesLess(a, b))
  }

  // The number of principals before this one.
  function Rank(p: RawPrincipal): nat {
    if p == [] then 0 else 256 * Rank(p[..|p| - 1]) + p[|p| - 1] + 1
  }

  // Among the principals of one length, the rank counts from the one with zero bytes.
  lemma {:induction false} RankIs(p: RawPrincipal)
    ensures Rank(p) == Rank(Zeros(|p|)) + FromBytes(p)
  {
    if p != [] {
      var n := |p| - 1;
      RankIs(p[..n]);
      assert Zeros(n + 1)[..n] == Zeros(n);
    }
  }

  lemma {:induction false} RankOfZeros(n: nat)
    ensures Rank(Zeros(n + 1)) == Rank(Zeros(n)) + Power256(n)
  {
    assert Zeros(n + 1)[..n] == Zeros(n);
    if n > 0 {
      RankOfZeros(n - 1);
      assert Zeros(n)[..n - 1] == Zeros(n - 1);
    }
  }

  lemma {:induction false} LongerRanksHigher(m: nat, n: nat)
    requires m < n
    ensures Rank(Zeros(m)) + Power256(m) <= Rank(Zeros(n))
    decreases n
  {
    hide Rank, Zeros, Power256;
    RankOfZeros(n - 1);
    if m < n - 1 {
      LongerRanksHigher(m, n - 1);
    }
  }

  // Ranks number the principals in their order, each with a number of its own.
  lemma RankOrder(a: RawPrincipal, b: RawPrincipal)
    ensures PrincipalLess(a, b) <==> Rank(a) < Rank(b)
    ensures Rank(a) == Rank(b) ==> a == b
  {
    RankIs(a);
    RankIs(b);
    NumberOfBytes(a);
    NumberOfBytes(b);
    hide Rank, Zeros, BytesLess, FromBytes;
    if |a| < |b| {
      LongerRanksHigher(|a|, |b|);
    } else if |b| < |a| {
      LongerRanksHigher(|b|, |a|);
    } else {
      BytesOrder(a, b);
    }
  }

  // Up to the longest length, exactly the other principals of that length come after the zero bytes.
  lemma AfterZerosIff(p: RawPrincipal)
    requires |p| <= MAX_LENGTH
    ensures Rank(ZEROS) < Rank(p) <==> |p| == MAX_LENGTH && p != ZEROS
  {
    RankOrder(ZEROS, p);
    RankOrder(p, ZEROS);
    if |p| == MAX_LENGTH {
      RankIs(p);
      RankIs(ZEROS);
      ZerosCountNothing(MAX_LENGTH);
    }
  }

  lemma {:induction false} ZerosCountNothing(n: nat)
    ensures FromBytes(Zeros(n)) == 0
  {
    if n > 0 {
      assert Zeros(n)[..n - 1] == Zeros(n - 1);
      ZerosCountNothing(n - 1);
    }
  }
}

/** Where the syncer starts, what its start cursor misses, and what a later run makes up for. */
module SyncCursor {
  import opened Primitives
  import opened CanisterIds
  import opened PrincipalOrder
  import opened MetricsStore
  import opened MetricsPaging

  // The start cursor of a run, and where it resumes.
  function StartCursor(start: Time): Option<Key> {
    Some((start, Rank(ZEROS)))
  }

  // The store holds snapshots of principals only.
  ghost predicate OfPrincipals(store: Snapshots) {
    forall k :: k in store ==> exists p: RawPrincipal :: |p| <= MAX_LENGTH && Rank(p) == k.1
  }

  // What the cursor can reach at its own time.
  predicate Reachable(p: RawPrincipal) {
    |p| == MAX_LENGTH && p != ZEROS
  }

  lemma CursorReachesIff(start: Time, p: RawPrincipal)
    requires |p| <= MAX_LENGTH
    ensures After(StartCursor(start), (start, Rank(p))) <==> Reachable(p)
  {
    AfterZerosIff(p);
  }

  // No drain from the start cursor returns a canister's snapshot of the start time.
  lemma CanistersAtStartAreMissed(replies: seq<Reply>, start: Time, limit: nat, id: CanisterPrincipal)
    requires IsDrain(replies, StartCursor(start), limit)
    ensures !Contains(Drained(replies), (start, Rank(id)))
  {
    CursorReachesIff(start, id);
    DrainAscends(replies, StartCursor(start), limit);
    hide Rank, IsDrain;
  }

  // The start cursor covers its whole start time exactly when every principal stored at that time has
  // the full length and not only zero bytes, which no canister id has.
  lemma StartCoversItsTimeIff(store: Snapshots, start: Time)
    requires OfPrincipals(store)
    ensures (forall k :: k in store && k.0 >= start ==> After(StartCursor(start), k)) <==>
            forall p: RawPrincipal :: |p| <= MAX_LENGTH && (start, Rank(p)) in store ==> Reachable(p)
  {
    forall p: RawPrincipal | |p| <= MAX_LENGTH
      ensures After(StartCursor(start), (start, Rank(p))) <==> Reachable(p)
    {
      CursorReachesIff(start, p);
    }
    hide Rank;
    if forall p: RawPrincipal :: |p| <= MAX_LENGTH && (start, Rank(p)) in store ==> Reachable(p) {
      forall k | k in store && k.0 >= start ensures After(StartCursor(start), k) {
        var p: RawPrincipal :| |p| <= MAX_LENGTH && Rank(p) == k.1;
        assert k == (k.0, Rank(p));
      }
    }
  }

  // --- A run that fails, and the next one ---

  ghost predicate AllOf(replies: seq<Reply>, store: Snapshots) {
    forall i :: 0 <= i < |replies| ==> replies[i].store == store
  }

  ghost predicate AllFollowed(replies: seq<Reply>) {
    forall i :: 0 <= i < |replies| ==> replies[i].next.Some?
  }

  // The pages of a run without its last one are again such pages.
  lemma InitFollows(store: Snapshots, replies: seq<Reply>, cursor: Option<Key>, limit: nat)
    requires FollowsCursors(replies, cursor, limit) && AllOf(replies, store) && AllFollowed(replies) && replies != []
    ensures var n := |replies| - 1;
            var init := replies[..n];
            && FollowsCursors(init, cursor, limit) && AllOf(init, store) && AllFollowed(init)
            && Drained(replies) == Drained(init) + replies[n].page
            && Answers(replies[n], if n == 0 then cursor else init[n - 1].next, limit)
            && replies[n].store == store && replies[n].next.Some?
  {
    hide Answers;
    var n := |replies| - 1;
    var init := replies[..n];
    assert Answers(replies[n], CursorAt(replies, cursor, n), limit) && replies == init + [replies[n]];
    DrainedAppend(init, replies[n]);
    forall i | 0 <= i < n ensures Answers(init[i], CursorAt(init, cursor, i), limit) {
      assert Answers(replies[i], CursorAt(replies, cursor, i), limit);
    }
  }

  // The pages of an unfinished drain hold exactly the keys up to its last cursor.
  lemma {:induction false} PagesReachTheirCursor(store: Snapshots, replies: seq<Reply>, cursor: Option<Key>, limit: nat,
    k: Key)
    requires FollowsCursors(replies, cursor, limit) && AllOf(replies, store) && AllFollowed(replies) && replies != []
    requires k in store && After(cursor, k)
    ensures Contains(Drained(replies), k) <==> !Less(replies[|replies| - 1].next.value, k)
    decreases |replies|
  {
    hide Drained, FollowsCursors, Answers, AllOf, Contains;
    InitFollows(store, replies, cursor, limit);
    var n := |replies| - 1;
    var init := replies[..n];
    LastPage(store, replies[n], if n == 0 then cursor else init[n - 1].next, limit, k);
    ContainsConcat(Drained(init), replies[n].page, k);
    if n > 0 {
      PagesReachTheirCursor(store, init, cursor, limit, k);
    } else {
      NothingDrained(init, k);
    }
  }

  lemma NothingDrained(replies: seq<Reply>, k: Key)
    requires replies == []
    ensures !Contains(Drained(replies), k)
  {
  }

  lemma ContainsConcat(a: seq<Entry>, b: seq<Entry>, k: Key)
    ensures Contains(a + b, k) <==> Contains(a, k) || Contains(b, k)
  {
    forall i | 0 <= i < |a| ensures (a + b)[i] == a[i] {
    }
    forall i | 0 <= i < |b| ensures (a + b)[|a| + i] == b[i] {
    }
    if Contains(a, k) {
      var i :| 0 <= i < |a| && a[i].key == k;
      assert (a + b)[i].key == k;
    }
    if Contains(b, k) {
      var i :| 0 <= i < |b| && b[i].key == k;
      assert (a + b)[|a| + i].key == k;
    }
  }

  lemma LastPage(store: Snapshots, r: Reply, cursor: Option<Key>, limit: nat, k: Key)
    requires Answers(r, cursor, limit) && r.store == store && r.next.Some? && k in store
    ensures Contains(r.page, k) <==> After(cursor, k) && !Less(r.next.value, k)
    ensures After(cursor, r.next.value)
  {
    if Contains(r.page, k) {
      var i :| 0 <= i < |r.page| && r.page[i].key == k;
      assert i < limit - 1 ==> Less(r.page[i].key, r.page[limit - 1].key);
    }
  }

  // A complete drain of a fixed store holds exactly the stored keys after its cursor.
  lemma DrainHoldsIff(store: Snapshots, replies: seq<Reply>, cursor: Option<Key>, limit: nat, k: Key)
    requires IsDrain(replies, cursor, limit) && AllOf(replies, store) && k in store
    ensures Contains(Drained(replies), k) <==> After(cursor, k)
  {
    DrainAscends(replies, cursor, limit);
    if After(cursor, k) {
      DrainIsComplete(replies, cursor, limit, k);
    }
    hide IsDrain, Drained;
  }

  // The next run starts at the time of the last cursor that the failed one followed. On a fixed store
  // the two runs together cover everything after the start exactly when, at that time, everything
  // beyond that cursor belongs to principals of the full length: canisters that share the time are lost.
  lemma ResumedRunCoversIff(store: Snapshots, first: seq<Reply>, second: seq<Reply>, start: Time, limit: nat)
    requires OfPrincipals(store) && AllOf(first, store) && AllOf(second, store)
    requires first != [] && AllFollowed(first) && FollowsCursors(first, StartCursor(start), limit)
    requires IsDrain(second, StartCursor(SavedTime(first).value), limit)
    ensures var cut := first[|first| - 1].next.value;
            (forall k :: k in store && After(StartCursor(start), k) ==>
               Contains(Drained(first), k) || Contains(Drained(second), k)) <==>
            forall p: RawPrincipal :: |p| <= MAX_LENGTH && (cut.0, Rank(p)) in store && cut.1 < Rank(p) ==> Reachable(p)
  {
    var cut := first[|first| - 1].next.value;
    CutIsAfterStart(store, first, StartCursor(start), limit);
    forall k | k in store && After(StartCursor(start), k)
      ensures Contains(Drained(first), k) || Contains(Drained(second), k) <==>
              !Less(cut, k) || After(StartCursor(cut.0), k)
    {
      PagesReachTheirCursor(store, first, StartCursor(start), limit, k);
      DrainHoldsIff(store, second, StartCursor(cut.0), limit, k);
    }
    hide Drained, IsDrain, FollowsCursors;
    BeyondTheCut(store, start, cut);
  }

  // Cursors only move forward.
  lemma {:induction false} CutIsAfterStart(store: Snapshots, replies: seq<Reply>, cursor: Option<Key>, limit: nat)
    requires FollowsCursors(replies, cursor, limit) && AllOf(replies, store) && AllFollowed(replies) && replies != []
    ensures After(cursor, replies[|replies| - 1].next.value)
    decreases |replies|
  {
    InitFollows(store, replies, cursor, limit);
    var n := |replies| - 1;
    var init := replies[..n];
    NextIsAfter(replies[n], if n == 0 then cursor else init[n - 1].next, limit);
    if n > 0 {
      hide FollowsCursors, Answers, Drained;
      CutIsAfterStart(store, init, cursor, limit);
    }
  }

  lemma NextIsAfter(r: Reply, cursor: Option<Key>, limit: nat)
    requires Answers(r, cursor, limit) && r.next.Some?
    ensures After(cursor, r.next.value)
  {
    assert After(cursor, r.page[limit - 1].key);
  }

  lemma BeyondTheCut(store: Snapshots, start: Time, cut: Key)
    requires OfPrincipals(store) && After(StartCursor(start), cut)
    ensures (forall k :: k in store && After(StartCursor(start), k) ==>
               !Less(cut, k) || After(StartCursor(cut.0), k)) <==>
            forall p: RawPrincipal :: |p| <= MAX_LENGTH && (cut.0, Rank(p)) in store && cut.1 < Rank(p) ==> Reachable(p)
  {
    forall p: RawPrincipal | |p| <= MAX_LENGTH
      ensures After(StartCursor(cut.0), (cut.0, Rank(p))) <==> Reachable(p)
    {
      CursorReachesIff(cut.0, p);
    }
    hide Rank;
    if forall k :: k in store && After(StartCursor(start), k) ==> !Less(cut, k) || After(StartCursor(cut.0), k) {
      forall p: RawPrincipal | |p| <= MAX_LENGTH && (cut.0, Rank(p)) in store && cut.1 < Rank(p) ensures Reachable(p) {
        var k := (cut.0, Rank(p));
        assert Less(cut, k) && After(StartCursor(start), k);
      }
    }
    if forall p: RawPrincipal :: |p| <= MAX_LENGTH && (cut.0, Rank(p)) in store && cut.1 < Rank(p) ==> Reachable(p) {
      forall k | k in store && Less(cut, k) ensures After(StartCursor(cut.0), k) {
        var p: RawPrincipal :| |p| <= MAX_LENGTH && Rank(p) == k.1;
        assert k == (k.0, Rank(p));
      }
    }
  }
}
