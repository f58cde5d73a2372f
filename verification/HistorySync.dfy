/** One canister's change log: what is stored of it, and what was missed. */
module ChangeLog {
  import opened Primitives

  const CHANGES_TO_REQUEST: nat := 200

  datatype Origin = FromUser(user: Principal) | FromCanister(canister: Principal)

  // A change: when, by whom, and whether it is the creation of the canister.
  datatype Change = Change(timestamp: nat, origin: Origin, isCreation: bool)

  datatype ChangeInfo = ChangeInfo(total: nat, stored: nat, missed: seq<(nat, nat)>, isDeleted: bool)

  // `at` records the log position of every stored change; nothing reads it.
  datatype History = History(info: Option<ChangeInfo>, changes: seq<Change>, at: seq<nat>)

  const NO_HISTORY := History(None, [], [])

  function InfoOrNew(info: Option<ChangeInfo>): ChangeInfo {
    if info.Some? then info.value else ChangeInfo(0, 0, [], false)
  }

  function Positions(lo: nat, n: nat): (ps: seq<nat>)
    ensures |ps| == n && forall i :: 0 <= i < n ==> ps[i] == lo + i
  {
    seq(n, i => lo + i)
  }

  // The part of `process_canister_changes` after the await: `snapshot` was read before it.
  function Absorb(h: History, snapshot: Option<ChangeInfo>, total: nat, recent: seq<Change>): History {
    var info := InfoOrNew(snapshot);
    var start := SaturatingSub(total, |recent|);
    var known := Min(SaturatingSub(info.total, start), |recent|);
    var missed := if start > info.total then info.missed + [(info.total, start)] else info.missed;
    History(
      Some(ChangeInfo(total, info.stored + |recent| - known, missed, info.isDeleted)),
      h.changes + recent[known..],
      h.at + Positions(start + known, |recent| - known))
  }

  // The reply says that the canister no longer exists; an unknown canister stays unknown.
  function MarkDeleted(h: History, snapshot: Option<ChangeInfo>): History {
    if snapshot.Some? then h.(info := Some(snapshot.value.(isDeleted := true))) else h
  }

  predicate InMissed(missed: seq<(nat, nat)>, n: nat) {
    exists i :: 0 <= i < |missed| && missed[i].0 <= n < missed[i].1
  }

  function MissedCount(missed: seq<(nat, nat)>): int {
    if missed == [] then 0
    else MissedCount(missed[..|missed| - 1]) + missed[|missed| - 1].1 - missed[|missed| - 1].0
  }

  ghost predicate Ordered(missed: seq<(nat, nat)>, total: nat) {
    && (forall i :: 0 <= i < |missed| ==> missed[i].0 < missed[i].1 <= total)
    && (forall i, j :: 0 <= i < j < |missed| ==> missed[i].1 <= missed[j].0)
  }

  // The stored changes are the log's entries at ascending positions, and the positions below the
  // total split exactly into those and the missed ranges.
  ghost predicate Sound(h: History, log: seq<Change>) {
    && |h.changes| == |h.at|
    && (h.info.None? ==> h.changes == [])
    && (h.info.Some? ==>
          && h.info.value.total <= |log|
          && h.info.value.stored == |h.changes|
          && (forall i :: 0 <= i < |h.at| ==> h.at[i] < h.info.value.total && h.changes[i] == log[h.at[i]])
          && (forall i, j :: 0 <= i < j < |h.at| ==> h.at[i] < h.at[j])
          && Ordered(h.info.value.missed, h.info.value.total)
          && (forall n :: 0 <= n < h.info.value.total ==> (n in h.at <==> !InMissed(h.info.value.missed, n)))
          && h.info.value.stored + MissedCount(h.info.value.missed) == h.info.value.total)
  }

  // The log as the management canister reports it: the total, and the last `count` entries.
  function Tail(log: seq<Change>, total: nat, count: nat): seq<Change>
    requires count <= total <= |log|
  {
    log[total - count..total]
  }

  lemma InMissedAppend(missed: seq<(nat, nat)>, r: (nat, nat), n: nat)
    ensures InMissed(missed + [r], n) <==> InMissed(missed, n) || r.0 <= n < r.1
  {
    var all := missed + [r];
    if InMissed(missed, n) {
      var i :| 0 <= i < |missed| && missed[i].0 <= n < missed[i].1;
      assert all[i] == missed[i];
    }
    if r.0 <= n < r.1 {
      assert all[|missed|] == r;
    }
  }

  lemma OrderedAppend(missed: seq<(nat, nat)>, total: nat, start: nat)
    requires Ordered(missed, total) && total < start
    ensures Ordered(missed + [(total, start)], start)
    ensures MissedCount(missed + [(total, start)]) == MissedCount(missed) + start - total
  {
    assert (missed + [(total, start)])[..|missed|] == missed;
  }

  // Every entry is the log's entry at its position, positions ascend, and they are those of `at`
  // and the ones from `lo` on.
  ghost predicate Extends(at: seq<nat>, after: seq<nat>, entries: seq<Change>, log: seq<Change>, total: nat, lo: nat) {
    && |after| == |entries| && total <= |log|
    && (forall i :: 0 <= i < |after| ==> after[i] < total && entries[i] == log[after[i]])
    && (forall i, j :: 0 <= i < j < |after| ==> after[i] < after[j])
    && (forall n :: n in after <==> n in at || lo <= n < total)
  }

  // The positions that a reply adds to the stored ones.
  lemma AbsorbPositions(h: History, log: seq<Change>, total: nat, lo: nat)
    requires Sound(h, log) && InfoOrNew(h.info).total <= lo <= total <= |log|
    ensures Extends(h.at, h.at + Positions(lo, total - lo), h.changes + log[lo..total], log, total, lo)
  {
    var at := h.at + Positions(lo, total - lo);
    forall n | lo <= n < total ensures n in at {
      assert at[|h.at| + (n - lo)] == n;
    }
  }

  // The first position that a reply with `count` entries adds.
  function FirstAdded(info: ChangeInfo, start: nat): nat {
    if info.total <= start then start else info.total
  }

  function MissedAfter(info: ChangeInfo, start: nat): seq<(nat, nat)> {
    if start > info.total then info.missed + [(info.total, start)] else info.missed
  }

  // What absorbing a reply computes, in terms of log positions.
  lemma AbsorbParts(h: History, log: seq<Change>, total: nat, count: nat)
    requires count <= total <= |log| && InfoOrNew(h.info).total <= total
    ensures var info, start := InfoOrNew(h.info), total - count;
            var lo := FirstAdded(info, start);
            Absorb(h, h.info, total, Tail(log, total, count)) ==
            History(
              Some(ChangeInfo(total, info.stored + total - lo, MissedAfter(info, start), info.isDeleted)),
              h.changes + log[lo..total],
              h.at + Positions(lo, total - lo))
  {
    var info, start := InfoOrNew(h.info), total - count;
    var known := FirstAdded(info, start) - start;
    assert Tail(log, total, count)[known..] == log[start + known..total];
  }

  // The ranges in `missed` are those of `info` and [info.total, lo).
  ghost predicate MissesMore(info: ChangeInfo, missed: seq<(nat, nat)>, total: nat, lo: nat) {
    && Ordered(missed, total)
    && MissedCount(missed) == MissedCount(info.missed) + lo - info.total
    && forall n :: 0 <= n < total ==> (InMissed(missed, n) <==> InMissed(info.missed, n) || info.total <= n < lo)
  }

  lemma MissedAfterSplits(info: ChangeInfo, start: nat, total: nat)
    requires Ordered(info.missed, info.total) && info.total <= total && start <= total
    ensures MissesMore(info, MissedAfter(info, start), total, FirstAdded(info, start))
  {
    if start > info.total {
      OrderedAppend(info.missed, info.total, start);
      forall n | 0 <= n < total
        ensures InMissed(MissedAfter(info, start), n) <==> InMissed(info.missed, n) || info.total <= n < start
      {
        InMissedAppend(info.missed, (info.total, start), n);
      }
    }
  }

  lemma NotMissedBeyond(info: ChangeInfo, n: nat)
    requires Ordered(info.missed, info.total) && n >= info.total
    ensures !InMissed(info.missed, n)
  {
  }

  // When nothing wrote the history since the snapshot was read, absorbing a reply about a later
  // state of the growing log keeps the split exact.
  lemma AbsorbSound(h: History, log: seq<Change>, total: nat, count: nat)
    requires Sound(h, log) && count <= total <= |log|
    requires InfoOrNew(h.info).total <= total
    ensures Sound(Absorb(h, h.info, total, Tail(log, total, count)), log)
  {
    hide Absorb, Sound, MissedAfter, MissedCount, Positions, Extends, MissesMore, Splits;
    var info, start := InfoOrNew(h.info), total - count;
    var lo := FirstAdded(info, start);
    SoundSplits(h, log);
    assert Ordered(info.missed, info.total) by { SplitsOrdered(info, h.at); }
    AbsorbParts(h, log, total, count);
    AbsorbPositions(h, log, total, lo);
    MissedAfterSplits(info, start, total);
    hide InfoOrNew, FirstAdded, Ordered, Tail;
    SplitIsSound(info, log, total, lo, h.at, h.changes, MissedAfter(info, start));
  }

  // The stored positions and the missed ranges split [0, total).
  ghost predicate Splits(info: ChangeInfo, at: seq<nat>) {
    && Ordered(info.missed, info.total)
    && (forall n :: n in at ==> n < info.total)
    && (forall n :: 0 <= n < info.total ==> (n in at <==> !InMissed(info.missed, n)))
    && (forall n :: n >= info.total ==> !InMissed(info.missed, n))
  }

  lemma SplitsOrdered(info: ChangeInfo, at: seq<nat>)
    requires Splits(info, at)
    ensures Ordered(info.missed, info.total)
  {
  }

  lemma SoundSplits(h: History, log: seq<Change>)
    requires Sound(h, log)
    ensures var info := InfoOrNew(h.info);
            Splits(info, h.at) && info.stored == |h.at| == |h.changes| &&
              info.stored + MissedCount(info.missed) == info.total
  {
    var info := InfoOrNew(h.info);
    forall n | n >= info.total ensures !InMissed(info.missed, n) {
      NotMissedBeyond(info, n);
    }
  }

  // The absorbed history, part by part.
  lemma SplitIsSound(info: ChangeInfo, log: seq<Change>, total: nat, lo: nat, at: seq<nat>, changes: seq<Change>,
    missed: seq<(nat, nat)>)
    requires info.total <= lo <= total <= |log| && info.stored == |at| == |changes|
    requires info.stored + MissedCount(info.missed) == info.total
    requires Extends(at, at + Positions(lo, total - lo), changes + log[lo..total], log, total, lo)
    requires MissesMore(info, missed, total, lo) && Splits(info, at)
    ensures Sound(History(Some(ChangeInfo(total, info.stored + total - lo, missed, info.isDeleted)),
                          changes + log[lo..total], at + Positions(lo, total - lo)), log)
  {
    hide InMissed, MissedCount, Ordered;
    assert |Positions(lo, total - lo)| == total - lo;
    hide Positions;
  }

  // Growing the remote log leaves a sound history sound.
  lemma LogGrows(h: History, log: seq<Change>, c: Change)
    requires Sound(h, log)
    ensures Sound(h, log + [c])
  {
  }

  // Two read-await-write steps of one canister overlap: both read the same snapshot. The split is
  // exact afterwards if and only if the first reply brought nothing that was not stored before.
  lemma OverlapSoundIff(h: History, log: seq<Change>, total: nat, count: nat, laterTotal: nat, laterCount: nat)
    requires Sound(h, log) && count <= total <= |log| && laterCount <= laterTotal <= |log|
    requires InfoOrNew(h.info).total <= total && InfoOrNew(h.info).total <= laterTotal
    ensures var once := Absorb(h, h.info, total, Tail(log, total, count));
            var twice := Absorb(once, h.info, laterTotal, Tail(log, laterTotal, laterCount));
            Sound(once, log) && (Sound(twice, log) <==> count == 0 || total == InfoOrNew(h.info).total)
  {
    hide Sound;
    AbsorbSound(h, log, total, count);
    AbsorbSound(h, log, laterTotal, laterCount);
    AbsorbParts(h, log, total, count);
    AbsorbParts(h, log, laterTotal, laterCount);
    var info, start := InfoOrNew(h.info), total - count;
    var once := Absorb(h, h.info, total, Tail(log, total, count));
    var later := Absorb(h, h.info, laterTotal, Tail(log, laterTotal, laterCount));
    var twice := Absorb(once, h.info, laterTotal, Tail(log, laterTotal, laterCount));
    assert twice.info == later.info && |twice.changes| - |once.changes| == |later.changes| - |h.changes|;
    if count == 0 || total == info.total {
      assert once.changes == h.changes && once.at == h.at;
      assert twice == later;
    } else {
      assert |once.changes| > |h.changes|;
      StoredCountsChanges(later, log);
      if Sound(twice, log) {
        StoredCountsChanges(twice, log);
        assert false;
      }
    }
  }

  lemma StoredCountsChanges(h: History, log: seq<Change>)
    requires Sound(h, log) && h.info.Some?
    ensures h.info.value.stored == |h.changes|
  {
  }
}

/** The history sync as a state machine: runs, batches of calls, and the replies to them. */
module HistorySync {
  import opened Primitives
  import opened ChangeLog
  import TimerGuard

  type RunId = nat

  // A call of a batch, by the place of its id in the batch.
  type CallId = nat

  // A call that has been issued: its canister, the info read before it, and the length of the log
  // at that time.
  datatype Pending = Pending(canister: Principal, snapshot: Option<ChangeInfo>, issuedAt: nat)

  // `runs` holds the outstanding calls of the current batch of every run in progress.
  datatype System = System(
    histories: map<Principal, History>,
    logs: map<Principal, seq<Change>>,
    timer: TimerGuard.Timer,
    runs: map<RunId, map<CallId, Pending>>)

  datatype Event =
    | TimerFires(id: TimerGuard.TimerId, run: RunId)
    | TriggerSync(run: RunId)
    | StartBatch(run: RunId, ids: seq<Principal>)
    | InfoReply(run: RunId, call: CallId, total: nat, count: nat)
    | DeletedReply(run: RunId, call: CallId)
    | FailedReply(run: RunId, call: CallId)
    | EndRun(run: RunId, next: TimerGuard.TimerId)
    | RemoteChange(canister: Principal, change: Change)

  function HistoryOf(s: System, c: Principal): History {
    if c in s.histories then s.histories[c] else NO_HISTORY
  }

  function LogOf(s: System, c: Principal): seq<Change> {
    if c in s.logs then s.logs[c] else []
  }

  predicate IsFrozen(s: System, c: Principal) {
    HistoryOf(s, c).info.Some? && HistoryOf(s, c).info.value.isDeleted
  }

  function Read(s: System, c: Principal): Pending {
    Pending(c, HistoryOf(s, c).info, |LogOf(s, c)|)
  }

  // The reads before the awaits of a batch, one for each place; deleted canisters are not asked about.
  function ReadBatch(s: System, ids: seq<Principal>): map<CallId, Pending> {
    map i: nat | 0 <= i < |ids| && !IsFrozen(s, ids[i]) :: Read(s, ids[i])
  }

  predicate Outstanding(s: System, run: RunId, call: CallId) {
    run in s.runs && call in s.runs[run]
  }

  function Done(s: System, run: RunId, call: CallId): System
    requires run in s.runs
  {
    s.(runs := s.runs[run := s.runs[run] - {call}])
  }

  function Store(s: System, c: Principal, h: History): System {
    s.(histories := s.histories[c := h])
  }

  function Step(s: System, e: Event): System {
    match e
    case TimerFires(id, run) =>
      var (timer, started) := TimerGuard.Fire(s.timer, id);
      if started then s.(timer := timer, runs := s.runs[run := map[]]) else s.(timer := timer)
    case TriggerSync(run) =>
      var (timer, started) := TimerGuard.Trigger(s.timer);
      if started then s.(timer := timer, runs := s.runs[run := map[]]) else s
    case StartBatch(run, ids) =>
      if run in s.runs && s.runs[run] == map[] then s.(runs := s.runs[run := ReadBatch(s, ids)]) else s
    case InfoReply(run, call, total, count) =>
      if Outstanding(s, run, call) && count <= total <= |LogOf(s, s.runs[run][call].canister)| then
        var p := s.runs[run][call];
        Store(Done(s, run, call), p.canister,
              Absorb(HistoryOf(s, p.canister), p.snapshot, total, Tail(LogOf(s, p.canister), total, count)))
      else s
    case DeletedReply(run, call) =>
      if !Outstanding(s, run, call) then s
      else
        var p := s.runs[run][call];
        if p.snapshot.None? then Done(s, run, call)
        else Store(Done(s, run, call), p.canister, MarkDeleted(HistoryOf(s, p.canister), p.snapshot))
    case FailedReply(run, call) => if Outstanding(s, run, call) then Done(s, run, call) else s
    case EndRun(run, next) =>
      if run in s.runs && s.runs[run] == map[] then
        s.(runs := s.runs - {run}, timer := TimerGuard.Finish(s.timer, next))
      else s
    case RemoteChange(c, change) => s.(logs := s.logs[c := LogOf(s, c) + [change]])
  }

  // A reply describes the log at some time since its call was issued.
  predicate PossibleReply(s: System, run: RunId, call: CallId, total: nat, count: nat)
    requires Outstanding(s, run, call)
  {
    var p := s.runs[run][call];
    p.issuedAt <= total <= |LogOf(s, p.canister)| && count <= total && count <= CHANGES_TO_REQUEST
  }

  // Run ids are new, batches are drawn from a range, and replies are possible ones.
  ghost predicate Possible(s: System, e: Event) {
    match e
    case TimerFires(_, run) => run !in s.runs
    case TriggerSync(run) => run !in s.runs
    case StartBatch(_, ids) => NoDuplicates(ids)
    case InfoReply(run, call, total, count) => Outstanding(s, run, call) ==> PossibleReply(s, run, call, total, count)
    case _ => true
  }

  // At most one run is in progress, exactly when the guard is held.
  ghost predicate SingleFlight(s: System) {
    && TimerGuard.Sound(s.timer)
    && (s.runs != map[] <==> s.timer.running)
    && (forall r, q :: r in s.runs && q in s.runs ==> r == q)
  }

  // No two outstanding calls concern the same canister.
  ghost predicate CallsDistinct(s: System) {
    forall r: RunId, i: CallId, q: RunId, j: CallId ::
      Outstanding(s, r, i) && Outstanding(s, q, j) && s.runs[r][i].canister == s.runs[q][j].canister ==>
        r == q && i == j
  }

  // Nothing is written between the read and the write of an outstanding call.
  ghost predicate ReadCurrent(h: History, log: seq<Change>, p: Pending) {
    && p.snapshot == h.info && !InfoOrNew(h.info).isDeleted
    && InfoOrNew(h.info).total <= p.issuedAt <= |log|
  }

  ghost predicate CallCurrent(s: System, p: Pending) {
    ReadCurrent(HistoryOf(s, p.canister), LogOf(s, p.canister), p)
  }

  ghost predicate ReadsCurrent(s: System) {
    forall r: RunId, i: CallId :: Outstanding(s, r, i) ==> CallCurrent(s, s.runs[r][i])
  }

  ghost predicate HistoriesSound(s: System) {
    forall c :: c in s.histories ==> Sound(s.histories[c], LogOf(s, c))
  }

  ghost predicate Invariant(s: System) {
    SingleFlight(s) && CallsDistinct(s) && ReadsCurrent(s) && HistoriesSound(s)
  }

  function Start(id: TimerGuard.TimerId): System {
    System(map[], map[], TimerGuard.Setup(id), map[])
  }

  // What remains outstanding after a reply.
  lemma DoneLeaves(s: System, run: RunId, call: CallId)
    requires Outstanding(s, run, call)
    ensures var t := Done(s, run, call);
            && t.histories == s.histories && t.logs == s.logs
            && (forall c :: HistoryOf(t, c) == HistoryOf(s, c) && LogOf(t, c) == LogOf(s, c))
            && (forall r: RunId, i: CallId :: Outstanding(t, r, i) <==> Outstanding(s, r, i) && (r, i) != (run, call))
            && (forall r: RunId, i: CallId :: Outstanding(t, r, i) ==> t.runs[r][i] == s.runs[r][i])
  {
  }

  // After a reply no outstanding call concerns its canister.
  lemma DoneKeepsInvariant(s: System, run: RunId, call: CallId)
    requires Invariant(s) && Outstanding(s, run, call)
    ensures var t := Done(s, run, call);
            Invariant(t) && forall r: RunId, i: CallId :: Outstanding(t, r, i) ==>
              t.runs[r][i].canister != s.runs[run][call].canister
  {
    hide Sound, ReadCurrent, HistoryOf, LogOf;
    var t := Done(s, run, call);
    DoneLeaves(s, run, call);
    assert SingleFlight(t) by {
      assert run in t.runs && run in s.runs;
    }
    hide SingleFlight, Outstanding, Done;
    forall r: RunId, i: CallId | Outstanding(t, r, i) ensures CallCurrent(t, t.runs[r][i]) {
      assert CallCurrent(s, s.runs[r][i]);
    }
  }

  lemma StoreKeepsInvariant(s: System, c: Principal, h: History)
    requires Invariant(s) && Sound(h, LogOf(s, c))
    requires forall r: RunId, i: CallId :: Outstanding(s, r, i) ==> s.runs[r][i].canister != c
    ensures Invariant(Store(s, c, h))
  {
    hide Sound, ReadCurrent;
    var t := Store(s, c, h);
    forall d | d in t.histories ensures Sound(t.histories[d], LogOf(t, d)) {
      assert LogOf(t, d) == LogOf(s, d);
    }
    assert forall r: RunId, i: CallId :: Outstanding(t, r, i) <==> Outstanding(s, r, i);
    assert CallsDistinct(t);
    hide CallsDistinct;
    forall r: RunId, i: CallId | Outstanding(t, r, i) ensures CallCurrent(t, t.runs[r][i]) {
      assert CallCurrent(s, s.runs[r][i]);
    }
  }

  // What a reply finds: the history is sound, and untouched since the snapshot was read.
  lemma ReplyFinds(s: System, run: RunId, call: CallId)
    requires HistoriesSound(s) && ReadsCurrent(s) && Outstanding(s, run, call)
    ensures var p := s.runs[run][call];
            var h, log := HistoryOf(s, p.canister), LogOf(s, p.canister);
            && Sound(h, log) && ReadCurrent(h, log, p)
            && (h.info.Some? ==> Sound(MarkDeleted(h, h.info), log))
  {
    hide ReadCurrent;
    assert CallCurrent(s, s.runs[run][call]);
  }

  lemma ReplyKeepsInvariant(s: System, e: Event)
    requires Invariant(s) && Possible(s, e) && (e.InfoReply? || e.DeletedReply? || e.FailedReply?)
    ensures Invariant(Step(s, e))
  {
    hide Sound, SingleFlight, CallsDistinct, Absorb, MarkDeleted, HistoryOf, LogOf, Tail;
    if Outstanding(s, e.run, e.call) {
      var c := s.runs[e.run][e.call].canister;
      var h, log := HistoryOf(s, c), LogOf(s, c);
      ReplyFinds(s, e.run, e.call);
      DoneKeepsInvariant(s, e.run, e.call);
      DoneLeaves(s, e.run, e.call);
      hide Invariant;
      if e.InfoReply? {
        AbsorbSound(h, log, e.total, e.count);
        StoreKeepsInvariant(Done(s, e.run, e.call), c, Absorb(h, h.info, e.total, Tail(log, e.total, e.count)));
      } else if e.DeletedReply? && h.info.Some? {
        StoreKeepsInvariant(Done(s, e.run, e.call), c, MarkDeleted(h, h.info));
      }
    }
  }

  lemma RunKeepsInvariantAtEnds(s: System, e: Event)
    requires Invariant(s) && Possible(s, e)
    requires e.TimerFires? || e.TriggerSync? || e.EndRun?
    ensures Invariant(Step(s, e))
  {
    hide Sound, ReadCurrent;
    var t := Step(s, e);
    assert forall r: RunId, i: CallId :: Outstanding(t, r, i) <==> Outstanding(s, r, i);
    assert SingleFlight(t) && CallsDistinct(t) && HistoriesSound(t);
    hide SingleFlight, CallsDistinct, HistoriesSound;
    forall r: RunId, i: CallId | Outstanding(t, r, i) ensures CallCurrent(t, t.runs[r][i]) {
      assert CallCurrent(s, s.runs[r][i]);
    }
  }

  lemma HistoryWithinLog(s: System, c: Principal)
    requires HistoriesSound(s)
    ensures InfoOrNew(HistoryOf(s, c).info).total <= |LogOf(s, c)|
  {
    assert c in s.histories ==> Sound(s.histories[c], LogOf(s, c));
  }

  // The ids that a batch asks about are distinct.
  ghost predicate AsksOnce(s: System, ids: seq<Principal>) {
    forall i, j :: 0 <= i < j < |ids| && ids[i] == ids[j] ==> IsFrozen(s, ids[i])
  }

  // Whatever a batch repeats, its reads are current.
  lemma BatchReadsCurrent(s: System, run: RunId, ids: seq<Principal>)
    requires SingleFlight(s) && HistoriesSound(s) && run in s.runs && s.runs[run] == map[]
    ensures var t := Step(s, StartBatch(run, ids));
            && SingleFlight(t) && HistoriesSound(t) && ReadsCurrent(t)
            && (forall r: RunId, i: CallId :: Outstanding(t, r, i) <==>
                 r == run && 0 <= i < |ids| && !IsFrozen(s, ids[i]))
            && (forall i: CallId :: Outstanding(t, run, i) ==> t.runs[run][i] == Read(s, ids[i]))
  {
    hide Sound;
    var t := Step(s, StartBatch(run, ids));
    assert t.runs.Keys == s.runs.Keys;
    assert forall r :: r in s.runs ==> r == run;
    assert forall r: RunId, i: CallId :: Outstanding(t, r, i) <==> r == run && i in ReadBatch(s, ids);
    forall r: RunId, i: CallId | Outstanding(t, r, i) ensures CallCurrent(t, t.runs[r][i]) {
      HistoryWithinLog(s, ids[i]);
    }
  }

  // A batch keeps the invariant exactly when it asks about no canister twice.
  lemma BatchKeepsInvariantIff(s: System, run: RunId, ids: seq<Principal>)
    requires Invariant(s) && run in s.runs && s.runs[run] == map[]
    ensures Invariant(Step(s, StartBatch(run, ids))) <==> AsksOnce(s, ids)
  {
    var t := Step(s, StartBatch(run, ids));
    BatchReadsCurrent(s, run, ids);
    hide Sound, SingleFlight, HistoriesSound, ReadsCurrent, IsFrozen, HistoryOf, LogOf, Step, Outstanding;
    if !AsksOnce(s, ids) {
      var i: CallId, j: CallId :| 0 <= i < j < |ids| && ids[i] == ids[j] && !IsFrozen(s, ids[i]);
      assert Outstanding(t, run, i) && Outstanding(t, run, j);
    }
  }

  lemma RemoteChangeKeepsInvariant(s: System, c: Principal, change: Change)
    requires Invariant(s)
    ensures Invariant(Step(s, RemoteChange(c, change)))
  {
    hide Sound;
    var t := Step(s, RemoteChange(c, change));
    forall d | d in t.histories ensures Sound(t.histories[d], LogOf(t, d)) {
      if d == c {
        LogGrows(s.histories[c], LogOf(s, c), change);
      } else {
        assert LogOf(t, d) == LogOf(s, d);
      }
    }
    assert forall r: RunId, i: CallId :: Outstanding(t, r, i) <==> Outstanding(s, r, i);
    assert CallsDistinct(t) && SingleFlight(t);
    hide CallsDistinct, SingleFlight;
    forall r: RunId, i: CallId | Outstanding(t, r, i) ensures CallCurrent(t, t.runs[r][i]) {
      var d := s.runs[r][i].canister;
      assert CallCurrent(s, s.runs[r][i]) && |LogOf(t, d)| >= |LogOf(s, d)| && HistoryOf(t, d) == HistoryOf(s, d);
    }
  }

  lemma StepKeepsInvariant(s: System, e: Event)
    requires Invariant(s) && Possible(s, e)
    ensures Invariant(Step(s, e))
  {
    match e
    case InfoReply(_, _, _, _) => ReplyKeepsInvariant(s, e);
    case DeletedReply(_, _) => ReplyKeepsInvariant(s, e);
    case FailedReply(_, _) => ReplyKeepsInvariant(s, e);
    case RemoteChange(c, change) => RemoteChangeKeepsInvariant(s, c, change);
    case StartBatch(run, ids) =>
      hide Invariant;
      if run in s.runs && s.runs[run] == map[] {
        BatchKeepsInvariantIff(s, run, ids);
      }
    case _ => RunKeepsInvariantAtEnds(s, e);
  }

  ghost function Run(s: System, events: seq<Event>): System {
    if events == [] then s else Step(Run(s, events[..|events| - 1]), events[|events| - 1])
  }

  ghost predicate PossibleRun(s: System, events: seq<Event>) {
    events != [] ==>
      PossibleRun(s, events[..|events| - 1]) && Possible(Run(s, events[..|events| - 1]), events[|events| - 1])
  }

  lemma {:induction false} RunKeepsInvariant(s: System, events: seq<Event>)
    requires Invariant(s) && PossibleRun(s, events)
    ensures Invariant(Run(s, events))
  {
    if events != [] {
      RunKeepsInvariant(s, events[..|events| - 1]);
      StepKeepsInvariant(Run(s, events[..|events| - 1]), events[|events| - 1]);
    }
  }

  // After every run of the canister, however replies, new changes, timers and manual triggers
  // interleave, each history splits its log exactly into stored and missed changes.
  lemma HistoriesStaySound(id: TimerGuard.TimerId, events: seq<Event>, c: Principal)
    requires PossibleRun(Start(id), events)
    ensures var s := Run(Start(id), events);
            SingleFlight(s) && CallsDistinct(s) && Sound(HistoryOf(s, c), LogOf(s, c))
  {
    RunKeepsInvariant(Start(id), events);
  }

  // Stored changes are never lost or reordered.
  lemma ChangesOnlyGrow(s: System, e: Event, c: Principal)
    ensures HistoryOf(s, c).changes <= HistoryOf(Step(s, e), c).changes
  {
  }

  lemma StepKeepsFrozen(s: System, e: Event, c: Principal)
    requires Invariant(s) && IsFrozen(s, c)
    ensures HistoryOf(Step(s, e), c) == HistoryOf(s, c)
  {
    hide Sound, Absorb, HistoriesSound, CallsDistinct, SingleFlight;
    if (e.InfoReply? || e.DeletedReply?) && Outstanding(s, e.run, e.call) {
      assert CallCurrent(s, s.runs[e.run][e.call]);
    }
  }

  // A deleted canister's history never changes again.
  lemma {:induction false} DeletedStaysFrozen(s: System, events: seq<Event>, c: Principal)
    requires Invariant(s) && PossibleRun(s, events) && IsFrozen(s, c)
    ensures HistoryOf(Run(s, events), c) == HistoryOf(s, c)
  {
    hide Step, Invariant;
    if events != [] {
      var init := events[..|events| - 1];
      DeletedStaysFrozen(s, init, c);
      RunKeepsInvariant(s, init);
      StepKeepsFrozen(Run(s, init), events[|events| - 1], c);
    }
  }

  // A possible reply is absorbed into its canister's history, and leaves the other calls outstanding.
  lemma ReplyAbsorbs(s: System, run: RunId, call: CallId, total: nat, count: nat)
    requires Outstanding(s, run, call) && PossibleReply(s, run, call, total, count)
    ensures var p, t := s.runs[run][call], Step(s, InfoReply(run, call, total, count));
            var log := LogOf(s, p.canister);
            && t.histories ==
               s.histories[p.canister := Absorb(HistoryOf(s, p.canister), p.snapshot, total, Tail(log, total, count))]
            && t.logs == s.logs
            && t.runs == s.runs[run := s.runs[run] - {call}]
  {
    hide Absorb, Tail;
  }

  // Two outstanding calls for one canister, in whichever runs: once both replies are in, the split
  // is exact if and only if the first of them brought nothing that was not stored before.
  lemma OverlapBreaksIff(s: System, first: Event, second: Event)
    requires ReadsCurrent(s) && HistoriesSound(s) && first.InfoReply? && second.InfoReply?
    requires Outstanding(s, first.run, first.call) && Outstanding(s, second.run, second.call)
    requires (first.run, first.call) != (second.run, second.call)
    requires s.runs[first.run][first.call].canister == s.runs[second.run][second.call].canister
    requires Possible(s, first) && Possible(s, second)
    ensures var c := s.runs[first.run][first.call].canister;
            HistoriesSound(Step(Step(s, first), second)) <==>
            first.count == 0 || first.total == InfoOrNew(HistoryOf(s, c).info).total
  {
    hide Sound, Absorb, Tail, ReadsCurrent, HistoriesSound, Step, HistoryOf, LogOf, InfoOrNew;
    var c := s.runs[first.run][first.call].canister;
    CallFinds(s, first.run, first.call, first.total, first.count);
    CallFinds(s, second.run, second.call, second.total, second.count);
    ReplyAbsorbs(s, first.run, first.call, first.total, first.count);
    var u := Step(s, first);
    OneWritten(s, u, c);
    assert Outstanding(u, second.run, second.call) &&
      PossibleReply(u, second.run, second.call, second.total, second.count);
    ReplyAbsorbs(u, second.run, second.call, second.total, second.count);
    hide Outstanding, PossibleReply;
    OverlapSoundIff(HistoryOf(s, c), LogOf(s, c), first.total, first.count, second.total, second.count);
    SoundElsewhere(s, Step(u, second), c);
  }

  lemma CallFinds(s: System, run: RunId, call: CallId, total: nat, count: nat)
    requires ReadsCurrent(s) && HistoriesSound(s)
    requires Outstanding(s, run, call) && PossibleReply(s, run, call, total, count)
    ensures var p := s.runs[run][call];
            var h, log := HistoryOf(s, p.canister), LogOf(s, p.canister);
            Sound(h, log) && p.snapshot == h.info && InfoOrNew(h.info).total <= total <= |log| && count <= total
  {
    hide Sound;
    ReplyFinds(s, run, call);
  }

  lemma OneWritten(s: System, t: System, c: Principal)
    requires c in t.histories && t.logs == s.logs
    ensures HistoryOf(t, c) == t.histories[c] && forall d :: LogOf(t, d) == LogOf(s, d)
  {
  }

  // When only one history differs, soundness is a matter of that one.
  lemma SoundElsewhere(s: System, t: System, c: Principal)
    requires HistoriesSound(s) && t.logs == s.logs
    requires c in t.histories && t.histories - {c} == s.histories - {c}
    ensures HistoriesSound(t) <==> Sound(t.histories[c], LogOf(s, c))
  {
    hide Sound;
    assert forall d :: LogOf(t, d) == LogOf(s, d);
    forall d | d in t.histories && d != c ensures Sound(t.histories[d], LogOf(t, d)) {
      assert d in t.histories - {c} && (t.histories - {c})[d] == t.histories[d] &&
        (s.histories - {c})[d] == s.histories[d];
    }
  }

  // A batch that asks about a canister twice breaks the split exactly when the reply that comes
  // first brings something new.
  lemma RepeatedIdBreaksIff(s: System, run: RunId, ids: seq<Principal>, first: Event, second: Event)
    requires Invariant(s) && run in s.runs && s.runs[run] == map[]
    requires first.InfoReply? && second.InfoReply? && first.run == second.run == run
    requires first.call < |ids| && second.call < |ids| && first.call != second.call
    requires ids[first.call] == ids[second.call] && !IsFrozen(s, ids[first.call])
    requires Possible(Step(s, StartBatch(run, ids)), first) && Possible(Step(s, StartBatch(run, ids)), second)
    ensures HistoriesSound(Step(Step(Step(s, StartBatch(run, ids)), first), second)) <==>
            first.count == 0 || first.total == InfoOrNew(HistoryOf(s, ids[first.call]).info).total
  {
    var u := Step(s, StartBatch(run, ids));
    BatchReadsCurrent(s, run, ids);
    assert Outstanding(u, run, first.call) && Outstanding(u, run, second.call);
    assert HistoryOf(u, ids[first.call]) == HistoryOf(s, ids[first.call]);
    hide Sound, Step, Possible;
    OverlapBreaksIff(u, first, second);
  }

  // Without the guard a second run in progress breaks the split.
  lemma SecondRunBreaksSoundness(change: Change)
    ensures var s := System(map[], map[0 := [change]], TimerGuard.Timer(true, None, {}),
                            map[0 := map[0 := Pending(0, None, 1)], 1 := map[0 := Pending(0, None, 1)]]);
            var t := Step(Step(s, InfoReply(0, 0, 1, 1)), InfoReply(1, 0, 1, 1));
            CallsDistinct(s.(runs := s.runs - {1})) && ReadsCurrent(s) && HistoriesSound(s) && !HistoriesSound(t)
  {
    var s := System(map[], map[0 := [change]], TimerGuard.Timer(true, None, {}),
                    map[0 := map[0 := Pending(0, None, 1)], 1 := map[0 := Pending(0, None, 1)]]);
    assert Outstanding(s, 0, 0) && Outstanding(s, 1, 0);
    OverlapBreaksIff(s, InfoReply(0, 0, 1, 1), InfoReply(1, 0, 1, 1));
  }
}

/** The stored side of the history sync: the change map, its index, and the loop that fills them. */
module HistoryStore {
  import opened Primitives
  import opened ChangeLog

  type ChangeId = nat

  datatype StoredChange = StoredChange(canister: Principal, change: Change)

  // A newly created canister and the canister that created it, as reported to the backend.
  datatype Creation = Creation(child: Principal, parent: Principal)

  // The principal that a change is indexed under.
  function OriginPrincipal(origin: Origin): Principal {
    match origin
    case FromUser(user) => user
    case FromCanister(canister) => canister
  }

  function Creations(canister: Principal, changes: seq<Change>): seq<Creation> {
    if changes == [] then []
    else
      var last := changes[|changes| - 1];
      Creations(canister, changes[..|changes| - 1]) +
      if last.isCreation && last.origin.FromCanister? then [Creation(canister, last.origin.canister)] else []
  }

  ghost predicate OrderListsChanges(changes: map<ChangeId, StoredChange>, order: Principal -> seq<ChangeId>) {
    && (forall c, id :: id in order(c) <==> id in changes && changes[id].canister == c)
    && (forall c :: NoDuplicates(order(c)))
  }

  ghost function Lookup(changes: map<ChangeId, StoredChange>, ids: seq<ChangeId>): seq<Change>
    requires forall id :: id in ids ==> id in changes
  {
    seq(|ids|, i requires 0 <= i < |ids| && ids[i] in changes => changes[ids[i]].change)
  }

  ghost function AppendFor<T>(f: Principal -> seq<T>, c: Principal, x: T): Principal -> seq<T> {
    (d: Principal) => if d == c then f(d) + [x] else f(d)
  }

  lemma InsertListed(changes: map<ChangeId, StoredChange>, order: Principal -> seq<ChangeId>, id: ChangeId,
    s: StoredChange)
    requires OrderListsChanges(changes, order) && id !in changes
    ensures var after := AppendFor(order, s.canister, id);
            && OrderListsChanges(changes[id := s], after)
            && Lookup(changes[id := s], after(s.canister)) == Lookup(changes, order(s.canister)) + [s.change]
            && forall d :: d != s.canister ==> Lookup(changes[id := s], after(d)) == Lookup(changes, order(d))
  {
    var after := AppendFor(order, s.canister, id);
    forall c, x ensures x in after(c) <==> x in changes[id := s] && changes[id := s][x].canister == c {
      assert x in order(c) <==> x in changes && changes[x].canister == c;
    }
    forall c ensures NoDuplicates(after(c)) {
      assert NoDuplicates(order(c)) && id !in order(c);
    }
    forall d | d != s.canister ensures Lookup(changes[id := s], after(d)) == Lookup(changes, order(d)) {
      assert forall i :: 0 <= i < |order(d)| ==> order(d)[i] in changes && order(d)[i] != id;
    }
    assert forall i :: 0 <= i < |order(s.canister)| ==> order(s.canister)[i] in changes && order(s.canister)[i] != id;
  }

  class HistoryRepository {
    var infos: map<Principal, ChangeInfo>
    var changes: map<ChangeId, StoredChange>
    var byCanister: set<(Principal, nat, ChangeId)>
    var byOrigin: set<(Principal, nat, ChangeId)>
    // Per canister, the ids of its changes in insertion order and their log positions.
    ghost var order: Principal -> seq<ChangeId>
    ghost var positions: Principal -> seq<nat>

    // Both indexes mirror the map, and `order` lists every change of a canister once.
    ghost predicate Valid()
      reads `changes, `byCanister, `byOrigin, `order
    {
      && (forall c, t, id :: (c, t, id) in byCanister <==>
           id in changes && changes[id].canister == c && changes[id].change.timestamp == t)
      && (forall p, t, id :: (p, t, id) in byOrigin <==>
           id in changes && OriginPrincipal(changes[id].change.origin) == p && changes[id].change.timestamp == t)
      && OrderListsChanges(changes, order)
    }

    ghost function HistoryOf(c: Principal): History
      requires Valid()
      reads this
    {
      History(if c in infos then Some(infos[c]) else None, Lookup(changes, order(c)), positions(c))
    }

    constructor ()
      ensures Valid() && forall c :: HistoryOf(c) == NO_HISTORY
    {
      infos, changes, byCanister, byOrigin := map[], map[], {}, {};
      order, positions := c => [], c => [];
    }

    method InsertChange(c: Principal, change: Change, ghost position: nat)
      requires Valid()
      modifies this`changes, this`byCanister, this`byOrigin, this`order, this`positions
      ensures Valid()
      ensures HistoryOf(c) == old(HistoryOf(c)).(
                changes := old(HistoryOf(c)).changes + [change], at := old(HistoryOf(c)).at + [position])
      ensures forall d :: d != c ==> HistoryOf(d) == old(HistoryOf(d))
    {
      var id := FreshId(changes.Keys);
      InsertListed(changes, order, id, StoredChange(c, change));
      changes := changes[id := StoredChange(c, change)];
      byOrigin := byOrigin + {(OriginPrincipal(change.origin), change.timestamp, id)};
      byCanister := byCanister + {(c, change.timestamp, id)};
      order, positions := AppendFor(order, c, id), AppendFor(positions, c, position);
    }

    method UpsertCanisterChangeInfo(c: Principal, info: ChangeInfo)
      requires Valid()
      modifies this`infos
      ensures Valid() && HistoryOf(c) == old(HistoryOf(c)).(info := Some(info))
      ensures forall d :: d != c ==> HistoryOf(d) == old(HistoryOf(d))
    {
      infos := infos[c := info];
    }

    // The loop over the reply: entries from position `known` on are stored.
    method InsertNewChanges(c: Principal, recent: seq<Change>, known: nat, start: nat)
      returns (count: nat, creations: seq<Creation>)
      requires Valid()
      modifies this`changes, this`byCanister, this`byOrigin, this`order, this`positions
      ensures Valid() && count == |Added(recent, known, start, |recent|)|
      ensures HistoryOf(c) == History(old(HistoryOf(c)).info,
                                      old(HistoryOf(c)).changes + Added(recent, known, start, |recent|),
                                      old(HistoryOf(c)).at + AddedAt(recent, known, start, |recent|))
      ensures forall d :: d != c ==> HistoryOf(d) == old(HistoryOf(d))
      ensures creations == Creations(c, Added(recent, known, start, |recent|))
    {
      hide HistoryRepository.Valid, HistoryRepository.HistoryOf, Added, AddedAt, Creations;
      ghost var h := HistoryOf(c);
      count, creations := 0, [];
      NothingAdded(c, recent, known, start);
      for i := 0 to |recent|
        invariant Valid() && count == |Added(recent, known, start, i)|
        invariant forall d :: d != c ==> HistoryOf(d) == old(HistoryOf(d))
        invariant HistoryOf(c) ==
                  History(h.info, h.changes + Added(recent, known, start, i), h.at + AddedAt(recent, known, start, i))
        invariant creations == Creations(c, Added(recent, known, start, i))
      {
        AddedStep(recent, known, start, i);
        if start + i >= known {
          CreationsStep(c, Added(recent, known, start, i), recent[i]);
          if recent[i].isCreation && recent[i].origin.FromCanister? {
            creations := creations + [Creation(c, recent[i].origin.canister)];
          }
          InsertChange(c, recent[i], start + i);
          count := count + 1;
        }
      }
    }

    // The write half of `process_canister_changes`.
    method StoreReply(c: Principal, snapshot: Option<ChangeInfo>, total: nat, recent: seq<Change>)
      returns (creations: seq<Creation>)
      requires Valid()
      modifies this
      ensures Valid() && HistoryOf(c) == Absorb(old(HistoryOf(c)), snapshot, total, recent)
      ensures forall d :: d != c ==> HistoryOf(d) == old(HistoryOf(d))
      ensures old(HistoryOf(c)).changes <= HistoryOf(c).changes
      ensures creations == Creations(c, HistoryOf(c).changes[|old(HistoryOf(c)).changes|..])
    {
      AbsorbIsAdded(HistoryOf(c), snapshot, total, recent);
      hide HistoryRepository.Valid, HistoryRepository.HistoryOf, Absorb, Added, AddedAt;
      var info := if snapshot.Some? then snapshot.value else ChangeInfo(0, 0, [], false);
      var known := info.total;
      var start := SaturatingSub(total, |recent|);
      if start > known {
        info := info.(missed := info.missed + [(known, start)]);
      }
      var count: nat;
      count, creations := InsertNewChanges(c, recent, known, start);
      UpsertCanisterChangeInfo(c, info.(total := total, stored := info.stored + count));
    }
  }

  // The entries among the first `i` of the reply that are not known yet, and their positions.
  function Added(recent: seq<Change>, known: nat, start: nat, i: nat): seq<Change>
    requires i <= |recent|
  {
    recent[Min(i, SaturatingSub(known, start))..i]
  }

  function AddedAt(recent: seq<Change>, known: nat, start: nat, i: nat): seq<nat>
    requires i <= |recent|
  {
    var skipped := Min(i, SaturatingSub(known, start));
    Positions(start + skipped, i - skipped)
  }

  lemma CreationsStep(c: Principal, changes: seq<Change>, next: Change)
    ensures Creations(c, changes + [next]) ==
            Creations(c, changes) +
            if next.isCreation && next.origin.FromCanister? then [Creation(c, next.origin.canister)] else []
  {
    assert (changes + [next])[..|changes|] == changes;
  }

  // Exactly the creations by canisters are reported, each under the canister that made it.
  lemma {:induction false} CreationsAre(c: Principal, changes: seq<Change>, child: Principal, parent: Principal)
    ensures Creation(child, parent) in Creations(c, changes) <==>
            && child == c
            && exists i :: 0 <= i < |changes| && changes[i].isCreation && changes[i].origin == FromCanister(parent)
  {
    if changes != [] {
      var init, last := changes[..|changes| - 1], changes[|changes| - 1];
      CreationsAre(c, init, child, parent);
      if i :| 0 <= i < |init| && init[i].isCreation && init[i].origin == FromCanister(parent) {
        assert changes[i] == init[i];
      }
      if i :| 0 <= i < |changes| && changes[i].isCreation && changes[i].origin == FromCanister(parent) {
        assert i < |init| ==> init[i] == changes[i];
      }
    }
  }

  lemma NothingAdded(c: Principal, recent: seq<Change>, known: nat, start: nat)
    ensures Added(recent, known, start, 0) == [] && AddedAt(recent, known, start, 0) == [] && Creations(c, []) == []
  {
  }

  lemma AbsorbIsAdded(h: History, snapshot: Option<ChangeInfo>, total: nat, recent: seq<Change>)
    ensures var info, start := InfoOrNew(snapshot), SaturatingSub(total, |recent|);
            Absorb(h, snapshot, total, recent) ==
            History(
              Some(ChangeInfo(total, info.stored + |Added(recent, info.total, start, |recent|)|,
                              if start > info.total then info.missed + [(info.total, start)] else info.missed,
                              info.isDeleted)),
              h.changes + Added(recent, info.total, start, |recent|),
              h.at + AddedAt(recent, info.total, start, |recent|))
  {
  }

  lemma AddedStep(recent: seq<Change>, known: nat, start: nat, i: nat)
    requires i < |recent|
    ensures Added(recent, known, start, i + 1) ==
            if start + i >= known then Added(recent, known, start, i) + [recent[i]] else Added(recent, known, start, i)
    ensures AddedAt(recent, known, start, i + 1) ==
            if start + i >= known then AddedAt(recent, known, start, i) + [start + i]
            else AddedAt(recent, known, start, i)
  {
  }
}
