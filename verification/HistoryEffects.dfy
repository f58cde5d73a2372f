/** What each message of the history sync does to runs, calls and histories. */
module HistoryEffects {
  import opened Primitives
  import opened ChangeLog
  import opened HistorySync
  import TimerGuard

  // The message is the reply to this outstanding call.
  predicate Answers(s: System, e: Event, run: RunId, call: CallId) {
    && Outstanding(s, run, call) && (e.InfoReply? || e.DeletedReply? || e.FailedReply?)
    && e.run == run && e.call == call
  }

  // The message writes the history of the canister.
  predicate Writes(s: System, e: Event, c: Principal) {
    && (e.InfoReply? || e.DeletedReply?) && Outstanding(s, e.run, e.call) && s.runs[e.run][e.call].canister == c
    && (e.DeletedReply? ==> HistoryOf(s, c).info.Some?)
  }

  // Only the replies to a canister's own call write its history.
  lemma OthersUntouched(s: System, e: Event, c: Principal)
    requires Invariant(s) && !Writes(s, e, c)
    ensures HistoryOf(Step(s, e), c) == HistoryOf(s, c)
  {
    hide SingleFlight, CallsDistinct, HistoriesSound, Absorb, MarkDeleted, Tail, ReadsCurrent;
    if (e.InfoReply? || e.DeletedReply?) && Outstanding(s, e.run, e.call) {
      Current(s, e.run, e.call);
    }
  }

  lemma Current(s: System, run: RunId, call: CallId)
    requires ReadsCurrent(s) && Outstanding(s, run, call)
    ensures var p := s.runs[run][call]; p.snapshot == HistoryOf(s, p.canister).info && !IsFrozen(s, p.canister)
  {
    assert CallCurrent(s, s.runs[run][call]);
  }

  // A reply with a report brings the total up to date, and stores exactly the reported entries that lie
  // beyond the old total.
  lemma ReplyStores(s: System, e: Event)
    requires Invariant(s) && e.InfoReply? && Outstanding(s, e.run, e.call) && Possible(s, e)
    ensures var c := s.runs[e.run][e.call].canister;
            var h, h' := HistoryOf(s, c), HistoryOf(Step(s, e), c);
            && h'.info.Some? && h'.info.value.total == e.total && !h'.info.value.isDeleted
            && forall n: nat :: n in h'.at <==>
                 n in h.at || (InfoOrNew(h.info).total <= n < e.total && e.total - e.count <= n)
  {
    hide SingleFlight, CallsDistinct, Sound, Absorb, Tail;
    var c := s.runs[e.run][e.call].canister;
    var h, log := HistoryOf(s, c), LogOf(s, c);
    CallFinds(s, e.run, e.call, e.total, e.count);
    Current(s, e.run, e.call);
    ReplyAbsorbs(s, e.run, e.call, e.total, e.count);
    OneWritten(s, Step(s, e), c);
    AbsorbParts(h, log, e.total, e.count);
    hide Step, HistoriesSound, ReadsCurrent;
    var lo := FirstAdded(InfoOrNew(h.info), e.total - e.count);
    var more := Positions(lo, e.total - lo);
    forall n: nat ensures n in more <==> lo <= n < e.total {
      if lo <= n < e.total {
        assert more[n - lo] == n;
      }
    }
  }

  // A reply that the canister is gone freezes a known canister and changes nothing else of it.
  lemma DeletionFreezes(s: System, e: Event)
    requires Invariant(s) && e.DeletedReply? && Outstanding(s, e.run, e.call)
    ensures var c := s.runs[e.run][e.call].canister;
            var h, h' := HistoryOf(s, c), HistoryOf(Step(s, e), c);
            if h.info.None? then h' == h
            else h' == h.(info := h'.info) && h'.info == Some(h.info.value.(isDeleted := true))
  {
    hide SingleFlight, CallsDistinct, HistoriesSound;
    Current(s, e.run, e.call);
  }

  // A canister is frozen from the reply on that says it is gone, if it was known by then.
  lemma FrozenIff(s: System, e: Event, c: Principal)
    requires Invariant(s) && Possible(s, e)
    ensures IsFrozen(Step(s, e), c) <==> IsFrozen(s, c) || (e.DeletedReply? && Writes(s, e, c))
  {
    hide Invariant, Possible, Step;
    if !Writes(s, e, c) {
      OthersUntouched(s, e, c);
    } else if e.InfoReply? {
      ReplyStores(s, e);
      NotFrozen(s, e.run, e.call);
    } else {
      DeletionFreezes(s, e);
    }
  }

  lemma NotFrozen(s: System, run: RunId, call: CallId)
    requires Invariant(s) && Outstanding(s, run, call)
    ensures !IsFrozen(s, s.runs[run][call].canister)
  {
    Current(s, run, call);
  }

  // The message starts a batch of this run.
  predicate Starts(s: System, e: Event, run: RunId) {
    e.StartBatch? && e.run == run && run in s.runs && s.runs[run] == map[]
  }

  // A call is outstanding from the batch that asks about its canister until its reply.
  lemma OutstandingIff(s: System, e: Event, run: RunId, call: CallId)
    requires Possible(s, e)
    ensures Outstanding(Step(s, e), run, call) <==>
            || (Starts(s, e, run) && call < |e.ids| && !IsFrozen(s, e.ids[call]))
            || (Outstanding(s, run, call) && !Answers(s, e, run, call))
  {
    hide Absorb, MarkDeleted, Tail, IsFrozen;
  }

  // A run is in progress from the timer or the trigger that finds the guard free until it ends.
  lemma InProgressIff(s: System, e: Event, run: RunId)
    requires Invariant(s) && Possible(s, e)
    ensures run in Step(s, e).runs <==>
            || (!s.timer.running && e.TimerFires? && e.id in s.timer.scheduled && e.run == run)
            || (!s.timer.running && e.TriggerSync? && e.run == run)
            || (run in s.runs && !(e.EndRun? && e.run == run && s.runs[run] == map[]))
  {
    hide Absorb, MarkDeleted, Tail, HistoriesSound, ReadsCurrent, CallsDistinct;
  }
}
