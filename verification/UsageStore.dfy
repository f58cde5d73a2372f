/** The usage maps, the call that fills them, and what sequences of calls bill. */
module UsageStore {
  import opened Primitives
  import opened UsageBilling

  datatype Reading = Reading(canister: Principal, usage: Usage)

  function EntryOf(owners: map<Principal, ProjectId>, month: Month, r: Reading): Entry {
    Entry(month, r.canister, r.usage, if r.canister in owners then Some(owners[r.canister]) else None)
  }

  function Entries(owners: map<Principal, ProjectId>, month: Month, readings: seq<Reading>): (es: seq<Entry>) {
    seq(|readings|, i requires 0 <= i < |readings| => EntryOf(owners, month, readings[i]))
  }

  // --- What one call does, in terms of its readings and the owners of the canisters ---

  // The last reading of a canister in a call.
  function LastReading(readings: seq<Reading>, c: Principal): Option<Usage> {
    if readings == [] then None
    else if readings[|readings| - 1].canister == c then Some(readings[|readings| - 1].usage)
    else LastReading(readings[..|readings| - 1], c)
  }

  // How far the readings of a canister move its meter in one field, starting from `from`; a meter that
  // runs backwards moves nothing.
  function Moved(readings: seq<Reading>, c: Principal, from: Usage, i: nat): nat
    requires i < FIELDS
  {
    if readings == [] then 0
    else
      var init, last := readings[..|readings| - 1], readings[|readings| - 1];
      Moved(init, c, from, i) +
      if last.canister != c then 0
      else
        var before := LastReading(init, c);
        SaturatingSub(last.usage[i], (if before.Some? then before.value else from)[i])
  }

  ghost predicate Concerns(owners: map<Principal, ProjectId>, readings: seq<Reading>, c: Principal) {
    c in owners && LastReading(readings, c).Some?
  }

  // The owned canisters with a reading have their last one stored, and their owner indexed.
  ghost predicate StoresLast(
    l: Ledger, t: Ledger, owners: map<Principal, ProjectId>, month: Month, readings: seq<Reading>)
  {
    forall c, k: Month ::
      if k == month && Concerns(owners, readings, c)
      then && (c, k) in t.absolute && t.absolute[(c, k)] == LastReading(readings, c).value
           && (c, k) in t.monthProject && t.monthProject[(c, k)] == owners[c]
      else && ((c, k) in t.absolute <==> (c, k) in l.absolute)
           && ((c, k) in l.absolute ==> t.absolute[(c, k)] == l.absolute[(c, k)])
           && ((c, k) in t.monthProject <==> (c, k) in l.monthProject)
           && ((c, k) in l.monthProject ==> t.monthProject[(c, k)] == l.monthProject[(c, k)])
  }

  // Their counters of the month grow by how far the readings move the meter from the reading stored
  // before: this month's, or else last month's.
  ghost predicate BillsOwners(
    l: Ledger, t: Ledger, owners: map<Principal, ProjectId>, month: Month, readings: seq<Reading>)
  {
    forall p, k: Month, c, i | 0 <= i < FIELDS ::
      Get(t.canisterUsage, (p, k, c))[i] ==
      if k == month && Concerns(owners, readings, c) && owners[c] == p
      then BilledTo(l, month, readings, p, c, i) else Get(l.canisterUsage, (p, k, c))[i]
  }

  // What the readings bring the counter to, saturating.
  function BilledTo(l: Ledger, month: Month, readings: seq<Reading>, p: ProjectId, c: Principal, i: nat): nat
    requires i < FIELDS
  {
    Min(U64_MAX, Get(l.canisterUsage, (p, month, c))[i] + Moved(readings, c, PreviousAbsolute(l, c, month), i))
  }

  // A call stores the last reading of every owned canister, and bills to the owner how far the
  // readings move the meter; other canisters, months and projects are left alone.
  lemma {:induction false} UpsertIs(l: Ledger, owners: map<Principal, ProjectId>, month: Month, readings: seq<Reading>)
    ensures var t := RecordAll(l, Entries(owners, month, readings));
            StoresLast(l, t, owners, month, readings) && BillsOwners(l, t, owners, month, readings)
  {
    if readings != [] {
      var init, r := readings[..|readings| - 1], readings[|readings| - 1];
      UpsertIs(l, owners, month, init);
      EntriesStep(l, owners, month, init, r);
      var u := RecordAll(l, Entries(owners, month, init));
      hide RecordAll, StoresLast, BillsOwners;
      assert readings == init + [r];
      LastStep(l, u, owners, month, init, r);
      BillsStep(l, u, owners, month, init, r);
    } else {
      assert Entries(owners, month, readings) == [];
    }
  }

  lemma EntriesStep(l: Ledger, owners: map<Principal, ProjectId>, month: Month, init: seq<Reading>, r: Reading)
    ensures RecordAll(l, Entries(owners, month, init + [r])) ==
            Record(RecordAll(l, Entries(owners, month, init)), EntryOf(owners, month, r))
  {
    var es := Entries(owners, month, init + [r]);
    assert es[..|es| - 1] == Entries(owners, month, init) && es[|es| - 1] == EntryOf(owners, month, r);
  }

  lemma ReadingsStep(init: seq<Reading>, r: Reading, c: Principal, from: Usage, i: nat)
    requires i < FIELDS
    ensures LastReading(init + [r], c) == if r.canister == c then Some(r.usage) else LastReading(init, c)
    ensures Moved(init + [r], c, from, i) ==
            Moved(init, c, from, i) +
            if r.canister != c then 0
            else SaturatingSub(r.usage[i], (if LastReading(init, c).Some? then LastReading(init, c).value else from)[i])
  {
    assert (init + [r])[..|init|] == init;
  }

  lemma LastStep(l: Ledger, u: Ledger, owners: map<Principal, ProjectId>, month: Month, init: seq<Reading>, r: Reading)
    requires StoresLast(l, u, owners, month, init)
    ensures StoresLast(l, Record(u, EntryOf(owners, month, r)), owners, month, init + [r])
  {
    forall c ensures LastReading(init + [r], c) == if r.canister == c then Some(r.usage) else LastReading(init, c) {
      ReadingsStep(init, r, c, NO_USAGE, 0);
    }
    hide LastReading, AddUsage, CalculateUsageDelta;
  }

  lemma RecordAt(u: Ledger, e: Entry, p: ProjectId, k: Month, c: Principal, i: nat)
    requires i < FIELDS
    ensures Get(Record(u, e).canisterUsage, (p, k, c))[i] ==
            if e.owner == Some(p) && e.month == k && e.canister == c
            then SaturatingAdd(Get(u.canisterUsage, (p, k, c))[i],
              SaturatingSub(e.usage[i], PreviousAbsolute(u, c, k)[i]))
            else Get(u.canisterUsage, (p, k, c))[i]
  {
    hide PreviousAbsolute;
  }

  lemma BillsStep(l: Ledger, u: Ledger, owners: map<Principal, ProjectId>, month: Month, init: seq<Reading>, r: Reading)
    requires StoresLast(l, u, owners, month, init) && BillsOwners(l, u, owners, month, init)
    ensures BillsOwners(l, Record(u, EntryOf(owners, month, r)), owners, month, init + [r])
  {
    var e := EntryOf(owners, month, r);
    var t := Record(u, e);
    forall p, k: Month, c, i | 0 <= i < FIELDS
      ensures Get(t.canisterUsage, (p, k, c))[i] ==
              if k == month && Concerns(owners, init + [r], c) && owners[c] == p
              then BilledTo(l, month, init + [r], p, c, i)
              else Get(l.canisterUsage, (p, k, c))[i]
    {
      RecordAt(u, e, p, k, c, i);
      ReadingsStep(init, r, c, PreviousAbsolute(l, c, month), i);
      FromStored(l, u, owners, month, init, c);
      NotConcerned(init, c, PreviousAbsolute(l, c, month), i);
      BillsAt(l, u, owners, month, init, p, k, c, i);
      hide StoresLast, BillsOwners, LastReading, Moved, PreviousAbsolute, Record, Get;
    }
    hide Record, Get, Concerns, BilledTo;
  }

  lemma BillsAt(l: Ledger, u: Ledger, owners: map<Principal, ProjectId>, month: Month, init: seq<Reading>,
    p: ProjectId, k: Month, c: Principal, i: nat)
    requires BillsOwners(l, u, owners, month, init) && i < FIELDS
    ensures Get(u.canisterUsage, (p, k, c))[i] ==
            if k == month && Concerns(owners, init, c) && owners[c] == p then BilledTo(l, month, init, p, c, i)
            else Get(l.canisterUsage, (p, k, c))[i]
  {
    hide Get, Moved, Concerns, PreviousAbsolute;
  }

  lemma FromStored(l: Ledger, u: Ledger, owners: map<Principal, ProjectId>, month: Month, init: seq<Reading>,
    c: Principal)
    requires StoresLast(l, u, owners, month, init)
    ensures c in owners ==>
              PreviousAbsolute(u, c, month) ==
              if LastReading(init, c).Some? then LastReading(init, c).value else PreviousAbsolute(l, c, month)
  {
    hide LastReading;
    assert month > 0 ==> ((c, month - 1) in u.absolute <==> (c, month - 1) in l.absolute);
  }

  lemma {:induction false} NotConcerned(readings: seq<Reading>, c: Principal, from: Usage, i: nat)
    requires i < FIELDS
    ensures LastReading(readings, c).None? ==> Moved(readings, c, from, i) == 0
  {
    if readings != [] {
      NotConcerned(readings[..|readings| - 1], c, from, i);
    }
  }

  // With one reading, the counter of the month grows by the difference to the reading stored before.
  lemma OneReadingBills(l: Ledger, owners: map<Principal, ProjectId>, month: Month, r: Reading, i: nat)
    requires r.canister in owners && i < FIELDS
    ensures var t, key := RecordAll(l, Entries(owners, month, [r])), (owners[r.canister], month, r.canister);
            var before := if (r.canister, month) in l.absolute then l.absolute[(r.canister, month)]
                          else if month > 0 && (r.canister, month - 1) in l.absolute
                          then l.absolute[(r.canister, month - 1)] else NO_USAGE;
            && (r.canister, month) in t.absolute && t.absolute[(r.canister, month)] == r.usage
            && Get(t.canisterUsage, key)[i] ==
               SaturatingAdd(Get(l.canisterUsage, key)[i], SaturatingSub(r.usage[i], before[i]))
  {
    UpsertIs(l, owners, month, [r]);
    ReadingsStep([], r, r.canister, PreviousAbsolute(l, r.canister, month), i);
    assert [] + [r] == [r];
    assert Concerns(owners, [r], r.canister);
    hide RecordAll, LastReading, Moved;
  }

  // Sending a call again, with room in the counters, changes nothing exactly when all readings of each
  // owned canister are equal.
  lemma ReplayedCallIff(l: Ledger, owners: map<Principal, ProjectId>, month: Month, readings: seq<Reading>)
    requires ProjectTotals(l)
    requires var once := RecordAll(l, Entries(owners, month, readings));
             forall j, i :: 0 <= j < |readings| && 0 <= i < FIELDS && readings[j].canister in owners ==>
               Get(once.canisterUsage, (owners[readings[j].canister], month, readings[j].canister))[i] < U64_MAX
    ensures var es := Entries(owners, month, readings);
            RecordAll(RecordAll(l, es), es) == RecordAll(l, es) <==>
            forall j, k | 0 <= j < |readings| && 0 <= k < |readings| && readings[j].canister in owners &&
                          readings[j].canister == readings[k].canister :: readings[j].usage == readings[k].usage
  {
    var es := Entries(owners, month, readings);
    hide RecordAll, ProjectTotals;
    assert Batch(es, month);
    assert forall j :: 0 <= j < |readings| ==> es[j] == EntryOf(owners, month, readings[j]);
    forall j, i | 0 <= j < |es| && 0 <= i < FIELDS && es[j].owner.Some?
      ensures Get(RecordAll(l, es).canisterUsage, (es[j].owner.value, month, es[j].canister))[i] < U64_MAX
    {
      assert readings[j].canister in owners;
    }
    ReplayNeedsEqualReadings(l, es, month);
    hide Get;
    if forall j, k | 0 <= j < |es| && 0 <= k < |es| && SharesOwned(es[j], es[k]) :: es[j].usage == es[k].usage {
      forall j, k | 0 <= j < |readings| && 0 <= k < |readings| && readings[j].canister in owners &&
                    readings[j].canister == readings[k].canister
        ensures readings[j].usage == readings[k].usage
      {
        assert SharesOwned(es[j], es[k]);
      }
    }
  }

  // --- Sequences of calls ---

  datatype UsageCall = UsageCall(owners: map<Principal, ProjectId>, month: Month, readings: seq<Reading>)

  function EntriesOf(call: UsageCall): seq<Entry> {
    Entries(call.owners, call.month, call.readings)
  }

  ghost function RunCalls(l: Ledger, calls: seq<UsageCall>): Ledger {
    if calls == [] then l else RecordAll(RunCalls(l, calls[..|calls| - 1]), EntriesOf(calls[|calls| - 1]))
  }

  // The last reading of a canister in the calls of one month.
  ghost function LastOfMonth(calls: seq<UsageCall>, c: Principal, month: Month): Option<Usage> {
    if calls == [] then None
    else
      var last := calls[|calls| - 1];
      if last.month == month && LastReading(last.readings, c).Some? then LastReading(last.readings, c)
      else LastOfMonth(calls[..|calls| - 1], c, month)
  }

  ghost predicate ReadIn(calls: seq<UsageCall>, i: int, j: int, c: Principal) {
    0 <= i < |calls| && 0 <= j < |calls[i].readings| && calls[i].readings[j].canister == c
  }

  // Over the calls the canister belongs to `p`, the months never go back, and its meters never run
  // backwards.
  ghost predicate MeterCalls(calls: seq<UsageCall>, c: Principal, p: ProjectId) {
    && (forall i, j :: ReadIn(calls, i, j, c) ==> c in calls[i].owners && calls[i].owners[c] == p)
    && (forall i, j, i', j' ::
          ReadIn(calls, i, j, c) && ReadIn(calls, i', j', c) && (i < i' || (i == i' && j < j')) ==>
            calls[i].month <= calls[i'].month && AtMost(calls[i].readings[j].usage, calls[i'].readings[j'].usage))
  }

  ghost function AllEntries(calls: seq<UsageCall>): seq<Entry> {
    if calls == [] then [] else AllEntries(calls[..|calls| - 1]) + EntriesOf(calls[|calls| - 1])
  }

  lemma {:induction false} RecordConcat(l: Ledger, a: seq<Entry>, b: seq<Entry>)
    ensures RecordAll(l, a + b) == RecordAll(RecordAll(l, a), b)
    decreases |b|
  {
    hide Record;
    if b == [] {
      assert a + b == a;
    } else {
      assert (a + b)[..|a + b| - 1] == a + b[..|b| - 1];
      RecordConcat(l, a, b[..|b| - 1]);
    }
  }

  lemma {:induction false} RunCallsIs(l: Ledger, calls: seq<UsageCall>)
    ensures RunCalls(l, calls) == RecordAll(l, AllEntries(calls))
  {
    if calls != [] {
      RunCallsIs(l, calls[..|calls| - 1]);
      RecordConcat(l, AllEntries(calls[..|calls| - 1]), EntriesOf(calls[|calls| - 1]));
    }
  }

  lemma {:induction false} LastInEntries(es: seq<Entry>, call: UsageCall, readings: seq<Reading>, c: Principal,
    month: Month)
    ensures LastIn(es + Entries(call.owners, call.month, readings), c, month) ==
            if call.month == month && LastReading(readings, c).Some? then LastReading(readings, c)
            else LastIn(es, c, month)
    decreases |readings|
  {
    var entries := Entries(call.owners, call.month, readings);
    if readings == [] {
      assert es + entries == es;
    } else {
      var init := readings[..|readings| - 1];
      assert (es + entries)[..|es + entries| - 1] == es + Entries(call.owners, call.month, init);
      LastInEntries(es, call, init, c, month);
    }
  }

  lemma {:induction false} LastOfMonthIs(calls: seq<UsageCall>, c: Principal, month: Month)
    ensures LastIn(AllEntries(calls), c, month) == LastOfMonth(calls, c, month)
  {
    if calls != [] {
      var init, last := calls[..|calls| - 1], calls[|calls| - 1];
      LastOfMonthIs(init, c, month);
      LastInEntries(AllEntries(init), last, last.readings, c, month);
    }
  }

  // An entry stems from a reading of some call.
  lemma {:induction false} EntryStems(calls: seq<UsageCall>, n: nat) returns (i: nat, j: nat)
    requires n < |AllEntries(calls)|
    ensures i < |calls| && j < |calls[i].readings|
    ensures AllEntries(calls)[n] == EntryOf(calls[i].owners, calls[i].month, calls[i].readings[j])
  {
    var init, last := calls[..|calls| - 1], calls[|calls| - 1];
    if n < |AllEntries(init)| {
      i, j := EntryStems(init, n);
    } else {
      i, j := |init|, n - |AllEntries(init)|;
    }
  }

  lemma {:induction false} CallsAreMeterRun(calls: seq<UsageCall>, c: Principal, p: ProjectId)
    requires MeterCalls(calls, c, p)
    ensures MeterRun(AllEntries(calls), c, p)
  {
    if calls != [] {
      var init, last := calls[..|calls| - 1], calls[|calls| - 1];
      assert forall i, j :: ReadIn(init, i, j, c) ==> ReadIn(calls, i, j, c);
      CallsAreMeterRun(init, c, p);
      var es := AllEntries(init);
      var all := es + EntriesOf(last);
      forall n | 0 <= n < |all| && all[n].canister == c ensures all[n].owner == Some(p) {
        if n >= |es| {
          assert ReadIn(calls, |init|, n - |es|, c);
        }
      }
      forall m, n | 0 <= m < n < |all| && all[m].canister == c && all[n].canister == c
        ensures all[m].month <= all[n].month && AtMost(all[m].usage, all[n].usage)
      {
        if n >= |es| {
          assert ReadIn(calls, |init|, n - |es|, c);
          if m >= |es| {
            assert ReadIn(calls, |init|, m - |es|, c);
          } else {
            var i, j := EntryStems(init, m);
            assert ReadIn(calls, i, j, c);
          }
        }
      }
    }
  }

  // Over any calls in between about other canisters, the stored reading of every month is the last one
  // reported in it, and the month bills its difference to the last one of the month before.
  lemma CallsTelescope(l: Ledger, calls: seq<UsageCall>, c: Principal, p: ProjectId, month: Month)
    requires MeterCalls(calls, c, p)
    requires forall k: Month :: (c, k) !in l.absolute && (p, k, c) !in l.canisterUsage
    ensures var t, last := RunCalls(l, calls), LastOfMonth(calls, c, month);
            var before := if month > 0 then LastOfMonth(calls, c, month - 1) else None;
            && (last.Some? <==> (c, month) in t.absolute) && (last.Some? ==> t.absolute[(c, month)] == last.value)
            && forall i :: 0 <= i < FIELDS ==>
                 Get(t.canisterUsage, (p, month, c))[i] ==
                 if last.None? then 0 else SaturatingSub(last.value[i], if before.None? then 0 else before.value[i])
  {
    CallsAreMeterRun(calls, c, p);
    RunCallsIs(l, calls);
    LastOfMonthIs(calls, c, month);
    if month > 0 {
      LastOfMonthIs(calls, c, month - 1);
    }
    hide RecordAll, RunCalls, LastOfMonth, LastIn, AllEntries, MeterRun, MeterCalls;
    UsageTelescopes(l, AllEntries(calls), c, p, month);
  }

  class UsageRepository {
    var canisterUsage: map<(ProjectId, Month, Principal), Usage>
    var projectUsage: map<(ProjectId, Month), Usage>
    var monthProject: map<(Principal, Month), ProjectId>
    var absolute: map<(Principal, Month), Usage>

    ghost function Current(): Ledger
      reads this
    {
      Ledger(canisterUsage, projectUsage, monthProject, absolute)
    }

    constructor ()
      ensures Current() == EMPTY_LEDGER
    {
      canisterUsage, projectUsage, monthProject, absolute := map[], map[], map[], map[];
    }

    method RecordReading(owners: map<Principal, ProjectId>, month: Month, r: Reading)
      requires month > 0
      modifies this
      ensures Current() == Record(old(Current()), EntryOf(owners, month, r))
    {
      if r.canister !in owners {
        return;
      }
      var c, project := r.canister, owners[r.canister];
      var prev := if (c, month) in absolute then absolute[(c, month)] else Get(absolute, (c, month - 1));
      var delta := CalculateUsageDelta(r.usage, prev);
      projectUsage := projectUsage[(project, month) := AddUsage(Get(projectUsage, (project, month)), delta)];
      canisterUsage := canisterUsage[(project, month, c) := AddUsage(Get(canisterUsage, (project, month, c)), delta)];
      monthProject := monthProject[(c, month) := project];
      absolute := absolute[(c, month) := r.usage];
    }

    // `owners` is the lookup of the canister repository at the time of the call.
    method UpsertCanisterUsages(owners: map<Principal, ProjectId>, month: Month, readings: seq<Reading>)
      requires month > 0
      modifies this
      ensures Current() == RecordAll(old(Current()), Entries(owners, month, readings))
      ensures StoresLast(old(Current()), Current(), owners, month, readings)
      ensures BillsOwners(old(Current()), Current(), owners, month, readings)
      ensures old(ProjectTotals(Current())) ==> ProjectTotals(Current())
    {
      hide Record, ProjectTotals, StoresLast, BillsOwners;
      for i := 0 to |readings|
        invariant Current() == RecordAll(old(Current()), Entries(owners, month, readings[..i]))
        invariant old(ProjectTotals(Current())) ==> ProjectTotals(Current())
      {
        ghost var e := EntryOf(owners, month, readings[i]);
        assert Entries(owners, month, readings[..i + 1]) == Entries(owners, month, readings[..i]) + [e];
        assert (Entries(owners, month, readings[..i]) + [e])[..i] == Entries(owners, month, readings[..i]);
        if ProjectTotals(Current()) {
          RecordKeepsTotals(Current(), e);
        }
        RecordReading(owners, month, readings[i]);
      }
      assert readings[..|readings|] == readings;
      UpsertIs(old(Current()), owners, month, readings);
    }
  }
}
