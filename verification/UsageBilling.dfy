/** Monthly usage: absolute meter readings turned into deltas per canister and per project. */
module UsageBilling {
  import opened Primitives

  // The fields of a usage record are treated alike, so a record is a vector of 64-bit counters.
  const FIELDS: nat := 14

  type Usage = u: seq<nat> | |u| == FIELDS && forall i :: 0 <= i < FIELDS ==> u[i] <= U64_MAX
    witness [0, 0, 0, 0, 0, 0, 0, 0, 0, 0, 0, 0, 0, 0]

  const NO_USAGE: Usage := [0, 0, 0, 0, 0, 0, 0, 0, 0, 0, 0, 0, 0, 0]

  // Billing months are numbered; `BillingMonths.MonthNumbersAndTexts` relates numbers and texts.
  type Month = nat

  function AddUsage(a: Usage, b: Usage): Usage {
    seq(FIELDS, i requires 0 <= i < FIELDS => SaturatingAdd(a[i], b[i]))
  }

  function CalculateUsageDelta(current: Usage, prev: Usage): Usage {
    seq(FIELDS, i requires 0 <= i < FIELDS => SaturatingSub(current[i], prev[i]))
  }

  datatype Ledger = Ledger(
    canisterUsage: map<(ProjectId, Month, Principal), Usage>,
    projectUsage: map<(ProjectId, Month), Usage>,
    monthProject: map<(Principal, Month), ProjectId>,
    absolute: map<(Principal, Month), Usage>)

  const EMPTY_LEDGER := Ledger(map[], map[], map[], map[])

  // One reading as it is processed: `owner` is the project of the canister, if it is tracked.
  datatype Entry = Entry(month: Month, canister: Principal, usage: Usage, owner: Option<ProjectId>)

  function Get<K>(m: map<K, Usage>, k: K): Usage {
    if k in m then m[k] else NO_USAGE
  }

  // The last absolute reading of this month, or else of the month before.
  function PreviousAbsolute(l: Ledger, canister: Principal, month: Month): Usage {
    if (canister, month) in l.absolute then l.absolute[(canister, month)]
    else if month > 0 then Get(l.absolute, (canister, month - 1))
    else NO_USAGE
  }

  function Record(l: Ledger, e: Entry): Ledger {
    if e.owner.None? then l
    else
      var p := e.owner.value;
      var delta := CalculateUsageDelta(e.usage, PreviousAbsolute(l, e.canister, e.month));
      Ledger(
        l.canisterUsage[(p, e.month, e.canister) := AddUsage(Get(l.canisterUsage, (p, e.month, e.canister)), delta)],
        l.projectUsage[(p, e.month) := AddUsage(Get(l.projectUsage, (p, e.month)), delta)],
        l.monthProject[(e.canister, e.month) := p],
        l.absolute[(e.canister, e.month) := e.usage])
  }

  function RecordAll(l: Ledger, es: seq<Entry>): Ledger {
    if es == [] then l else Record(RecordAll(l, es[..|es| - 1]), es[|es| - 1])
  }

  // ---- Project usage is the saturated sum of its canisters' usage ----

  ghost function CanistersIn(l: Ledger, p: ProjectId, month: Month): set<Principal> {
    set k | k in l.canisterUsage && k.0 == p && k.1 == month :: k.2
  }

  ghost function FieldOf(l: Ledger, p: ProjectId, month: Month, i: nat): Principal -> nat
    requires i < FIELDS
  {
    c => Get(l.canisterUsage, (p, month, c))[i]
  }

  ghost function Total(l: Ledger, p: ProjectId, month: Month, i: nat): nat
    requires i < FIELDS
  {
    Sum(CanistersIn(l, p, month), FieldOf(l, p, month, i))
  }

  ghost predicate ProjectTotals(l: Ledger) {
    forall p, month, i :: 0 <= i < FIELDS ==>
      Get(l.projectUsage, (p, month))[i] == Min(U64_MAX, Total(l, p, month, i))
  }

  lemma SumWith(keys: set<Principal>, value: Principal -> nat, c: Principal)
    requires c !in keys ==> value(c) == 0
    ensures Sum(keys + {c}, value) == value(c) + Sum(keys - {c}, value) == Sum(keys, value)
  {
    SumRemove(keys + {c}, value, c);
    assert keys + {c} - {c} == keys - {c};
    if c in keys {
      assert keys + {c} == keys;
    } else {
      assert keys - {c} == keys;
    }
  }

  // Recording moves one summand: the rest of the project's total stays.
  lemma TotalAfter(l: Ledger, e: Entry, p: ProjectId, month: Month, i: nat)
    requires i < FIELDS
    ensures var t := Record(l, e);
            var delta := CalculateUsageDelta(e.usage, PreviousAbsolute(l, e.canister, e.month))[i];
            var here := Get(l.canisterUsage, (p, month, e.canister))[i];
            if e.owner == Some(p) && e.month == month then
              here <= Total(l, p, month, i) &&
                Total(t, p, month, i) == Total(l, p, month, i) - here + SaturatingAdd(here, delta)
            else Total(t, p, month, i) == Total(l, p, month, i)
  {
    var t := Record(l, e);
    var keys, v, w := CanistersIn(l, p, month), FieldOf(l, p, month, i), FieldOf(t, p, month, i);
    KeysAfter(l, e, p, month);
    FieldsAfter(l, e, p, month, i);
    if e.canister !in keys {
      OutsideIsZero(l, p, month, i, e.canister);
    }
    hide Record, CanistersIn, FieldOf, CalculateUsageDelta, Sum;
    if e.owner == Some(p) && e.month == month {
      OneSummandChanged(keys, v, w, e.canister);
    } else {
      assert keys + {} == keys;
      SumAgrees(keys, v, w);
    }
  }

  lemma OneSummandChanged(keys: set<Principal>, v: Principal -> nat, w: Principal -> nat, c: Principal)
    requires c !in keys ==> v(c) == 0
    requires forall d :: d != c ==> w(d) == v(d)
    ensures v(c) <= Sum(keys, v) && Sum(keys + {c}, w) == Sum(keys, v) - v(c) + w(c)
  {
    hide Sum;
    SumWith(keys, v, c);
    SumWith(keys + {c}, w, c);
    assert keys + {c} - {c} == keys - {c} && keys + {c} + {c} == keys + {c};
    SumAgrees(keys - {c}, v, w);
  }

  lemma OutsideIsZero(l: Ledger, p: ProjectId, month: Month, i: nat, c: Principal)
    requires i < FIELDS && c !in CanistersIn(l, p, month)
    ensures FieldOf(l, p, month, i)(c) == 0
  {
    var k := (p, month, c);
    assert k in l.canisterUsage ==> k.2 in CanistersIn(l, p, month);
  }

  lemma KeysAfter(l: Ledger, e: Entry, p: ProjectId, month: Month)
    ensures CanistersIn(Record(l, e), p, month) ==
            CanistersIn(l, p, month) + if e.owner == Some(p) && e.month == month then {e.canister} else {}
  {
  }

  lemma FieldsAfter(l: Ledger, e: Entry, p: ProjectId, month: Month, i: nat)
    requires i < FIELDS
    ensures var v, w := FieldOf(l, p, month, i), FieldOf(Record(l, e), p, month, i);
            && v(e.canister) == Get(l.canisterUsage, (p, month, e.canister))[i]
            && (e.owner == Some(p) && e.month == month ==>
                  w(e.canister) == SaturatingAdd(v(e.canister),
                    CalculateUsageDelta(e.usage, PreviousAbsolute(l, e.canister, e.month))[i]))
            && (!(e.owner == Some(p) && e.month == month) ==> w(e.canister) == v(e.canister))
            && forall c :: c != e.canister ==> w(c) == v(c)
  {
  }

  // Saturating the sum and saturating the summand commute.
  lemma SaturationMerges(total: nat, here: nat, delta: nat)
    requires here <= total
    ensures SaturatingAdd(Min(U64_MAX, total), delta) == Min(U64_MAX, total - here + SaturatingAdd(here, delta))
  {
  }

  lemma RecordKeepsTotal(l: Ledger, e: Entry, p: ProjectId, month: Month, i: nat)
    requires i < FIELDS && Get(l.projectUsage, (p, month))[i] == Min(U64_MAX, Total(l, p, month, i))
    ensures Get(Record(l, e).projectUsage, (p, month))[i] == Min(U64_MAX, Total(Record(l, e), p, month, i))
  {
    hide Total;
    TotalAfter(l, e, p, month, i);
    if e.owner == Some(p) && e.month == month {
      var delta := CalculateUsageDelta(e.usage, PreviousAbsolute(l, e.canister, e.month))[i];
      SaturationMerges(Total(l, p, month, i), Get(l.canisterUsage, (p, month, e.canister))[i], delta);
    }
  }

  lemma RecordKeepsTotals(l: Ledger, e: Entry)
    requires ProjectTotals(l)
    ensures ProjectTotals(Record(l, e))
  {
    hide Total, Record;
    forall p, month, i | 0 <= i < FIELDS
      ensures Get(Record(l, e).projectUsage, (p, month))[i] == Min(U64_MAX, Total(Record(l, e), p, month, i))
    {
      RecordKeepsTotal(l, e, p, month, i);
    }
  }

  // In every reachable ledger, for every project, month and field, even when additions saturate.
  lemma {:induction false} ProjectUsageIsSaturatedSum(es: seq<Entry>)
    ensures ProjectTotals(RecordAll(EMPTY_LEDGER, es))
  {
    if es == [] {
      forall p, month, i | 0 <= i < FIELDS ensures Total(EMPTY_LEDGER, p, month, i) == 0 {
        assert CanistersIn(EMPTY_LEDGER, p, month) == {};
      }
    } else {
      ProjectUsageIsSaturatedSum(es[..|es| - 1]);
      RecordKeepsTotals(RecordAll(EMPTY_LEDGER, es[..|es| - 1]), es[|es| - 1]);
    }
  }

  // ---- A canister's usage telescopes to its readings ----

  // The last reading of canister `c` in `month`.
  function LastIn(es: seq<Entry>, c: Principal, month: Month): Option<Usage> {
    if es == [] then None
    else
      var e := es[|es| - 1];
      if e.canister == c && e.month == month then Some(e.usage) else LastIn(es[..|es| - 1], c, month)
  }

  function OrZero(u: Option<Usage>): Usage {
    if u.Some? then u.value else NO_USAGE
  }

  ghost predicate AtMost(a: Usage, b: Usage) {
    forall i :: 0 <= i < FIELDS ==> a[i] <= b[i]
  }

  // Readings of `c` in order: the months never go back, the meters never run backwards, and the
  // canister stays with project `p`.
  ghost predicate MeterRun(es: seq<Entry>, c: Principal, p: ProjectId) {
    && (forall i :: 0 <= i < |es| && es[i].canister == c ==> es[i].owner == Some(p))
    && (forall i, j :: 0 <= i < j < |es| && es[i].canister == c && es[j].canister == c ==>
         es[i].month <= es[j].month && AtMost(es[i].usage, es[j].usage))
  }

  // The month's last reading less the last reading of the month before.
  ghost function Billed(es: seq<Entry>, c: Principal, month: Month): Usage {
    if LastIn(es, c, month).None? then NO_USAGE
    else
      var before := if month > 0 then OrZero(LastIn(es, c, month - 1)) else NO_USAGE;
      CalculateUsageDelta(LastIn(es, c, month).value, before)
  }

  lemma {:induction false} LastInOccurs(es: seq<Entry>, c: Principal, month: Month)
    ensures LastIn(es, c, month).Some? ==>
              exists i :: 0 <= i < |es| && es[i].canister == c && es[i].month == month &&
                es[i].usage == LastIn(es, c, month).value
  {
    if es != [] && !(es[|es| - 1].canister == c && es[|es| - 1].month == month) {
      LastInOccurs(es[..|es| - 1], c, month);
    }
  }

  // The next reading of `c` is at least every earlier one, and no later month has been read yet.
  lemma NextReading(es: seq<Entry>, e: Entry, p: ProjectId, month: Month)
    requires MeterRun(es + [e], e.canister, p)
    ensures LastIn(es, e.canister, month).Some? ==>
              month <= e.month && AtMost(LastIn(es, e.canister, month).value, e.usage)
  {
    LastInOccurs(es, e.canister, month);
    if LastIn(es, e.canister, month).Some? {
      var i :| 0 <= i < |es| && es[i].canister == e.canister && es[i].month == month &&
               es[i].usage == LastIn(es, e.canister, month).value;
      assert (es + [e])[i] == es[i] && (es + [e])[|es|] == e;
    }
  }

  lemma DeltasAdd(base: Usage, x: Usage, r: Usage)
    requires AtMost(base, x) && AtMost(x, r)
    ensures AddUsage(CalculateUsageDelta(x, base), CalculateUsageDelta(r, x)) == CalculateUsageDelta(r, base)
  {
  }

  lemma AddToNothing(d: Usage)
    ensures AddUsage(NO_USAGE, d) == d == AddUsage(d, NO_USAGE)
  {
  }

  // A reading of `c` after `init` brings the month's usage to the difference of the readings.
  lemma RecordTelescopes(l: Ledger, init: seq<Entry>, e: Entry, p: ProjectId)
    requires MeterRun(init + [e], e.canister, p) && e.owner == Some(p)
    requires forall k: Month :: (e.canister, k) in l.absolute <==> LastIn(init, e.canister, k).Some?
    requires forall k: Month :: (e.canister, k) in l.absolute ==>
             l.absolute[(e.canister, k)] == LastIn(init, e.canister, k).value
    requires Get(l.canisterUsage, (p, e.month, e.canister)) == Billed(init, e.canister, e.month)
    ensures Get(Record(l, e).canisterUsage, (p, e.month, e.canister)) == Billed(init + [e], e.canister, e.month)
  {
    hide AddUsage, CalculateUsageDelta;
    var c, m := e.canister, e.month;
    assert (init + [e])[..|init|] == init;
    assert MeterRun(init, c, p) by {
      assert forall i :: 0 <= i < |init| ==> (init + [e])[i] == init[i];
    }
    NextReading(init, e, p, m);
    var base := if m > 0 then OrZero(LastIn(init, c, m - 1)) else NO_USAGE;
    var delta := CalculateUsageDelta(e.usage, PreviousAbsolute(l, c, m));
    assert Billed(init + [e], c, m) == CalculateUsageDelta(e.usage, base);
    if LastIn(init, c, m).Some? {
      if m > 0 && LastIn(init, c, m - 1).Some? {
        MonthsInOrder(init, c, p, m);
      }
      DeltasAdd(base, LastIn(init, c, m).value, e.usage);
    } else {
      AddToNothing(delta);
    }
  }

  lemma {:induction false} MonthsInOrder(es: seq<Entry>, c: Principal, p: ProjectId, month: Month)
    requires MeterRun(es, c, p) && month > 0
    requires LastIn(es, c, month).Some? && LastIn(es, c, month - 1).Some?
    ensures AtMost(LastIn(es, c, month - 1).value, LastIn(es, c, month).value)
  {
    LastInOccurs(es, c, month - 1);
    LastInOccurs(es, c, month);
    var i :| 0 <= i < |es| && es[i].canister == c && es[i].month == month - 1 &&
      es[i].usage == LastIn(es, c, month - 1).value;
    var j :| 0 <= j < |es| && es[j].canister == c && es[j].month == month && es[j].usage == LastIn(es, c, month).value;
    assert i < j;
  }

  // Whatever other canisters report in between, the stored readings of `c` are its last ones, and
  // its usage of each month is the difference to the month before.
  lemma {:induction false} UsageTelescopes(l: Ledger, es: seq<Entry>, c: Principal, p: ProjectId, month: Month)
    requires MeterRun(es, c, p)
    requires forall k: Month :: (c, k) !in l.absolute && (p, k, c) !in l.canisterUsage
    ensures var t := RecordAll(l, es);
            && ((c, month) in t.absolute <==> LastIn(es, c, month).Some?)
            && ((c, month) in t.absolute ==> t.absolute[(c, month)] == LastIn(es, c, month).value)
            && Get(t.canisterUsage, (p, month, c)) == Billed(es, c, month)
    decreases |es|
  {
    if es != [] {
      var init, e := es[..|es| - 1], es[|es| - 1];
      assert es == init + [e];
      UsageTelescopes(l, init, c, p, month);
      var before := RecordAll(l, init);
      if e.canister == c {
        if month == e.month {
          forall k: Month
            ensures (c, k) in before.absolute <==> LastIn(init, c, k).Some?
            ensures (c, k) in before.absolute ==> before.absolute[(c, k)] == LastIn(init, c, k).value
          {
            UsageTelescopes(l, init, c, p, k);
          }
          RecordTelescopes(before, init, e, p);
        } else {
          NextReading(init, e, p, month);
        }
      }
    }
  }

  // The usage of `c` billed in the months `lo` up to but not including `hi`.
  ghost function BilledOver(es: seq<Entry>, c: Principal, lo: Month, hi: Month, i: nat): nat
    requires lo <= hi && i < FIELDS
  {
    if lo == hi then 0 else BilledOver(es, c, lo, hi - 1, i) + Billed(es, c, hi - 1)[i]
  }

  // The last reading in the months `lo` up to but not including `hi`.
  ghost function LatestOver(es: seq<Entry>, c: Principal, lo: Month, hi: Month): Usage
    requires lo <= hi
  {
    if lo == hi then NO_USAGE
    else if LastIn(es, c, hi - 1).Some? then LastIn(es, c, hi - 1).value
    else LatestOver(es, c, lo, hi - 1)
  }

  // What is billed a second time: the old reading, at the first reading after a month without any.
  ghost function BilledAgain(es: seq<Entry>, c: Principal, lo: Month, hi: Month, i: nat): nat
    requires lo <= hi && i < FIELDS
  {
    if lo == hi then 0
    else
      BilledAgain(es, c, lo, hi - 1, i) +
      if LastIn(es, c, hi - 1).Some? && hi - 1 > lo && LastIn(es, c, hi - 2).None?
      then LatestOver(es, c, lo, hi - 1)[i] else 0
  }

  // The months add up to the final reading plus what skipped months bill again; with no skipped
  // month nothing is billed again.
  lemma {:induction false} MonthsSumToFinalReading(es: seq<Entry>, c: Principal, p: ProjectId, lo: Month, hi: Month,
    i: nat)
    requires MeterRun(es, c, p) && lo <= hi && i < FIELDS
    requires lo > 0 ==> LastIn(es, c, lo - 1).None?
    ensures BilledOver(es, c, lo, hi, i) == LatestOver(es, c, lo, hi)[i] + BilledAgain(es, c, lo, hi, i)
    ensures (forall k :: lo <= k < hi ==> LastIn(es, c, k).Some?) ==>
              BilledOver(es, c, lo, hi, i) == LatestOver(es, c, lo, hi)[i]
    decreases hi
  {
    if lo < hi {
      MonthsSumToFinalReading(es, c, p, lo, hi - 1, i);
      if hi - 1 > lo && LastIn(es, c, hi - 1).Some? && LastIn(es, c, hi - 2).Some? {
        MonthsInOrder(es, c, p, hi - 1);
      }
    }
  }

  // ---- Replaying a batch ----

  // The ledger already holds this reading.
  ghost predicate Recorded(l: Ledger, e: Entry) {
    e.owner.Some? ==>
      && (e.canister, e.month) in l.absolute && l.absolute[(e.canister, e.month)] == e.usage
      && (e.canister, e.month) in l.monthProject && l.monthProject[(e.canister, e.month)] == e.owner.value
      && (e.owner.value, e.month, e.canister) in l.canisterUsage
      && (e.owner.value, e.month) in l.projectUsage
  }

  lemma RecordedAgain(l: Ledger, e: Entry)
    requires Recorded(l, e)
    ensures Record(l, e) == l
  {
    if e.owner.Some? {
      assert CalculateUsageDelta(e.usage, e.usage) == NO_USAGE;
      assert AddUsage(l.canisterUsage[(e.owner.value, e.month, e.canister)], NO_USAGE) ==
             l.canisterUsage[(e.owner.value, e.month, e.canister)];
      assert AddUsage(l.projectUsage[(e.owner.value, e.month)], NO_USAGE) == l.projectUsage[(e.owner.value, e.month)];
    }
  }

  ghost predicate OneEntryPerCanister(es: seq<Entry>) {
    forall i, j :: 0 <= i < j < |es| ==> es[i].canister != es[j].canister
  }

  lemma {:induction false} AllRecorded(l: Ledger, es: seq<Entry>)
    requires OneEntryPerCanister(es)
    ensures forall i :: 0 <= i < |es| ==> Recorded(RecordAll(l, es), es[i])
  {
    if es != [] {
      var init := es[..|es| - 1];
      AllRecorded(l, init);
      forall i | 0 <= i < |init| ensures Recorded(RecordAll(l, es), es[i]) {
        assert init[i] == es[i] && Recorded(RecordAll(l, init), init[i]);
      }
    }
  }

  lemma {:induction false} NothingNew(l: Ledger, es: seq<Entry>)
    requires forall i :: 0 <= i < |es| ==> Recorded(l, es[i])
    ensures RecordAll(l, es) == l
  {
    if es != [] {
      NothingNew(l, es[..|es| - 1]);
      RecordedAgain(l, es[|es| - 1]);
    }
  }

  // Sending a batch with one entry per canister a second time changes nothing.
  lemma ReplayChangesNothing(l: Ledger, es: seq<Entry>)
    requires OneEntryPerCanister(es)
    ensures RecordAll(RecordAll(l, es), es) == RecordAll(l, es)
  {
    AllRecorded(l, es);
    NothingNew(RecordAll(l, es), es);
  }

  function Uniform(n: nat): Usage
    requires n <= U64_MAX
  {
    seq(FIELDS, i => n)
  }

  lemma UniformArithmetic(a: nat, b: nat)
    requires a + b <= U64_MAX
    ensures AddUsage(Uniform(a), Uniform(b)) == Uniform(a + b)
    ensures CalculateUsageDelta(Uniform(a), Uniform(b)) == Uniform(SaturatingSub(a, b))
    ensures Uniform(0) == NO_USAGE
  {
  }

  // The meter of canister 0 after one more reading in month 1.
  lemma RecordUniform(l: Ledger, billed: nat, last: nat, reading: nat)
    requires billed + reading + last <= U64_MAX
    requires Get(l.canisterUsage, (0, 1, 0)) == Uniform(billed) && PreviousAbsolute(l, 0, 1) == Uniform(last)
    ensures var t := Record(l, Entry(1, 0, Uniform(reading), Some(0)));
            Get(t.canisterUsage, (0, 1, 0)) == Uniform(billed + SaturatingSub(reading, last)) &&
            PreviousAbsolute(t, 0, 1) == Uniform(reading)
  {
    hide AddUsage, CalculateUsageDelta, Uniform;
    UniformArithmetic(reading, last);
    UniformArithmetic(billed, SaturatingSub(reading, last));
  }

  // With two entries of one canister in the batch a replay can bill again.
  lemma ReplayNeedsOneEntryPerCanister()
    ensures var es := [Entry(1, 0, Uniform(5), Some(0)), Entry(1, 0, Uniform(3), Some(0))];
            var once := RecordAll(EMPTY_LEDGER, es);
            Get(once.canisterUsage, (0, 1, 0)) == Uniform(5) &&
            Get(RecordAll(once, es).canisterUsage, (0, 1, 0)) == Uniform(7)
  {
    UniformArithmetic(0, 0);
    hide Record, Uniform;
    var a, b := Entry(1, 0, Uniform(5), Some(0)), Entry(1, 0, Uniform(3), Some(0));
    assert [a, b][..1] == [a] && [a][..0] == [];
    var once := Record(Record(EMPTY_LEDGER, a), b);
    assert RecordAll(EMPTY_LEDGER, [a]) == Record(RecordAll(EMPTY_LEDGER, []), a);
    assert RecordAll(once, [a]) == Record(RecordAll(once, []), a);
    assert RecordAll(EMPTY_LEDGER, [a, b]) == once;
    assert RecordAll(once, [a, b]) == Record(Record(once, a), b);
    RecordUniform(EMPTY_LEDGER, 0, 0, 5);
    RecordUniform(Record(EMPTY_LEDGER, a), 5, 5, 3);
    RecordUniform(once, 5, 3, 5);
    RecordUniform(Record(once, a), 7, 5, 3);
  }

  // ---- Exactly when a replay changes nothing ----

  // The entries of one call: one month, and one owner for each canister.
  ghost predicate Batch(es: seq<Entry>, month: Month) {
    && (forall i :: 0 <= i < |es| ==> es[i].month == month)
    && (forall i, j :: 0 <= i < |es| && 0 <= j < |es| && es[i].canister == es[j].canister ==>
         es[i].owner == es[j].owner)
  }

  // The stored reading of `c` after the entries, when it was `last` before them.
  function LastOr(es: seq<Entry>, c: Principal, last: Usage): Usage {
    if es == [] then last
    else
      var e := es[|es| - 1];
      if e.canister == c && e.owner.Some? then e.usage else LastOr(es[..|es| - 1], c, last)
  }

  // What the entries bill to `c` in project `p`, in one field, when its stored reading was `last`.
  function Rebilled(es: seq<Entry>, p: ProjectId, c: Principal, i: nat, last: Usage): nat
    requires i < FIELDS
  {
    if es == [] then 0
    else
      var init, e := es[..|es| - 1], es[|es| - 1];
      Rebilled(init, p, c, i, last) +
      if e.canister == c && e.owner == Some(p) then SaturatingSub(e.usage[i], LastOr(init, c, last)[i]) else 0
  }

  // The ledger has an entry in every map that the entries touch.
  ghost predicate HoldsKeys(l: Ledger, es: seq<Entry>, month: Month) {
    forall i :: 0 <= i < |es| && es[i].owner.Some? ==>
      && (es[i].canister, month) in l.absolute && (es[i].canister, month) in l.monthProject
      && l.monthProject[(es[i].canister, month)] == es[i].owner.value
      && (es[i].owner.value, month, es[i].canister) in l.canisterUsage && (es[i].owner.value, month) in l.projectUsage
  }

  ghost predicate SameKeys(l: Ledger, t: Ledger) {
    && t.absolute.Keys == l.absolute.Keys && t.monthProject == l.monthProject
    && t.canisterUsage.Keys == l.canisterUsage.Keys && t.projectUsage.Keys == l.projectUsage.Keys
  }

  lemma {:induction false} PassHoldsKeys(l: Ledger, es: seq<Entry>, month: Month)
    requires Batch(es, month)
    ensures HoldsKeys(RecordAll(l, es), es, month)
    ensures forall i :: 0 <= i < |es| && es[i].owner.Some? ==>
              RecordAll(l, es).absolute[(es[i].canister, month)] == LastOr(es, es[i].canister, NO_USAGE)
  {
    if es != [] {
      var init, e := es[..|es| - 1], es[|es| - 1];
      PassHoldsKeys(l, init, month);
      hide AddUsage, CalculateUsageDelta;
      forall i | 0 <= i < |init| && es[i].owner.Some?
        ensures RecordAll(l, es).absolute[(es[i].canister, month)] == LastOr(es, es[i].canister, NO_USAGE)
      {
        assert init[i] == es[i];
      }
      assert forall i :: 0 <= i < |init| ==> init[i] == es[i];
    }
  }

  // A further pass adds no key, and leaves the last reading of every canister.
  lemma {:induction false} PassKeepsKeys(l: Ledger, es: seq<Entry>, month: Month)
    requires Batch(es, month) && HoldsKeys(l, es, month)
    ensures var t := RecordAll(l, es);
            && SameKeys(l, t)
            && forall c, k :: (c, k) in l.absolute ==>
                 t.absolute[(c, k)] == if k == month then LastOr(es, c, l.absolute[(c, k)]) else l.absolute[(c, k)]
  {
    if es != [] {
      var init, e := es[..|es| - 1], es[|es| - 1];
      assert forall i :: 0 <= i < |init| ==> init[i] == es[i];
      PassKeepsKeys(l, init, month);
      hide AddUsage, CalculateUsageDelta;
      var before := RecordAll(l, init);
      if e.owner.Some? {
        assert before.monthProject[(e.canister, month) := e.owner.value] == before.monthProject;
      }
    }
  }

  // A further pass adds what it bills again to every counter, saturating.
  lemma {:induction false} PassBills(l: Ledger, es: seq<Entry>, month: Month, p: ProjectId, k: Month, c: Principal,
    i: nat)
    requires Batch(es, month) && HoldsKeys(l, es, month) && i < FIELDS
    decreases |es|
    ensures Get(RecordAll(l, es).canisterUsage, (p, k, c))[i] ==
            Min(U64_MAX, Get(l.canisterUsage, (p, k, c))[i] +
                         if k == month then Rebilled(es, p, c, i, Get(l.absolute, (c, month))) else 0)
  {
    if es != [] {
      var init, e := es[..|es| - 1], es[|es| - 1];
      assert forall j :: 0 <= j < |init| ==> init[j] == es[j];
      PassBills(l, init, month, p, k, c, i);
      PassKeepsKeys(l, init, month);
      assert e.month == month && (e.owner.Some? ==> (e.canister, month) in l.absolute);
      hide Record, HoldsKeys, Batch;
      assert es == init + [e];
      BillOneMore(l, RecordAll(l, init), init, e, p, k, c, i);
    }
  }

  lemma BillOneMore(l: Ledger, before: Ledger, init: seq<Entry>, e: Entry, p: ProjectId, k: Month, c: Principal, i: nat)
    requires i < FIELDS
    requires e.owner.Some? ==>
               && (e.canister, e.month) in l.absolute && (e.canister, e.month) in before.absolute
               && before.absolute[(e.canister, e.month)] == LastOr(init, e.canister, l.absolute[(e.canister, e.month)])
    requires Get(before.canisterUsage, (p, k, c))[i] ==
             Min(U64_MAX, Get(l.canisterUsage, (p, k, c))[i] +
                          if k == e.month then Rebilled(init, p, c, i, Get(l.absolute, (c, e.month))) else 0)
    ensures Get(Record(before, e).canisterUsage, (p, k, c))[i] ==
            Min(U64_MAX, Get(l.canisterUsage, (p, k, c))[i] +
                         if k == e.month then Rebilled(init + [e], p, c, i, Get(l.absolute, (c, e.month))) else 0)
  {
    hide Record, Rebilled, LastOr;
    RecordBills(before, e, p, k, c, i);
    RebilledOneMore(init, e, p, c, i, Get(l.absolute, (c, e.month)));
    if e.owner == Some(p) && e.canister == c && k == e.month {
      var last := l.absolute[(c, k)];
      assert Get(l.absolute, (c, k)) == last;
      var v, r, d := Get(l.canisterUsage, (p, k, c))[i], Rebilled(init, p, c, i, last),
        SaturatingSub(e.usage[i], LastOr(init, c, last)[i]);
      hide Get, SaturatingSub;
      SaturateOneMore(v, r, d);
      hide SaturatingAdd;
    } else {
      hide SaturatingAdd, SaturatingSub;
    }
  }

  lemma RebilledOneMore(init: seq<Entry>, e: Entry, p: ProjectId, c: Principal, i: nat, last: Usage)
    requires i < FIELDS
    ensures Rebilled(init + [e], p, c, i, last) == Rebilled(init, p, c, i, last) +
            if e.canister == c && e.owner == Some(p) then SaturatingSub(e.usage[i], LastOr(init, c, last)[i]) else 0
  {
    hide LastOr, SaturatingSub;
    assert (init + [e])[..|init|] == init;
  }

  lemma SaturateOneMore(v: nat, r: nat, d: nat)
    ensures SaturatingAdd(Min(U64_MAX, v + r), d) == Min(U64_MAX, v + r + d)
  {
  }

  lemma RecordBills(l: Ledger, e: Entry, p: ProjectId, k: Month, c: Principal, i: nat)
    requires i < FIELDS && (e.owner.Some? ==> (e.canister, e.month) in l.absolute)
    ensures Get(Record(l, e).canisterUsage, (p, k, c))[i] ==
            if e.owner == Some(p) && e.month == k && e.canister == c
            then SaturatingAdd(Get(l.canisterUsage, (p, k, c))[i], SaturatingSub(e.usage[i], l.absolute[(c, k)][i]))
            else Get(l.canisterUsage, (p, k, c))[i]
  {
  }

  // Billing nothing means that the readings never rise, from `last` on.
  lemma {:induction false} NothingRebilled(es: seq<Entry>, p: ProjectId, c: Principal, i: nat, last: Usage)
    requires i < FIELDS && Rebilled(es, p, c, i, last) == 0
    requires forall j :: 0 <= j < |es| && es[j].canister == c ==> es[j].owner == Some(p)
    ensures LastOr(es, c, last)[i] <= last[i]
    ensures forall j :: 0 <= j < |es| && es[j].canister == c ==> LastOr(es, c, last)[i] <= es[j].usage[i] <= last[i]
  {
    if es != [] {
      var init := es[..|es| - 1];
      NothingRebilled(init, p, c, i, last);
      assert forall j :: 0 <= j < |init| ==> init[j] == es[j];
    }
  }

  lemma {:induction false} EqualReadingsBillNothing(es: seq<Entry>, p: ProjectId, c: Principal, i: nat, last: Usage)
    requires i < FIELDS
    requires forall j :: 0 <= j < |es| && es[j].canister == c && es[j].owner.Some? ==> es[j].usage[i] == last[i]
    ensures Rebilled(es, p, c, i, last) == 0 && LastOr(es, c, last)[i] == last[i]
  {
    if es != [] {
      var init := es[..|es| - 1];
      assert forall j :: 0 <= j < |init| ==> init[j] == es[j];
      EqualReadingsBillNothing(init, p, c, i, last);
    }
  }

  // The last reading of an owned canister of the batch is one of its readings, whatever was before.
  lemma {:induction false} LastOrOccurs(es: seq<Entry>, c: Principal, last: Usage, other: Usage, j: nat)
    requires j < |es| && es[j].canister == c && es[j].owner.Some?
    ensures LastOr(es, c, last) == LastOr(es, c, other)
    ensures exists k :: 0 <= k < |es| && es[k].canister == c && es[k].owner.Some? && es[k].usage == LastOr(es, c, last)
  {
    var n := |es| - 1;
    if !(es[n].canister == c && es[n].owner.Some?) {
      LastOrOccurs(es[..n], c, last, other, j);
      var k :| 0 <= k < n && es[..n][k].canister == c && es[..n][k].owner.Some? &&
        es[..n][k].usage == LastOr(es[..n], c, last);
      assert es[k] == es[..n][k];
    } else {
      assert es[n].usage == LastOr(es, c, last);
    }
  }

  lemma {:induction false} LastOrNone(es: seq<Entry>, c: Principal, last: Usage)
    requires forall j :: 0 <= j < |es| && es[j].canister == c ==> es[j].owner.None?
    ensures LastOr(es, c, last) == last
  {
    if es != [] {
      var init := es[..|es| - 1];
      assert forall j :: 0 <= j < |init| ==> init[j] == es[j];
      LastOrNone(init, c, last);
    }
  }

  predicate SharesOwned(a: Entry, b: Entry) {
    a.canister == b.canister && a.owner.Some?
  }

  // Two readings of one owned canister are equal in field `i`, or its counter is full.
  ghost predicate EqualOrFull(l: Ledger, a: Entry, b: Entry, i: nat)
    requires i < FIELDS && a.owner.Some?
  {
    a.usage[i] == b.usage[i] || Get(l.canisterUsage, (a.owner.value, a.month, a.canister))[i] == U64_MAX
  }

  ghost predicate ReplaysUnnoticed(l: Ledger, es: seq<Entry>) {
    forall j, k, i | 0 <= j < |es| && 0 <= k < |es| && 0 <= i < FIELDS && SharesOwned(es[j], es[k]) ::
      EqualOrFull(l, es[j], es[k], i)
  }

  // After a first pass, the counter of an owned canister stays exactly when its readings are equal
  // or it is full.
  lemma CounterStaysIff(l: Ledger, es: seq<Entry>, month: Month, j: nat, i: nat)
    requires Batch(es, month) && j < |es| && es[j].owner.Some? && i < FIELDS
    ensures var once := RecordAll(l, es);
            var key := (es[j].owner.value, month, es[j].canister);
            Get(RecordAll(once, es).canisterUsage, key)[i] == Get(once.canisterUsage, key)[i] <==>
            forall k :: 0 <= k < |es| && es[k].canister == es[j].canister ==> EqualOrFull(once, es[j], es[k], i)
  {
    var once, c, p := RecordAll(l, es), es[j].canister, es[j].owner.value;
    PassHoldsKeys(l, es, month);
    PassBills(once, es, month, p, month, c, i);
    var last := once.absolute[(c, month)];
    LastOrOccurs(es, c, NO_USAGE, last, j);
    hide RecordAll, HoldsKeys;
    if Rebilled(es, p, c, i, last) == 0 {
      NothingRebilled(es, p, c, i, last);
    } else if forall k :: 0 <= k < |es| && es[k].canister == c ==> es[k].usage[i] == es[j].usage[i] {
      EqualReadingsBillNothing(es, p, c, i, last);
      assert false;
    }
  }

  // Sending a batch again changes nothing exactly when, field by field, all its readings of an owned
  // canister are equal or the canister's counter is full.
  lemma ReplayChangesNothingIff(l: Ledger, es: seq<Entry>, month: Month)
    requires ProjectTotals(l) && Batch(es, month)
    ensures var once := RecordAll(l, es);
            RecordAll(once, es) == once <==> ReplaysUnnoticed(once, es)
  {
    var once := RecordAll(l, es);
    var twice := RecordAll(once, es);
    if twice == once {
      forall j, k, i | 0 <= j < |es| && 0 <= k < |es| && 0 <= i < FIELDS && SharesOwned(es[j], es[k])
        ensures EqualOrFull(once, es[j], es[k], i)
      {
        CounterStaysIff(l, es, month, j, i);
      }
    }
    if ReplaysUnnoticed(once, es) {
      PassHoldsKeys(l, es, month);
      PassKeepsKeys(once, es, month);
      ReadingsStay(l, es, month);
      CountersStay(l, es, month);
      PassKeepsTotals(l, es);
      PassKeepsTotals(once, es);
      hide RecordAll;
      ProjectUsageStays(once, twice);
    }
  }

  lemma ReadingsStay(l: Ledger, es: seq<Entry>, month: Month)
    requires Batch(es, month)
    ensures RecordAll(RecordAll(l, es), es).absolute == RecordAll(l, es).absolute
  {
    var once := RecordAll(l, es);
    PassHoldsKeys(l, es, month);
    PassKeepsKeys(once, es, month);
    hide RecordAll;
    var twice := RecordAll(once, es);
    forall key | key in once.absolute ensures twice.absolute[key] == once.absolute[key] {
      var c := key.0;
      assert key == (c, key.1);
      if j :| 0 <= j < |es| && es[j].canister == c && es[j].owner.Some? {
        LastOrOccurs(es, c, NO_USAGE, once.absolute[key], j);
      } else {
        LastOrNone(es, c, once.absolute[key]);
      }
    }
  }

  lemma CountersStay(l: Ledger, es: seq<Entry>, month: Month)
    requires Batch(es, month) && ReplaysUnnoticed(RecordAll(l, es), es)
    ensures RecordAll(RecordAll(l, es), es).canisterUsage == RecordAll(l, es).canisterUsage
  {
    var once := RecordAll(l, es);
    var twice := RecordAll(once, es);
    PassHoldsKeys(l, es, month);
    PassKeepsKeys(once, es, month);
    forall p, k, c, i | 0 <= i < FIELDS
      ensures Get(twice.canisterUsage, (p, k, c))[i] == Get(once.canisterUsage, (p, k, c))[i]
    {
      CounterStays(l, es, month, p, k, c, i);
    }
    hide RecordAll;
    forall key | key in once.canisterUsage ensures twice.canisterUsage[key] == once.canisterUsage[key] {
      assert key == (key.0, key.1, key.2);
      var a, b := Get(twice.canisterUsage, key), Get(once.canisterUsage, key);
      assert forall i :: 0 <= i < FIELDS ==> a[i] == b[i];
      assert a == b;
    }
  }

  lemma CounterStays(l: Ledger, es: seq<Entry>, month: Month, p: ProjectId, k: Month, c: Principal, i: nat)
    requires Batch(es, month) && ReplaysUnnoticed(RecordAll(l, es), es) && i < FIELDS
    ensures Get(RecordAll(RecordAll(l, es), es).canisterUsage, (p, k, c))[i] ==
            Get(RecordAll(l, es).canisterUsage, (p, k, c))[i]
  {
    if j :| 0 <= j < |es| && es[j].canister == c && es[j].owner == Some(p) && k == month {
      CounterStaysIff(l, es, month, j, i);
    } else {
      var once := RecordAll(l, es);
      PassHoldsKeys(l, es, month);
      PassBills(once, es, month, p, k, c, i);
      if k == month {
        OthersBillNothing(es, p, c, i, Get(once.absolute, (c, month)));
      }
    }
  }

  lemma {:induction false} OthersBillNothing(es: seq<Entry>, p: ProjectId, c: Principal, i: nat, last: Usage)
    requires i < FIELDS && forall j :: 0 <= j < |es| && es[j].canister == c ==> es[j].owner != Some(p)
    ensures Rebilled(es, p, c, i, last) == 0
  {
    if es != [] {
      var init := es[..|es| - 1];
      assert forall j :: 0 <= j < |init| ==> init[j] == es[j];
      OthersBillNothing(init, p, c, i, last);
    }
  }

  lemma {:induction false} PassKeepsTotals(l: Ledger, es: seq<Entry>)
    requires ProjectTotals(l)
    ensures ProjectTotals(RecordAll(l, es))
  {
    if es != [] {
      PassKeepsTotals(l, es[..|es| - 1]);
      RecordKeepsTotals(RecordAll(l, es[..|es| - 1]), es[|es| - 1]);
    }
  }

  // Equal canister usage makes equal project usage.
  lemma ProjectUsageStays(l: Ledger, t: Ledger)
    requires ProjectTotals(l) && ProjectTotals(t) && t.canisterUsage == l.canisterUsage
    requires t.projectUsage.Keys == l.projectUsage.Keys
    ensures t.projectUsage == l.projectUsage
  {
    forall key | key in l.projectUsage ensures t.projectUsage[key] == l.projectUsage[key] {
      var p, month := key.0, key.1;
      assert key == (p, month);
      var a, b := Get(t.projectUsage, key), Get(l.projectUsage, key);
      forall i | 0 <= i < FIELDS ensures a[i] == b[i] {
        SumAgrees(CanistersIn(l, p, month), FieldOf(l, p, month, i), FieldOf(t, p, month, i));
      }
      assert a == b;
    }
  }

  // With room in the counters: exactly when all readings of each owned canister are equal.
  lemma ReplayNeedsEqualReadings(l: Ledger, es: seq<Entry>, month: Month)
    requires ProjectTotals(l) && Batch(es, month)
    requires forall j, i :: 0 <= j < |es| && 0 <= i < FIELDS && es[j].owner.Some? ==>
               Get(RecordAll(l, es).canisterUsage, (es[j].owner.value, month, es[j].canister))[i] < U64_MAX
    ensures RecordAll(RecordAll(l, es), es) == RecordAll(l, es) <==>
            forall j, k | 0 <= j < |es| && 0 <= k < |es| && SharesOwned(es[j], es[k]) :: es[j].usage == es[k].usage
  {
    ReplayChangesNothingIff(l, es, month);
    hide RecordAll, ProjectTotals;
    if ReplaysUnnoticed(RecordAll(l, es), es) {
      forall j, k | 0 <= j < |es| && 0 <= k < |es| && SharesOwned(es[j], es[k])
        ensures es[j].usage == es[k].usage
      {
        forall i | 0 <= i < FIELDS ensures es[j].usage[i] == es[k].usage[i] {
          assert EqualOrFull(RecordAll(l, es), es[j], es[k], i);
        }
      }
    }
  }
}
