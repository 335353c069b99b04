/** What one whole sweep does to every account, and that a second one at the same
    instant does nothing. */
module TrafficSweep {
  import opened Prelude
  import opened Calendar
  import opened TrafficCycle
  import opened Traffic

  predicate DistinctIds(clients: seq<Listed>) {
    forall i, j :: 0 <= i < j < |clients| ==> clients[i].id != clients[j].id
  }

  predicate Lists(clients: seq<Listed>, id: string) {
    exists i :: 0 <= i < |clients| && clients[i].id == id
  }

  /** The list was read from these records and no schedule changed since. The sweep reads it
      before it takes the lock, so this may fail of any entry. */
  predicate InSync(clients: seq<Listed>, records: map<string, Account>) {
    && DistinctIds(clients)
    && forall i :: 0 <= i < |clients| ==>
         clients[i].id in records && records[clients[i].id].schedule == clients[i].schedule
  }

  predicate SameAccount(b: Books, r: Books, id: string) {
    && (id in b.records <==> id in r.records)
    && (id in b.records ==> b.records[id] == r.records[id])
    && LedgerGet(b.pending, id) == LedgerGet(r.pending, id)
  }

  lemma SweepOneIsLocal(b: Books, c: Listed, f: Faults, now: Time, id: string)
    requires c.id != id || !Writable(b, id, f)
    ensures SameAccount(b, SweepOne(b, c, f, now), id)
  {
    hide Decide;
  }

  lemma {:induction false} SweepSkipsTheUnlisted(b: Books, clients: seq<Listed>, f: Faults, now: Time, id: string)
    requires !Lists(clients, id) || !Writable(b, id, f)
    ensures SameAccount(b, SweepAll(b, clients, f, now), id)
    decreases |clients|
  {
    hide SweepOne;
    if clients != [] {
      assert clients[0].id == id ==> Lists(clients, id);
      SweepOneIsLocal(b, clients[0], f, now, id);
      forall i | 0 <= i < |clients[1..]| ensures clients[1..][i].id == id ==> Lists(clients, id) {
        assert clients[1..][i] == clients[i + 1];
      }
      SweepSkipsTheUnlisted(SweepOne(b, clients[0], f, now), clients[1..], f, now, id);
    }
  }

  lemma SweepOneReadsItsOwn(b: Books, r: Books, c: Listed, f: Faults, now: Time)
    requires SameAccount(b, r, c.id)
    ensures SameAccount(SweepOne(b, c, f, now), SweepOne(r, c, f, now), c.id)
  {
    hide Decide;
  }

  /** One sweep, account by account, under any faults and from a list however old: what it
      does to an account is what that account's own entry asks for, as if no other account
      had been in the list. */
  lemma {:induction false} SweepAccountByAccount(b: Books, clients: seq<Listed>, f: Faults, now: Time, k: nat)
    requires DistinctIds(clients) && k < |clients|
    ensures SameAccount(SweepOne(b, clients[k], f, now), SweepAll(b, clients, f, now), clients[k].id)
    decreases k
  {
    hide SweepOne, SameAccount;
    var c, rest, id := clients[0], clients[1..], clients[k].id;
    var b1 := SweepOne(b, c, f, now);
    if k == 0 {
      SweepSkipsTheUnlisted(b1, rest, f, now, id);
    } else {
      SweepOneIsLocal(b, c, f, now, id);
      SweepOneReadsItsOwn(b, b1, clients[k], f, now);
      SweepAccountByAccount(b1, rest, f, now, k - 1);
      SameAccountChains(SweepOne(b, clients[k], f, now), SweepOne(b1, clients[k], f, now), SweepAll(b, clients, f, now), id);
    }
  }

  lemma SameAccountChains(b: Books, m: Books, r: Books, id: string)
    requires SameAccount(b, m, id) && SameAccount(m, r, id)
    ensures SameAccount(b, r, id)
  {
  }

  // ----- who loses usage, and whether too early

  predicate HasUsage(b: Books, id: string)
    requires id in b.records
  { b.records[id].used > 0 || LedgerGet(b.pending, id) > 0 }

  predicate GivesUpUsage(b: Books, r: Books, id: string)
    requires id in b.records
  {
    id !in r.records || r.records[id].used != b.records[id].used || LedgerGet(r.pending, id) != LedgerGet(b.pending, id)
  }

  /** The entry the sweep was given shows a passed boundary, and a walk that ends. */
  predicate EntryRollsOver(s: Schedule, now: Time) {
    BoundaryPassed(s, now) && !PassedAt(s, MAX_CATCH_UP_CYCLES, now)
  }

  /** An account with usage gives it up exactly if it can be written and its entry in the list
      rolls over. So it gives it up with its own stored boundary still ahead exactly if, besides
      that, the stored boundary is ahead; and never if the entry is its stored schedule. */
  lemma ResetsEarlyIff(b: Books, clients: seq<Listed>, f: Faults, now: Time, k: nat)
    requires DistinctIds(clients) && k < |clients| && clients[k].id in b.records
    ensures var id, entry := clients[k].id, clients[k].schedule;
            var own := b.records[id].schedule;
            var r := SweepAll(b, clients, f, now);
            && (GivesUpUsage(b, r, id) <==> Writable(b, id, f) && HasUsage(b, id) && EntryRollsOver(entry, now))
            && (GivesUpUsage(b, r, id) && !BoundaryPassed(own, now) <==>
                Writable(b, id, f) && HasUsage(b, id) && EntryRollsOver(entry, now) && !BoundaryPassed(own, now))
            && (own == entry && GivesUpUsage(b, r, id) ==> BoundaryPassed(own, now))
  {
    hide Decide, BoundaryPassed, PassedAt;
    SweepAccountByAccount(b, clients, f, now, k);
    VerdictByBoundaries(clients[k].schedule, now);
  }

  /** After a sweep whose writes succeed, whatever the age of the list: an account that rolled
      over has the closed period's total on record and its allowance back, every other one
      keeps its usage; and the account is on the period containing now exactly if it was given
      a new origin, or the count it now has is reachable and that boundary of its own stored
      cycle is ahead. From its own stored schedule that is the condition SweepCatchesUp gives. */
  lemma SweepServesEveryAccount(b: Books, clients: seq<Listed>, now: Time, k: nat)
    requires DistinctIds(clients) && k < |clients| && clients[k].id in b.records && now != 0
    ensures var id, entry := clients[k].id, clients[k].schedule;
            var a := b.records[id];
            var r := SweepAll(b, clients, Faults({}, {}), now);
            && id in r.records
            && var n := r.records[id];
               && n.name == a.name && n.limitGB == a.limitGB && n.schedule.cycle == a.schedule.cycle
               && (if Decide(entry, now).RollOver?
                   then n.prev == WrapAdd(a.used, LedgerGet(b.pending, id)) && n.used == 0 && LedgerGet(r.pending, id) == 0
                   else n.prev == a.prev && n.used == a.used && LedgerGet(r.pending, id) == LedgerGet(b.pending, id))
               && (TrafficCycle.Valid(a.schedule) ==>
                     (OnCurrentPeriod(n.schedule, now) <==>
                      NeedsAnchor(entry, now)
                      || (a.schedule.anchor != 0 && n.schedule.count <= MAX_CATCH_UP_CYCLES
                          && !PassedAt(a.schedule, n.schedule.count, now))))
               && (entry == a.schedule ==>
                     && n.schedule == Advance(a.schedule, now)
                     && (a.schedule.count <= MAX_CATCH_UP_CYCLES ==> n.schedule.count <= MAX_CATCH_UP_CYCLES)
                     && (TrafficCycle.Valid(a.schedule) && (a.schedule.anchor == 0 || a.schedule.count <= MAX_CATCH_UP_CYCLES)
                         ==> OnCurrentPeriod(n.schedule, now)))
  {
    hide Decide, OnCurrentPeriod, PassedAt, TrafficCycle.Valid, NeedsAnchor;
    var id, entry := clients[k].id, clients[k].schedule;
    var a := b.records[id];
    SweepAccountByAccount(b, clients, Faults({}, {}), now, k);
    var n := SweepAll(b, clients, Faults({}, {}), now).records[id];
    VerdictByBoundaries(entry, now);
    CurrentPeriodIff(a.schedule, n.schedule, now);
    if TrafficCycle.Valid(a.schedule) { SweepCatchesUp(a.schedule, now); }
    CountStaysReachable(a.schedule, now);
  }

  lemma CurrentPeriodIff(own: Schedule, swept: Schedule, now: Time)
    requires swept.cycle == own.cycle && now != 0
    ensures TrafficCycle.Valid(own) && swept.anchor == own.anchor ==>
              (OnCurrentPeriod(swept, now) <==>
               own.anchor != 0 && swept.count <= MAX_CATCH_UP_CYCLES && !PassedAt(own, swept.count, now))
    ensures TrafficCycle.Valid(own) && swept.anchor == now && swept.count == 0 ==> OnCurrentPeriod(swept, now)
  {
    hide NormalizeTrafficCycle, TrafficCycleEnd, PassedAt, OnCurrentPeriod;
    if TrafficCycle.Valid(own) {
      if swept.anchor == 0 { NoOriginNoPeriod(swept, now); } else { OnCurrentPeriodMeans(swept, now); }
      if swept.anchor == own.anchor { SameBoundaries(own, swept, swept.count, now); }
      if swept.anchor == now && swept.count == 0 { FreshAnchorIsCurrent(swept, now); }
    }
  }

  lemma NoOriginNoPeriod(s: Schedule, now: Time)
    requires s.anchor == 0
    ensures !OnCurrentPeriod(s, now)
  {
    hide NormalizeTrafficCycle;
  }

  lemma CountStaysReachable(s: Schedule, now: Time)
    requires now != 0
    ensures s.count <= MAX_CATCH_UP_CYCLES ==> Advance(s, now).count <= MAX_CATCH_UP_CYCLES
  {
    hide NormalizeTrafficCycle, Due, TrafficCycleEnd;
    if TrafficCycle.Valid(s) { SweepCatchesUp(s, now); }
  }

  lemma {:induction false} NothingDueNothingDone(b: Books, clients: seq<Listed>, f: Faults, now: Time)
    requires forall i :: 0 <= i < |clients| ==> Decide(clients[i].schedule, now) == Leave
    ensures SweepAll(b, clients, f, now) == b && Rewritten(b, clients, f, now) == 0
    decreases |clients|
  {
    hide Decide;
    if clients != [] { NothingDueNothingDone(b, clients[1..], f, now); }
  }

  lemma {:induction false} SweepKeepsTheAccounts(b: Books, clients: seq<Listed>, f: Faults, now: Time)
    ensures SweepAll(b, clients, f, now).records.Keys == b.records.Keys
    decreases |clients|
  {
    hide Decide;
    if clients != [] { SweepKeepsTheAccounts(SweepOne(b, clients[0], f, now), clients[1..], f, now); }
  }

  lemma SweptAccountIsSettled(b: Books, clients: seq<Listed>, now: Time, id: string)
    requires now != 0 && InSync(clients, b.records) && Lists(clients, id)
    ensures id in SweepAll(b, clients, Faults({}, {}), now).records
    ensures Decide(SweepAll(b, clients, Faults({}, {}), now).records[id].schedule, now) == Leave
  {
    hide Decide;
    var k: nat :| k < |clients| && clients[k].id == id;
    SweepAccountByAccount(b, clients, Faults({}, {}), now, k);
    SweepSettles(b.records[id].schedule, now);
  }

  /** Sweeping again at the same instant, from a fresh list and whatever faults the second
      pass meets, changes no record, moves no byte and reports no rewrite. */
  lemma SecondSweepIsIdle(b: Books, clients: seq<Listed>, relisted: seq<Listed>, f: Faults, now: Time)
    requires now != 0
    requires InSync(clients, b.records) && forall id :: id in b.records ==> Lists(clients, id)
    requires InSync(relisted, SweepAll(b, clients, Faults({}, {}), now).records)
    ensures var r := SweepAll(b, clients, Faults({}, {}), now);
            SweepAll(r, relisted, f, now) == r && Rewritten(r, relisted, f, now) == 0
  {
    hide Decide;
    var r := SweepAll(b, clients, Faults({}, {}), now);
    SweepKeepsTheAccounts(b, clients, Faults({}, {}), now);
    forall i | 0 <= i < |relisted| ensures Decide(relisted[i].schedule, now) == Leave {
      assert Lists(clients, relisted[i].id);
      SweptAccountIsSettled(b, clients, now, relisted[i].id);
    }
    NothingDueNothingDone(r, relisted, f, now);
  }

  /** The condition is met: a list taken before an operator switched a daily account to a
      weekly cycle credits the daily boundaries to the new weekly anchor, and the account loses
      its usage with its own boundary still ahead. */
  lemma StaleListResetsEarly(dayOne: Time, now: Time)
    requires dayOne > 0 && now == dayOne + NANOS_PER_DAY
    ensures OnCurrentPeriod(Schedule("weekly", now - 1, 0), now)
    ensures SweepAll(OneAccount(5, 0, 0, now), [Listed("a", Schedule("daily", dayOne, 0))], Faults({}, {}), now)
            == OneAccount(0, 5, 1, now)
  {
    hide AddDays, Due, TrafficCycleEnd, NormalizeTrafficCycle;
    StaleListIsDue(dayOne, now);
    FreshWeekIsCurrent(now);
    var c := Listed("a", Schedule("daily", dayOne, 0));
    assert Decide(c.schedule, now) == RollOver(1);
    assert SweepOne(OneAccount(5, 0, 0, now), c, Faults({}, {}), now) == OneAccount(0, 5, 1, now);
  }

  function OneAccount(used: u64, prev: u64, count: nat, now: Time): Books {
    Books(map["a" := Account("A", 1.0, Schedule("weekly", now - 1, count), used, prev)], map[])
  }

  lemma StaleListIsDue(dayOne: Time, now: Time)
    requires dayOne > 0 && now == dayOne + NANOS_PER_DAY
    ensures Decide(Schedule("daily", dayOne, 0), now) == RollOver(1)
  {
    hide AddDays, Due, Decide, NormalizeTrafficCycle;
    AddDaysIsWholeDays(dayOne, 1);
    AddDaysIsWholeDays(dayOne, 2);
    CanonicalNames();
    var s := Schedule("daily", dayOne, 0);
    assert PassedAt(s, 0, now) && !PassedAt(s, 1, now);
    DecideByBoundaries(s, now);
    PassedAtFacts(s, now);
  }

  lemma FreshWeekIsCurrent(now: Time)
    requires now > 1
    ensures OnCurrentPeriod(Schedule("weekly", now - 1, 0), now)
  {
    hide AddDays, NormalizeTrafficCycle;
    AddDaysIsWholeDays(now - 1, 7);
    CanonicalNames();
  }
}
