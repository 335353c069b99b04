/** What each operation on the books changes, and that it changes nothing else: account by
    account and field by field, on the books before and after. */
module TrafficEffects {
  import opened Prelude
  import opened TrafficCycle
  import opened Traffic
  import opened TrafficSweep

  /** The counters, one account at a time: adding wraps, clearing empties, and no other counter
      moves. The blank account has none. */
  lemma CounterLaws(p: map<string, u64>, id: string, n: u64, other: string)
    requires "" !in p
    ensures LedgerGet(LedgerAdd(p, id, n), other) ==
            if other == id && id != "" then (LedgerGet(p, id) + n) % U64_SIZE else LedgerGet(p, other)
    ensures LedgerGet(LedgerCleared(p, id), other) == if other == id then 0 else LedgerGet(p, other)
    ensures "" !in LedgerAdd(p, id, n) && "" !in LedgerCleared(p, id)
  {
  }

  /** Which accounts there are, and what nobody but the operator decides about one. */
  predicate SameIdentity(a: Account, r: Account) { r.name == a.name && r.limitGB == a.limitGB }

  predicate SamePeriod(a: Account, r: Account) { r.schedule == a.schedule && r.prev == a.prev }

  /** A manual reset, with any fault. Every other account keeps its record and its pending
      bytes. This one loses its pending bytes whatever happens, and its stored usage if the record
      could be read and written; its name, its limit, its previous period and its schedule stay,
      so the next reset comes when it would have come, and every sweep decides as it would have. */
  lemma ResetTouchesOnlyUsage(b: Books, id: string, f: Faults, other: string, now: Time)
    requires "" !in b.pending
    ensures var r := ResetBooks(b, id, f);
            && r.records.Keys == b.records.Keys
            && (other != id ==> SameAccount(b, r, other))
            && LedgerGet(r.pending, id) == 0
            && (id in b.records ==>
                  var before, after := b.records[id], r.records[id];
                  && SameIdentity(before, after) && SamePeriod(before, after)
                  && after.used == (if id !in f.failedReads && id !in f.failedSaves then 0 else before.used)
                  && NextTrafficReset(after.schedule) == NextTrafficReset(before.schedule)
                  && Decide(after.schedule, now) == Decide(before.schedule, now))
  {
    hide Decide, NextTrafficReset;
    CounterLaws(b.pending, id, 0, other);
    CounterLaws(b.pending, id, 0, id);
  }

  /** A roll-over that can be written closes the period with all its bytes, stored and pending,
      and moves nothing but the count of the schedule; one that cannot changes nothing. */
  lemma RollOverTouchesOnlyThePeriod(b: Books, id: string, count: nat, f: Faults, other: string)
    requires "" !in b.pending
    ensures var r := RollOverBooks(b, id, count, f);
            && r.records.Keys == b.records.Keys
            && (other != id ==> SameAccount(b, r, other))
            && (id in b.records && id !in f.failedReads && id !in f.failedSaves ==>
                  var before, after := b.records[id], r.records[id];
                  && SameIdentity(before, after)
                  && after.schedule.cycle == before.schedule.cycle && after.schedule.anchor == before.schedule.anchor
                  && after.schedule.count == count
                  && after.prev == (before.used + LedgerGet(b.pending, id)) % U64_SIZE
                  && after.used == 0 && LedgerGet(r.pending, id) == 0)
            && (id !in b.records || id in f.failedReads || id in f.failedSaves ==> r == b)
  {
    CounterLaws(b.pending, id, 0, other);
    CounterLaws(b.pending, id, 0, id);
  }

  /** A re-anchoring moves the origin and the count, and no byte. */
  lemma AnchorTouchesOnlyTheOrigin(b: Books, id: string, now: Time, f: Faults, other: string)
    ensures var r := AnchorBooks(b, id, now, f);
            && r.pending == b.pending && r.records.Keys == b.records.Keys
            && (other != id ==> SameAccount(b, r, other))
            && (id in b.records && id !in f.failedReads && id !in f.failedSaves ==>
                  var before, after := b.records[id], r.records[id];
                  && SameIdentity(before, after) && after.used == before.used && after.prev == before.prev
                  && after.schedule.cycle == before.schedule.cycle && after.schedule.anchor == now && after.schedule.count == 0)
            && (id !in b.records || id in f.failedReads || id in f.failedSaves ==> r == b)
  {
  }

  /** A flush, whatever fails, moves each account's pending bytes into its stored usage, keeps
      both where the record cannot be read or the transaction rolls back, and drops the bytes of
      accounts that are gone; no other field of any record changes. */
  lemma FlushTouchesOnlyUsage(b: Books, unreadable: set<string>, rollsBack: bool, id: string)
    ensures var r := FlushBooks(b, unreadable, rollsBack);
            && r.records.Keys == b.records.Keys
            && (rollsBack ==> SameAccount(b, r, id))
            && (id in b.records ==> SameIdentity(b.records[id], r.records[id]) && SamePeriod(b.records[id], r.records[id]))
            && (!rollsBack && id in b.records && id !in unreadable ==>
                  && r.records[id].used == (b.records[id].used + LedgerGet(b.pending, id)) % U64_SIZE
                  && LedgerGet(r.pending, id) == 0)
            && (!rollsBack && id in b.records && id in unreadable ==> SameAccount(b, r, id))
            && (!rollsBack && id !in b.records ==> LedgerGet(r.pending, id) == 0)
  {
    if Drained(b.pending) == map[] && id in b.pending { assert id !in Drained(b.pending); }
  }

  /** A flush rebuilds the resolver's copy exactly if it changed anything. */
  lemma FlushReloadsIffItChanges(b: Books, unreadable: set<string>, rollsBack: bool)
    ensures FlushReloads(b, unreadable, rollsBack) <==> FlushBooks(b, unreadable, rollsBack) != b
  {
    var deltas := Drained(b.pending);
    var back := Unapplied(b.records, deltas, unreadable);
    assert back.Keys <= deltas.Keys;
    SmallerOrSame(back.Keys, deltas.Keys);
    var r := FlushBooks(b, unreadable, rollsBack);
    if !rollsBack && deltas != map[] {
      if back.Keys == deltas.Keys {
        forall id | id in b.records ensures Applied(b.records, deltas, unreadable)[id] == b.records[id] {
          if id in deltas { assert id in back; }
        }
        forall id | id in b.pending ensures r.pending[id] == b.pending[id] {
          if id !in deltas { assert b.pending[id] == 0; }
        }
        assert r == b;
      } else {
        var id :| id in deltas && id !in back;
        assert r.pending[id] == 0 != b.pending[id];
      }
    }
  }

  lemma SmallerOrSame<T>(a: set<T>, b: set<T>)
    requires a <= b
    ensures |a| < |b| <==> a != b
  {
    if a != b {
      assert b == a + (b - a);
      assert |b - a| > 0;
    }
  }

  /** A sweep reports no rewrite exactly if no entry is due, or none that is can be written; and
      then it changed nothing. */
  lemma {:induction false} NothingRewrittenIff(b: Books, clients: seq<Listed>, f: Faults, now: Time)
    ensures Rewritten(b, clients, f, now) == 0 <==>
            forall k :: 0 <= k < |clients| ==>
              Decide(clients[k].schedule, now) == Leave || clients[k].id !in b.records
              || clients[k].id in f.failedReads || clients[k].id in f.failedSaves
    ensures Rewritten(b, clients, f, now) == 0 ==> SweepAll(b, clients, f, now) == b
    ensures Rewritten(b, clients, f, now) <= |clients|
    decreases |clients|
  {
    hide Decide;
    if clients != [] {
      var c, rest := clients[0], clients[1..];
      var b1 := SweepOne(b, c, f, now);
      NothingRewrittenIff(b1, rest, f, now);
      assert b1.records.Keys == b.records.Keys;
      assert forall k :: 0 < k < |clients| ==> clients[k] == rest[k - 1];
      if !Rewrites(b, c, f, now) { assert b1 == b; }
    }
  }
}
