/** Metered traffic: the in-memory ledger, the account records it is flushed into, and
    the service operations that move bytes between them (internal/service/traffic.go,
    AddClientTraffic in internal/database/client_repo.go, and the sweep and reset
    operations that hold flushMu).

    A database fault is an input: which reads and saves fail, which records cannot be
    decrypted, and whether a write transaction rolls back. */
module Traffic {
  import opened Prelude
  import opened Calendar
  import opened TrafficCycle

  /** The quota side of a client record. */
  datatype Account = Account(name: string, limitGB: real, schedule: Schedule, used: u64, prev: u64)

  /** Everything the operations change: the stored records and the pending counters. */
  datatype Books = Books(records: map<string, Account>, pending: map<string, u64>)

  // ----- the ledger

  function LedgerGet(p: map<string, u64>, id: string): u64 {
    if id in p then p[id] else 0
  }

  function LedgerAdd(p: map<string, u64>, id: string, n: u64): map<string, u64> {
    if id == "" || n == 0 then p else p[id := WrapAdd(LedgerGet(p, id), n)]
  }

  function LedgerCleared(p: map<string, u64>, id: string): map<string, u64> {
    if id in p then p[id := 0] else p
  }

  function Drained(p: map<string, u64>): map<string, u64> {
    map id | id in p && p[id] > 0 :: p[id]
  }

  function Zeroed(p: map<string, u64>): map<string, u64> {
    map id | id in p :: 0
  }

  class TrafficLedger {
    var pending: map<string, u64>

    ghost predicate Valid()
      reads this
    { "" !in pending }

    constructor ()
      ensures Valid() && pending == map[]
    {
      pending := map[];
    }

    /** Makes sure the account has a counter. Counters are never removed. */
    method Counter(id: string)
      requires Valid() && id != ""
      modifies this
      ensures Valid() && pending == old(pending)[id := LedgerGet(old(pending), id)]
    {
      if id !in pending { pending := pending[id := 0]; }
    }

    method Add(id: string, n: u64)
      requires Valid()
      modifies this
      ensures Valid() && pending == LedgerAdd(old(pending), id, n)
    {
      if id == "" || n == 0 { return; }
      Counter(id);
      pending := pending[id := WrapAdd(pending[id], n)];
    }

    method Get(id: string) returns (n: u64)
      requires Valid()
      ensures n == LedgerGet(pending, id)
    {
      if id == "" { return 0; }
      n := if id in pending then pending[id] else 0;
    }

    method Reset(id: string)
      requires Valid()
      modifies this
      ensures Valid() && pending == LedgerCleared(old(pending), id)
    {
      if id in pending { pending := pending[id := 0]; }
    }

    method Take(id: string) returns (n: u64)
      requires Valid()
      modifies this
      ensures Valid() && pending == LedgerCleared(old(pending), id) && n == LedgerGet(old(pending), id)
    {
      if id == "" { return 0; }
      if id !in pending { return 0; }
      n := pending[id];
      pending := pending[id := 0];
    }

    method Drain() returns (out: map<string, u64>)
      requires Valid()
      modifies this
      ensures Valid() && pending == Zeroed(old(pending)) && out == Drained(old(pending))
    {
      out := map[];
      var todo := pending.Keys;
      while todo != {}
        invariant todo <= old(pending).Keys == pending.Keys
        invariant forall id :: id in pending ==> pending[id] == if id in todo then old(pending)[id] else 0
        invariant forall id :: id in out <==> id in old(pending) && id !in todo && old(pending)[id] > 0
        invariant forall id :: id in out ==> out[id] == old(pending)[id]
        decreases todo
      {
        var id :| id in todo;
        var n := pending[id];
        pending := pending[id := 0];
        if n > 0 { out := out[id := n]; }
        todo := todo - {id};
      }
    }
  }

  /** The counters once every amount in `back` has been added again. */
  function HandedBack(p: map<string, u64>, back: map<string, u64>): map<string, u64> {
    map id | id in p.Keys + back.Keys ::
      if id in back then WrapAdd(LedgerGet(p, id), back[id]) else p[id]
  }

  // ----- the stored records

  /** The deltas a committed transaction hands back: those of records it cannot read.
      Deltas of deleted accounts are dropped. */
  function Unapplied(records: map<string, Account>, deltas: map<string, u64>, unreadable: set<string>)
    : map<string, u64>
  {
    map id | id in deltas && deltas[id] != 0 && id in records && id in unreadable :: deltas[id]
  }

  function Credited(a: Account, n: u64): Account {
    a.(used := WrapAdd(a.used, n))
  }

  function Applied(records: map<string, Account>, deltas: map<string, u64>, unreadable: set<string>)
    : map<string, Account>
  {
    map id | id in records ::
      if id in deltas && id !in unreadable then Credited(records[id], deltas[id]) else records[id]
  }

  class AccountStore {
    var records: map<string, Account>

    constructor (records: map<string, Account>)
      ensures this.records == records
    {
      this.records := records;
    }

    method GetClient(id: string, fails: bool) returns (client: Option<Account>)
      ensures client == if fails || id !in records then None else Some(records[id])
    {
      client := if fails || id !in records then None else Some(records[id]);
    }

    method SaveClient(id: string, client: Account, fails: bool) returns (ok: bool)
      modifies this
      ensures ok == !fails
      ensures records == if fails then old(records) else old(records)[id := client]
    {
      ok := !fails;
      if ok { records := records[id := client]; }
    }

    /** One write transaction over every delta; a rollback hands all of them back. */
    method AddClientTraffic(deltas: map<string, u64>, unreadable: set<string>, rollsBack: bool)
      returns (unapplied: map<string, u64>, failed: bool)
      modifies this
      ensures failed == (rollsBack && deltas != map[])
      ensures records == if failed then old(records) else Applied(old(records), deltas, unreadable)
      ensures unapplied == if failed then deltas else Unapplied(old(records), deltas, unreadable)
    {
      unapplied, failed := map[], false;
      if deltas == map[] {
        assert Applied(records, deltas, unreadable) == records;
        return;
      }
      var bucket := records;
      var todo := deltas.Keys;
      while todo != {}
        invariant todo <= deltas.Keys && bucket.Keys == records.Keys
        invariant forall id :: id in bucket ==>
          bucket[id] == if id in todo then records[id] else Applied(records, deltas, unreadable)[id]
        invariant forall id :: id in unapplied <==>
          id !in todo && id in Unapplied(records, deltas, unreadable)
        invariant forall id :: id in unapplied ==> unapplied[id] == deltas[id]
        decreases todo
      {
        var id :| id in todo;
        var n := deltas[id];
        if n != 0 && id in bucket {
          if id in unreadable {
            unapplied := unapplied[id := n];
          } else {
            bucket := bucket[id := bucket[id].(used := WrapAdd(bucket[id].used, n))];
          }
        }
        todo := todo - {id};
      }
      if rollsBack {
        return deltas, true;
      }
      assert bucket == Applied(records, deltas, unreadable);
      assert unapplied == Unapplied(records, deltas, unreadable);
      records := bucket;
    }
  }

  // ----- what the operations under flushMu do to the books

  /** Which single-record reads and saves fail. */
  datatype Faults = Faults(failedReads: set<string>, failedSaves: set<string>)

  predicate Writable(b: Books, id: string, f: Faults) {
    id in b.records && id !in f.failedReads && id !in f.failedSaves
  }

  function FlushBooks(b: Books, unreadable: set<string>, rollsBack: bool): Books {
    var deltas := Drained(b.pending);
    if rollsBack || deltas == map[] then b
    else
      var back := Unapplied(b.records, deltas, unreadable);
      Books(Applied(b.records, deltas, unreadable),
            map id | id in b.pending :: if id in back then b.pending[id] else 0)
  }

  /** The period that ended consumed what was stored plus what was pending. */
  function RolledOver(a: Account, pending: u64, count: nat): Account {
    a.(prev := WrapAdd(a.used, pending), used := 0, schedule := a.schedule.(count := count))
  }

  function RollOverBooks(b: Books, id: string, count: nat, f: Faults): Books {
    if Writable(b, id, f)
    then Books(b.records[id := RolledOver(b.records[id], LedgerGet(b.pending, id), count)],
               LedgerCleared(b.pending, id))
    else b
  }

  function AnchorBooks(b: Books, id: string, now: Time, f: Faults): Books {
    if Writable(b, id, f)
    then var a := b.records[id];
         b.(records := b.records[id := a.(schedule := a.schedule.(anchor := now, count := 0))])
    else b
  }

  /** A manual reset clears the pending counter even when the record cannot be written. */
  function ResetBooks(b: Books, id: string, f: Faults): Books {
    var pending := LedgerCleared(b.pending, id);
    if Writable(b, id, f)
    then Books(b.records[id := b.records[id].(used := 0)], pending)
    else b.(pending := pending)
  }

  /** An entry of the account list a sweep was given; it may be older than the record. */
  datatype Listed = Listed(id: string, schedule: Schedule)

  function SweepOne(b: Books, c: Listed, f: Faults, now: Time): Books {
    match Decide(c.schedule, now)
    case Leave => b
    case Reanchor => AnchorBooks(b, c.id, now, f)
    case RollOver(n) => RollOverBooks(b, c.id, n, f)
  }

  predicate Rewrites(b: Books, c: Listed, f: Faults, now: Time) {
    !Decide(c.schedule, now).Leave? && Writable(b, c.id, f)
  }

  function SweepAll(b: Books, clients: seq<Listed>, f: Faults, now: Time): Books
    decreases |clients|
  {
    if clients == [] then b else SweepAll(SweepOne(b, clients[0], f, now), clients[1..], f, now)
  }

  function Rewritten(b: Books, clients: seq<Listed>, f: Faults, now: Time): nat
    decreases |clients|
  {
    if clients == [] then 0
    else (if Rewrites(b, clients[0], f, now) then 1 else 0)
         + Rewritten(SweepOne(b, clients[0], f, now), clients[1..], f, now)
  }

  lemma HandingBackUndoesATake(p: map<string, u64>, id: string)
    requires "" !in p
    ensures LedgerAdd(LedgerCleared(p, id), id, LedgerGet(p, id)) == p
  {
    if id in p {
      assert WrapAdd(0, p[id]) == p[id];
      assert p[id := 0][id := p[id]] == p;
      if p[id] == 0 { assert p[id := 0] == p; }
    }
  }

  /** Draining and handing some of it back leaves exactly that in the counters; handing
      back everything restores them. */
  lemma HandingBackAfterADrain(p: map<string, u64>, back: map<string, u64>)
    requires forall id :: id in back ==> id in p && back[id] == p[id]
    ensures HandedBack(Zeroed(p), back) == map id | id in p :: if id in back then p[id] else 0
    ensures back == Drained(p) ==> HandedBack(Zeroed(p), back) == p
    ensures Drained(p) == map[] ==> Zeroed(p) == p
  {
    forall id | id in back ensures WrapAdd(0, p[id]) == p[id] {}
    if back == Drained(p) {
      forall id | id in p && id !in back ensures p[id] == 0 { assert id !in Drained(p); }
    }
    if Drained(p) == map[] {
      forall id | id in p ensures p[id] == 0 { assert id !in Drained(p); }
    }
  }

  const BYTES_PER_GB: real := 1073741824.0

  /** The allowance test: a limit of zero or less is no limit. */
  predicate QuotaExceededFor(used: u64, limitGB: real) {
    limitGB > 0.0 && used as real >= limitGB * BYTES_PER_GB
  }

  /** A flush rebuilds the resolver's copy only if something was written. */
  predicate FlushReloads(b: Books, unreadable: set<string>, rollsBack: bool) {
    var deltas := Drained(b.pending);
    !rollsBack && |Unapplied(b.records, deltas, unreadable)| < |deltas|
  }

  class ClientService {
    const traffic: TrafficLedger
    const db: AccountStore
    /** The resolver's copy of the stored records; ClientIndex has its tables. */
    var cache: map<string, Account>

    ghost predicate Valid()
      reads traffic
    { traffic.Valid() }

    ghost function State(): Books
      reads traffic, db
    { Books(db.records, traffic.pending) }

    constructor (db: AccountStore)
      ensures Valid() && fresh(traffic) && this.db == db
      ensures State() == Books(db.records, map[]) && cache == map[]
    {
      this.db := db;
      traffic := new TrafficLedger();
      cache := map[];
    }

    /** reloadCache: a list that cannot be read leaves the copy as it is, and nobody is told. */
    method ReloadCache(fails: bool)
      modifies `cache
      ensures cache == if fails then old(cache) else db.records
    {
      if fails { return; }
      cache := db.records;
    }

    method AddTraffic(id: string, n: u64)
      requires Valid()
      modifies traffic
      ensures Valid()
      ensures State() == old(State()).(pending := LedgerAdd(old(traffic.pending), id, n))
    {
      traffic.Add(id, n);
    }

    /** `seen` is the record the caller holds, usually the resolver's copy. */
    method TrafficUsed(id: string, seen: Account) returns (total: u64)
      requires Valid()
      ensures total == WrapAdd(seen.used, LedgerGet(traffic.pending, id))
    {
      var n := traffic.Get(id);
      total := WrapAdd(seen.used, n);
    }

    method QuotaExceeded(id: string, seen: Account) returns (exceeded: bool)
      requires Valid()
      ensures exceeded == QuotaExceededFor(WrapAdd(seen.used, LedgerGet(traffic.pending, id)), seen.limitGB)
    {
      var used := TrafficUsed(id, seen);
      exceeded := QuotaExceededFor(used, seen.limitGB);
    }

    method FlushTraffic(unreadable: set<string>, rollsBack: bool, reloadFails: bool) returns (failed: bool)
      requires Valid()
      modifies traffic, db, `cache
      ensures Valid()
      ensures failed == (rollsBack && Drained(old(traffic.pending)) != map[])
      ensures State() == FlushBooks(old(State()), unreadable, rollsBack)
      ensures cache == if FlushReloads(old(State()), unreadable, rollsBack) && !reloadFails then db.records else old(cache)
    {
      ghost var before := traffic.pending;
      var deltas := traffic.Drain();
      if deltas == map[] {
        HandingBackAfterADrain(before, map[]);
        return false;
      }
      var unapplied: map<string, u64>;
      unapplied, failed := db.AddClientTraffic(deltas, unreadable, rollsBack);
      HandBack(unapplied);
      HandingBackAfterADrain(before, unapplied);
      if failed { return; }
      if |unapplied| < |deltas| { ReloadCache(reloadFails); }
    }

    /** The loop that returns bytes a transaction did not apply to the ledger. */
    method HandBack(unapplied: map<string, u64>)
      requires Valid() && "" !in unapplied
      requires forall id :: id in unapplied ==> unapplied[id] != 0
      modifies traffic
      ensures Valid() && traffic.pending == HandedBack(old(traffic.pending), unapplied)
    {
      ghost var before := traffic.pending;
      var todo := unapplied.Keys;
      while todo != {}
        invariant Valid() && todo <= unapplied.Keys
        invariant traffic.pending.Keys == before.Keys + (unapplied.Keys - todo)
        invariant forall id :: id in traffic.pending ==>
          traffic.pending[id] == if id in todo then before[id] else HandedBack(before, unapplied)[id]
        decreases todo
      {
        var id :| id in todo;
        traffic.Add(id, unapplied[id]);
        todo := todo - {id};
      }
    }

    method AnchorTrafficCycle(id: string, now: Time, f: Faults) returns (written: bool)
      requires Valid()
      modifies db
      ensures written == Writable(old(State()), id, f)
      ensures State() == AnchorBooks(old(State()), id, now, f)
    {
      var client := db.GetClient(id, id in f.failedReads);
      if client.None? { return false; }
      var c := client.value;
      c := c.(schedule := c.schedule.(anchor := now, count := 0));
      written := db.SaveClient(id, c, id in f.failedSaves);
    }

    method ResetTrafficCycle(id: string, newCount: nat, f: Faults) returns (written: bool)
      requires Valid()
      modifies traffic, db
      ensures Valid()
      ensures written == Writable(old(State()), id, f)
      ensures State() == RollOverBooks(old(State()), id, newCount, f)
    {
      HandingBackUndoesATake(traffic.pending, id);
      var pending := traffic.Take(id);
      var client := db.GetClient(id, id in f.failedReads);
      if client.None? {
        traffic.Add(id, pending);
        return false;
      }
      var c := client.value;
      c := c.(prev := WrapAdd(c.used, pending));
      c := c.(used := 0);
      c := c.(schedule := c.schedule.(count := newCount));
      written := db.SaveClient(id, c, id in f.failedSaves);
      if !written {
        traffic.Add(id, pending);
      }
    }

    method ApplyTrafficCycles(clients: seq<Listed>, now: Time, f: Faults) returns (changed: nat)
      requires Valid()
      modifies traffic, db
      ensures Valid()
      ensures State() == SweepAll(old(State()), clients, f, now)
      ensures changed == Rewritten(old(State()), clients, f, now)
    {
      hide Decide, AnchorBooks, RollOverBooks, Writable;
      changed := 0;
      var i := 0;
      while i < |clients|
        invariant Valid() && 0 <= i <= |clients|
        invariant SweepAll(State(), clients[i..], f, now) == SweepAll(old(State()), clients, f, now)
        invariant changed + Rewritten(State(), clients[i..], f, now) == Rewritten(old(State()), clients, f, now)
      {
        var c := clients[i];
        assert clients[i..][0] == c && clients[i..][1..] == clients[i + 1..];
        var written := SweepAccount(c, now, f);
        if written { changed := changed + 1; }
        i := i + 1;
      }
    }

    /** The body of the sweep's loop. */
    method SweepAccount(c: Listed, now: Time, f: Faults) returns (written: bool)
      requires Valid()
      modifies traffic, db
      ensures Valid()
      ensures State() == SweepOne(old(State()), c, f, now)
      ensures written == Rewrites(old(State()), c, f, now)
    {
      hide TrafficCycleEnd, NormalizeTrafficCycle, Due, AnchorBooks, RollOverBooks, Writable;
      var name := NormalizeTrafficCycle(c.schedule.cycle);
      if name.None? || name.value == "" { return false; }
      var anchor, count := c.schedule.anchor, c.schedule.count;
      if anchor == 0 {
        written := AnchorTrafficCycle(c.id, now, f);
        return;
      }
      var elapsed := DueTrafficResets(name.value, anchor, count, now);
      if elapsed == 0 { return false; }
      var end := TrafficCycleEnd(name.value, anchor, count + elapsed);
      if end.None? || !(now < end.value) {
        written := AnchorTrafficCycle(c.id, now, f);
        return;
      }
      written := ResetTrafficCycle(c.id, count + elapsed, f);
    }

    /** sweepClients, once it has its list: `deactivated` counts the expired accounts it
        switched off. The copy is rebuilt after the lock is released. */
    method SweepClients(clients: seq<Listed>, deactivated: nat, now: Time, f: Faults, reloadFails: bool)
      requires Valid()
      modifies traffic, db, `cache
      ensures Valid()
      ensures State() == SweepAll(old(State()), clients, f, now)
      ensures cache == if deactivated + Rewritten(old(State()), clients, f, now) > 0 && !reloadFails
                       then db.records else old(cache)
    {
      var changed := ApplyTrafficCycles(clients, now, f);
      if deactivated + changed > 0 { ReloadCache(reloadFails); }
    }

    method ResetClientTraffic(id: string, f: Faults, reloadFails: bool) returns (failed: bool)
      requires Valid()
      modifies traffic, db, `cache
      ensures Valid()
      ensures failed == !Writable(old(State()), id, f)
      ensures State() == ResetBooks(old(State()), id, f)
      ensures cache == if !failed && !reloadFails then db.records else old(cache)
    {
      traffic.Reset(id);
      var client := db.GetClient(id, id in f.failedReads);
      if client.None? { return true; }
      var ok := db.SaveClient(id, client.value.(used := 0), id in f.failedSaves);
      if !ok { return true; }
      ReloadCache(reloadFails);
      return false;
    }
  }
}
