/** Byte conservation over every interleaving.

    A step is one atomic action: a counter operation, a read, a save, or the commit of a
    transaction. flushMu lets at most one flush, roll-over, manual reset or re-anchoring
    be under way, which is the phase; relays add bytes between any two steps, and accounts
    are created and deleted without that lock. A sweep takes the lock once for many
    roll-overs; letting it go between them only adds interleavings.

    The resolver enforces quotas against its own copy of the records. A flush and a manual
    reset rebuild it before they release the lock, a sweep afterwards, and other callers at
    any time; the list is read first and filed second, so rebuilds overlap. */
module TrafficRuns {
  import opened Prelude
  import opened Calendar
  import opened TrafficCycle
  import opened Traffic

  datatype Phase =
    | Free
    | Draining(todo: set<string>, deltas: map<string, u64>)
    | Collected(deltas: map<string, u64>)
    | HandingBack(rest: map<string, u64>, reload: bool)
    | Reloading
    | Filing(list: map<string, Account>)
    | Taken(id: string, count: nat, bytes: u64)
    | TakenAndRead(id: string, count: nat, bytes: u64, copy: Account)
    | Returning(id: string, bytes: u64)
    | ResetCleared(id: string)
    | ResetRead(id: string, copy: Account)
    | AnchorRead(id: string, now: Time, copy: Account)

  /** What is known of the watched account's bytes. Each figure but `wraps` counts bytes
      exactly; `wraps` counts how often one of its 64-bit counters went past the top. */
  datatype Tally = Tally(metered: nat, closed: nat, discarded: nat, wraps: nat, lastClosed: nat, deleted: bool)

  /** What a caller outside the lock has read and will file in the resolver's copy. */
  datatype Refile = Whole(list: map<string, Account>) | One(id: string, account: Account)

  /** relays: bytes whose relay has looked up its counter but not added to it yet. */
  datatype World = World(books: Books, relays: multiset<(string, u64)>, phase: Phase, tally: Tally,
                         cache: map<string, Account>, refiles: multiset<Refile>)

  datatype FlushStep =
    | StartDrain
    | DrainOne(id: string)
    | EndDrain
    | Commit(unreadable: set<string>)
    | RollBack
    | HandBackOne(id: string)
    | EndFlush

  /** The rebuild at the end of a flush or a manual reset, under the lock. */
  datatype ReloadStep = ListAll(ok: bool) | FileAll

  datatype RollOverStep = Take(id: string, count: nat) | Read(ok: bool) | Save(ok: bool) | Return

  datatype ResetStep = Clear(id: string) | ReadForReset(ok: bool) | Zero(ok: bool)

  datatype OtherStep =
    | RelayLooksUp(id: string, n: u64)
    | RelayAdds(id: string, n: u64)
    | ReadForAnchor(id: string, now: Time)
    | SaveAnchor(ok: bool)
    | Edit(id: string, name: string, limitGB: real, schedule: Schedule)
    | Create(id: string, account: Account)
    | Delete(id: string)
    | ReadsAll                 // reloadCache outside the lock
    | ReadsOne(id: string)     // refreshClientIndex
    | Files(r: Refile)

  datatype Step = Flush(f: FlushStep) | RollOver(r: RollOverStep) | Reset(z: ResetStep) | Reload(l: ReloadStep)
                | Other(o: OtherStep)

  // ----- FlushTraffic

  predicate FlushEnabled(w: World, s: FlushStep) {
    var p := w.phase;
    match s
    case StartDrain => p.Free?
    case DrainOne(id) => p.Draining? && id in p.todo
    case EndDrain => p.Draining? && p.todo == {}
    case Commit(_) => p.Collected?
    case RollBack => p.Collected?
    case HandBackOne(id) => p.HandingBack? && id in p.rest
    case EndFlush => p.HandingBack? && p.rest == map[]
  }

  function FlushNext(w: World, s: FlushStep, a: string): World
    requires FlushEnabled(w, s)
  {
    var b, p, t := w.books, w.phase, w.tally;
    match s
    case StartDrain => w.(phase := Draining(b.pending.Keys, map[]))
    case DrainOne(id) =>
      var n := LedgerGet(b.pending, id);
      w.(books := b.(pending := LedgerCleared(b.pending, id)),
         phase := Draining(p.todo - {id}, if n > 0 then p.deltas[id := n] else p.deltas))
    case EndDrain => w.(phase := if p.deltas == map[] then Free else Collected(p.deltas))
    case Commit(unreadable) =>
      w.(books := b.(records := Applied(b.records, p.deltas, unreadable)),
         phase := HandingBack(Unapplied(b.records, p.deltas, unreadable),
                              |Unapplied(b.records, p.deltas, unreadable)| < |p.deltas|),
         tally := if a in p.deltas && a in b.records && a !in unreadable
                  then t.(wraps := t.wraps + Carry(b.records[a].used, p.deltas[a])) else t)
    case RollBack => w.(phase := HandingBack(p.deltas, false))
    case HandBackOne(id) =>
      w.(books := b.(pending := LedgerAdd(b.pending, id, p.rest[id])),
         phase := HandingBack(p.rest - {id}, p.reload),
         tally := if id == a then t.(wraps := t.wraps + Carry(LedgerGet(b.pending, a), p.rest[a])) else t)
    case EndFlush => w.(phase := if p.reload then Reloading else Free)
  }

  // ----- reloadCache, under the lock

  predicate ReloadEnabled(w: World, s: ReloadStep) {
    match s
    case ListAll(_) => w.phase.Reloading?
    case FileAll => w.phase.Filing?
  }

  function ReloadNext(w: World, s: ReloadStep): World
    requires ReloadEnabled(w, s)
  {
    match s
    case ListAll(ok) => w.(phase := if ok then Filing(w.books.records) else Free)
    case FileAll => w.(cache := w.phase.list, phase := Free)
  }

  // ----- resetTrafficCycle

  predicate RollOverEnabled(w: World, s: RollOverStep) {
    match s
    case Take(_, _) => w.phase.Free?
    case Read(_) => w.phase.Taken?
    case Save(_) => w.phase.TakenAndRead?
    case Return => w.phase.Returning?
  }

  function RollOverNext(w: World, s: RollOverStep, a: string): World
    requires RollOverEnabled(w, s)
  {
    var b, p, t := w.books, w.phase, w.tally;
    match s
    case Take(id, count) =>
      w.(books := b.(pending := LedgerCleared(b.pending, id)), phase := Taken(id, count, LedgerGet(b.pending, id)))
    case Read(ok) =>
      w.(phase := if ok && p.id in b.records then TakenAndRead(p.id, p.count, p.bytes, b.records[p.id])
                  else Returning(p.id, p.bytes))
    case Save(ok) =>
      if !ok then w.(phase := Returning(p.id, p.bytes))
      else
        var ended := p.copy.used + p.bytes;
        w.(books := b.(records := b.records[p.id := RolledOver(p.copy, p.bytes, p.count)]),
           phase := Free,
           tally := if p.id == a then t.(closed := t.closed + ended, lastClosed := ended) else t)
    case Return =>
      w.(books := b.(pending := LedgerAdd(b.pending, p.id, p.bytes)),
         phase := Free,
         tally := if p.id == a then t.(wraps := t.wraps + Carry(LedgerGet(b.pending, a), p.bytes)) else t)
  }

  // ----- ResetClientTraffic

  predicate ResetEnabled(w: World, s: ResetStep) {
    match s
    case Clear(_) => w.phase.Free?
    case ReadForReset(_) => w.phase.ResetCleared?
    case Zero(_) => w.phase.ResetRead?
  }

  function ResetNext(w: World, s: ResetStep, a: string): World
    requires ResetEnabled(w, s)
  {
    var b, p, t := w.books, w.phase, w.tally;
    match s
    case Clear(id) =>
      w.(books := b.(pending := LedgerCleared(b.pending, id)),
         phase := ResetCleared(id),
         tally := if id == a then t.(discarded := t.discarded + LedgerGet(b.pending, a)) else t)
    case ReadForReset(ok) =>
      w.(phase := if ok && p.id in b.records then ResetRead(p.id, b.records[p.id]) else Free)
    case Zero(ok) =>
      if !ok then w.(phase := Free)
      else w.(books := b.(records := b.records[p.id := p.copy.(used := 0)]),
              phase := Reloading,
              tally := if p.id == a then t.(discarded := t.discarded + p.copy.used) else t)
  }

  // ----- relays, re-anchoring, and operators

  predicate OtherEnabled(w: World, s: OtherStep) {
    match s
    case RelayLooksUp(id, n) => id != "" && n != 0 && (id in w.books.pending || !w.phase.Draining?)
    case RelayAdds(id, n) => (id, n) in w.relays
    case ReadForAnchor(id, _) => w.phase.Free? && id in w.books.records
    case SaveAnchor(_) => w.phase.AnchorRead?
    case Edit(id, _, _, _) => w.phase.Free? && id in w.books.records
    case Create(id, _) => id !in w.books.records
    case Delete(id) => id in w.books.records
    case ReadsAll => true
    case ReadsOne(id) => id in w.books.records
    case Files(r) => r in w.refiles
  }

  function OtherNext(w: World, s: OtherStep, a: string): World
    requires OtherEnabled(w, s)
  {
    var b, p, t := w.books, w.phase, w.tally;
    match s
    case RelayLooksUp(id, n) =>
      w.(books := b.(pending := b.pending[id := LedgerGet(b.pending, id)]), relays := w.relays + multiset{(id, n)})
    case RelayAdds(id, n) =>
      w.(books := b.(pending := b.pending[id := WrapAdd(LedgerGet(b.pending, id), n)]),
         relays := w.relays - multiset{(id, n)},
         tally := if id == a
                  then t.(metered := t.metered + n, wraps := t.wraps + Carry(LedgerGet(b.pending, a), n)) else t)
    case ReadForAnchor(id, now) => w.(phase := AnchorRead(id, now, b.records[id]))
    case SaveAnchor(ok) =>
      if !ok then w.(phase := Free)
      else
        var c := p.copy.(schedule := p.copy.schedule.(anchor := p.now, count := 0));
        w.(books := b.(records := b.records[p.id := c]), phase := Free)
    case Edit(id, name, limitGB, schedule) =>
      w.(books := b.(records := b.records[id := b.records[id].(name := name, limitGB := limitGB, schedule := schedule)]))
    case Create(id, account) => w.(books := b.(records := b.records[id := account]))
    case Delete(id) =>
      w.(books := b.(records := b.records - {id}), tally := if id == a then t.(deleted := true) else t)
    case ReadsAll => w.(refiles := w.refiles + multiset{Whole(b.records)})
    case ReadsOne(id) => w.(refiles := w.refiles + multiset{One(id, b.records[id])})
    case Files(r) =>
      w.(cache := if r.Whole? then r.list else w.cache[r.id := r.account], refiles := w.refiles - multiset{r})
  }

  // ----- runs

  predicate Enabled(w: World, s: Step) {
    match s
    case Flush(f) => FlushEnabled(w, f)
    case RollOver(r) => RollOverEnabled(w, r)
    case Reset(z) => ResetEnabled(w, z)
    case Reload(l) => ReloadEnabled(w, l)
    case Other(o) => OtherEnabled(w, o)
  }

  function Next(w: World, s: Step, a: string): World
    requires Enabled(w, s)
  {
    match s
    case Flush(f) => FlushNext(w, f, a)
    case RollOver(r) => RollOverNext(w, r, a)
    case Reset(z) => ResetNext(w, z, a)
    case Reload(l) => ReloadNext(w, l)
    case Other(o) => OtherNext(w, o, a)
  }

  /** A run is a sequence of steps, each enabled where it is taken. */
  predicate Runs(w: World, steps: seq<Step>, a: string)
    decreases |steps|
  {
    steps == [] || (Enabled(w, steps[0]) && Runs(Next(w, steps[0], a), steps[1..], a))
  }

  function After(w: World, steps: seq<Step>, a: string): World
    requires Runs(w, steps, a)
    decreases |steps|
  {
    if steps == [] then w else After(Next(w, steps[0], a), steps[1..], a)
  }

  // ----- the invariant

  /** Bytes that left the ledger and are not yet anywhere else. */
  function InFlight(p: Phase, a: string): u64 {
    match p
    case Draining(_, deltas) => LedgerGet(deltas, a)
    case Collected(deltas) => LedgerGet(deltas, a)
    case HandingBack(rest, _) => LedgerGet(rest, a)
    case Taken(id, _, bytes) => if id == a then bytes else 0
    case TakenAndRead(id, _, bytes, _) => if id == a then bytes else 0
    case Returning(id, bytes) => if id == a then bytes else 0
    case _ => 0
  }

  /** Every byte metered for a live account is in exactly one place, and the recorded total
      of the previous period is what that period consumed. */
  predicate Balanced(w: World, a: string) {
    var t := w.tally;
    && a in w.books.records
    && w.books.records[a].used + InFlight(w.phase, a) + LedgerGet(w.books.pending, a)
       + t.closed + t.discarded + U64_SIZE * t.wraps == t.metered
    && w.books.records[a].prev == t.lastClosed % U64_SIZE
  }

  /** A record read under the lock is still the stored one. */
  predicate CopyIsCurrent(w: World, a: string) {
    var p := w.phase;
    (p.TakenAndRead? || p.ResetRead? || p.AnchorRead?) && p.id == a && a in w.books.records ==>
      p.copy == w.books.records[a]
  }

  predicate LiveInv(w: World, a: string) {
    !w.tally.deleted ==> CopyIsCurrent(w, a) && Balanced(w, a)
  }

  predicate LedgerInv(w: World) {
    && "" !in w.books.pending
    // A relay that looked its counter up still finds it: counters are never removed.
    && (forall r :: r in w.relays ==> r.0 in w.books.pending)
    && (w.phase.Draining? ==> w.phase.todo !! w.phase.deltas.Keys)
  }

  predicate Inv(w: World, a: string) {
    LedgerInv(w) && LiveInv(w, a)
  }

  predicate Start(w: World, a: string) {
    && "" !in w.books.pending && a in w.books.records
    && w.relays == multiset{} && w.phase == Free
    && var account := w.books.records[a];
       w.tally == Tally(account.used + LedgerGet(w.books.pending, a), 0, 0, 0, account.prev, false)
  }

  predicate LedgerKept(w: World, n: World) {
    LedgerInv(n) && w.books.pending.Keys <= n.books.pending.Keys && (w.tally.deleted ==> n.tally.deleted)
  }

  lemma FlushKeepsTheLedger(w: World, s: FlushStep, a: string)
    requires LedgerInv(w) && FlushEnabled(w, s)
    ensures LedgerKept(w, FlushNext(w, s, a))
  {
    hide WrapAdd, Carry, Applied, Unapplied;
  }

  lemma RollOverKeepsTheLedger(w: World, s: RollOverStep, a: string)
    requires LedgerInv(w) && RollOverEnabled(w, s)
    ensures LedgerKept(w, RollOverNext(w, s, a))
  {
    hide WrapAdd, Carry;
  }

  lemma ResetKeepsTheLedger(w: World, s: ResetStep, a: string)
    requires LedgerInv(w) && ResetEnabled(w, s)
    ensures LedgerKept(w, ResetNext(w, s, a))
  {
  }

  lemma ReloadKeepsTheLedger(w: World, s: ReloadStep)
    requires LedgerInv(w) && ReloadEnabled(w, s)
    ensures LedgerKept(w, ReloadNext(w, s))
  {
  }

  lemma StepsKeepTheLedger(w: World, s: Step, a: string)
    requires LedgerInv(w) && Enabled(w, s)
    ensures LedgerKept(w, Next(w, s, a))
  {
    hide FlushNext, RollOverNext, ResetNext, ReloadNext, OtherNext, LedgerInv;
    hide FlushEnabled, RollOverEnabled, ResetEnabled, ReloadEnabled, OtherEnabled;
    match s
    case Flush(f) => FlushKeepsTheLedger(w, f, a);
    case RollOver(r) => RollOverKeepsTheLedger(w, r, a);
    case Reset(z) => ResetKeepsTheLedger(w, z, a);
    case Reload(_) => ReloadKeepsTheLedger(w, s.l);
    case Other(o) => OthersKeepTheLedger(w, o, a);
  }

  lemma RelaysKeepTheLedger(w: World, s: OtherStep, a: string)
    requires LedgerInv(w) && OtherEnabled(w, s) && (s.RelayLooksUp? || s.RelayAdds?)
    ensures LedgerKept(w, OtherNext(w, s, a))
  {
    hide WrapAdd, Carry;
  }

  lemma OthersKeepTheLedger(w: World, s: OtherStep, a: string)
    requires LedgerInv(w) && OtherEnabled(w, s)
    ensures LedgerKept(w, OtherNext(w, s, a))
  {
    if s.RelayLooksUp? || s.RelayAdds? {
      hide OtherNext, OtherEnabled;
      RelaysKeepTheLedger(w, s, a);
    }
  }

  lemma FlushKeepsTheBalance(w: World, s: FlushStep, a: string)
    requires a != "" && LedgerInv(w) && LiveInv(w, a) && FlushEnabled(w, s)
    ensures LiveInv(FlushNext(w, s, a), a)
  {
    hide WrapAdd, Carry;
    match s
    case Commit(unreadable) =>
      hide FlushNext;
      CommitKeepsTheBalance(w, unreadable, a);
    case HandBackOne(id) => WrapAddCarries(LedgerGet(w.books.pending, a), LedgerGet(w.phase.rest, a));
    case _ =>
  }

  lemma CommitKeepsTheBalance(w: World, unreadable: set<string>, a: string)
    requires LiveInv(w, a) && w.phase.Collected?
    ensures LiveInv(FlushNext(w, Commit(unreadable), a), a)
  {
    hide WrapAdd, Carry;
    if a in w.books.records { WrapAddCarries(w.books.records[a].used, LedgerGet(w.phase.deltas, a)); }
  }

  lemma RollOverKeepsTheBalance(w: World, s: RollOverStep, a: string)
    requires a != "" && LedgerInv(w) && LiveInv(w, a) && RollOverEnabled(w, s)
    ensures LiveInv(RollOverNext(w, s, a), a)
  {
    match s
    case Save(ok) =>
      hide RollOverNext;
      SaveKeepsTheBalance(w, ok, a);
    case Return =>
      hide Carry;
      WrapAddCarries(LedgerGet(w.books.pending, a), w.phase.bytes);
    case _ =>
  }

  lemma SaveKeepsTheBalance(w: World, ok: bool, a: string)
    requires LiveInv(w, a) && w.phase.TakenAndRead?
    ensures LiveInv(RollOverNext(w, Save(ok), a), a)
  {
  }

  lemma ResetKeepsTheBalance(w: World, s: ResetStep, a: string)
    requires LiveInv(w, a) && ResetEnabled(w, s)
    ensures LiveInv(ResetNext(w, s, a), a)
  {
  }

  lemma ReloadKeepsTheBalance(w: World, s: ReloadStep, a: string)
    requires LedgerInv(w) && LiveInv(w, a) && ReloadEnabled(w, s)
    ensures LiveInv(ReloadNext(w, s), a)
  {
  }

  lemma RelayKeepsTheBalance(w: World, id: string, n: u64, a: string)
    requires LiveInv(w, a) && (id, n) in w.relays
    ensures LiveInv(OtherNext(w, RelayAdds(id, n), a), a)
  {
    hide WrapAdd, Carry;
    WrapAddCarries(LedgerGet(w.books.pending, a), n);
  }

  lemma AnchorKeepsTheBalance(w: World, ok: bool, a: string)
    requires LiveInv(w, a) && w.phase.AnchorRead?
    ensures LiveInv(OtherNext(w, SaveAnchor(ok), a), a)
  {
    hide WrapAdd, Carry;
  }

  lemma OthersKeepTheBalance(w: World, s: OtherStep, a: string)
    requires LiveInv(w, a) && OtherEnabled(w, s)
    ensures LiveInv(OtherNext(w, s, a), a)
  {
    hide WrapAdd, Carry;
    match s
    case RelayAdds(id, n) =>
      hide OtherNext, LiveInv;
      RelayKeepsTheBalance(w, id, n, a);
    case SaveAnchor(ok) =>
      hide OtherNext, LiveInv;
      AnchorKeepsTheBalance(w, ok, a);
    case _ =>
  }

  lemma {:induction false} RunsKeepTheInvariant(w: World, steps: seq<Step>, a: string)
    requires a != "" && Inv(w, a) && Runs(w, steps, a)
    ensures Inv(After(w, steps, a), a)
    decreases |steps|
  {
    hide FlushNext, RollOverNext, ResetNext, ReloadNext, OtherNext, LedgerInv, LiveInv;
    hide FlushEnabled, RollOverEnabled, ResetEnabled, ReloadEnabled, OtherEnabled;
    if steps != [] {
      StepsKeepTheLedger(w, steps[0], a);
      match steps[0] {
        case Flush(f) => FlushKeepsTheBalance(w, f, a);
        case RollOver(r) => RollOverKeepsTheBalance(w, r, a);
        case Reset(z) => ResetKeepsTheBalance(w, z, a);
        case Reload(l) => ReloadKeepsTheBalance(w, l, a);
        case Other(o) => OthersKeepTheBalance(w, o, a);
      }
      RunsKeepTheInvariant(Next(w, steps[0], a), steps[1..], a);
    }
  }

  /** Conservation: whatever the interleaving and whatever fails, a live account's metered
      bytes are stored, pending, in flight, closed into a past period or discarded by a
      manual reset; nothing is counted twice and nothing vanishes. While the account has
      metered less than 2^64 bytes no counter has wrapped. */
  lemma EveryByteIsAccountedFor(w: World, steps: seq<Step>, a: string)
    requires a != "" && Start(w, a) && Runs(w, steps, a)
    requires !After(w, steps, a).tally.deleted
    ensures var r := After(w, steps, a);
            var t := r.tally;
            && a in r.books.records
            && r.books.records[a].used + LedgerGet(r.books.pending, a) + InFlight(r.phase, a)
               + t.closed + t.discarded + U64_SIZE * t.wraps == t.metered
            && (t.metered < U64_SIZE ==> t.wraps == 0)
  {
    hide Next, Enabled;
    RunsKeepTheInvariant(w, steps, a);
  }

  // ----- the figure a caller is given

  /** TrafficUsed, for a caller that holds the record `seen`: the counter is read now, the
      record may have been read long ago. */
  function Reported(w: World, a: string, seen: Account): u64 {
    WrapAdd(seen.used, LedgerGet(w.books.pending, a))
  }

  /** The bytes metered since the account's current period began. */
  function InPeriod(t: Tally): int { t.metered - t.closed - t.discarded }

  lemma SameSumSameStart(x: u64, y: u64, n: u64)
    ensures WrapAdd(x, n) == WrapAdd(y, n) <==> x == y
  {
  }

  /** At any moment of any run, whichever record the caller holds: the figure it is given is
      the period's bytes, less those in flight, if and only if its record shows the stored
      usage. The recorded previous-period figure is exactly that period's. */
  lemma ReportedUsageIsExactIff(w: World, steps: seq<Step>, a: string, seen: Account)
    requires a != "" && Start(w, a) && Runs(w, steps, a)
    requires !After(w, steps, a).tally.deleted && After(w, steps, a).tally.metered < U64_SIZE
    ensures var r := After(w, steps, a);
            && a in r.books.records
            && (Reported(r, a, seen) == InPeriod(r.tally) - InFlight(r.phase, a) <==>
                seen.used == r.books.records[a].used)
            && r.books.records[a].prev == r.tally.lastClosed % U64_SIZE
  {
    hide Next, Enabled;
    RunsKeepTheInvariant(w, steps, a);
    var r := After(w, steps, a);
    SameSumSameStart(seen.used, r.books.records[a].used, LedgerGet(r.books.pending, a));
  }

  /** Two different figures are told apart by some limit. */
  lemma SomeLimitSeparates(x: u64, y: int)
    requires y >= 0
    ensures (forall limit: real :: limit > 0.0 ==>
               (QuotaExceededFor(x, limit) <==> y as real >= limit * BYTES_PER_GB)) <==> x == y
  {
    if x != y {
      var limit := (if x > y then x else y) as real / BYTES_PER_GB;
      assert limit > 0.0 && limit * BYTES_PER_GB == (if x > y then x else y) as real;
      assert QuotaExceededFor(x, limit) == (x > y);
    }
  }

  /** Between operations, the verdict given on the record `seen` is right for every limit if
      and only if that record shows the stored usage; and then, if it shows the stored limit
      too, the account is cut off exactly when its period's bytes reach that limit. */
  lemma EnforcementIsExactIff(w: World, steps: seq<Step>, a: string, seen: Account)
    requires a != "" && Start(w, a) && Runs(w, steps, a)
    requires !After(w, steps, a).tally.deleted && After(w, steps, a).phase == Free
    requires After(w, steps, a).tally.metered < U64_SIZE
    ensures var r := After(w, steps, a);
            && a in r.books.records
            && ((forall limit: real :: limit > 0.0 ==>
                   (QuotaExceededFor(Reported(r, a, seen), limit) <==> InPeriod(r.tally) as real >= limit * BYTES_PER_GB))
                <==> seen.used == r.books.records[a].used)
            && (seen.used == r.books.records[a].used && seen.limitGB == r.books.records[a].limitGB ==>
                (QuotaExceededFor(Reported(r, a, seen), seen.limitGB) <==>
                 seen.limitGB > 0.0 && InPeriod(r.tally) as real >= seen.limitGB * BYTES_PER_GB))
  {
    hide Next, Enabled, Start, Runs, After, WrapAdd;
    ReportedUsageIsExactIff(w, steps, a, seen);
    EveryByteIsAccountedFor(w, steps, a);
    var r := After(w, steps, a);
    SomeLimitSeparates(Reported(r, a, seen), InPeriod(r.tally));
  }

  // ----- when the resolver's copy is right

  predicate SameQuota(c: Account, d: Account) { c.used == d.used && c.limitGB == d.limitGB }

  predicate Shows(list: map<string, Account>, w: World, a: string) {
    a in list && a in w.books.records && SameQuota(list[a], w.books.records[a])
  }

  /** The resolver's copy stops showing the stored usage and limit at exactly these steps:
      one that writes either of them, and one that files an older list or record. */
  lemma CopyGoesStaleIff(w: World, s: Step, a: string)
    requires a != "" && Inv(w, a) && !w.tally.deleted && Enabled(w, s) && Shows(w.cache, w, a)
    ensures !Shows(Next(w, s, a).cache, Next(w, s, a), a) <==>
            match s
            case Flush(Commit(unreadable)) => a in w.phase.deltas && a !in unreadable && w.phase.deltas[a] != 0
            case RollOver(Save(ok)) => ok && w.phase.id == a && w.cache[a].used != 0
            case Reset(Zero(ok)) => ok && w.phase.id == a && w.cache[a].used != 0
            case Reload(FileAll) => !Shows(w.phase.list, w, a)
            case Other(Edit(id, _, limitGB, _)) => id == a && limitGB != w.cache[a].limitGB
            case Other(Delete(id)) => id == a
            case Other(Files(r)) =>
              if r.Whole? then !Shows(r.list, w, a) else r.id == a && !SameQuota(r.account, w.books.records[a])
            case _ => false
  {
    hide WrapAdd, Carry, Balanced, LedgerInv;
    if s.Flush? && s.f.Commit? && a in w.phase.deltas {
      AddingSomethingShows(w.books.records[a].used, w.phase.deltas[a]);
    }
  }

  lemma AddingSomethingShows(x: u64, n: u64)
    ensures WrapAdd(x, n) == x <==> n == 0
  {
  }

  function RollOverOf(a: string, count: nat): seq<Step> {
    [Step.RollOver(Take(a, count)), Step.RollOver(Read(true)), Step.RollOver(Save(true))]
  }

  lemma RollOverSteps(w: World, a: string, count: nat)
    requires w.phase == Free && a in w.books.records
    ensures RollOverEnabled(w, Take(a, count))
    ensures var taken := RollOverNext(w, Take(a, count), a);
            && RollOverEnabled(taken, Read(true))
            && var read := RollOverNext(taken, Read(true), a);
               && RollOverEnabled(read, Save(true))
               && var n := RollOverNext(read, Save(true), a);
                  && n.phase == Free && n.cache == w.cache
                  && a in n.books.records && n.books.records[a].used == 0 && LedgerGet(n.books.pending, a) == 0
                  && n.books.records[a].limitGB == w.books.records[a].limitGB
  {
    hide WrapAdd;
  }

  lemma NothingPendingNothingAdded(w: World, a: string, seen: Account)
    requires LedgerGet(w.books.pending, a) == 0
    ensures Reported(w, a, seen) == seen.used
  {
  }

  /** A rebuild with nobody else at work shows every account as it is stored. */
  lemma UndisturbedReloadShows(w: World, a: string)
    requires a in w.books.records
    ensures Enabled(w, Other(ReadsAll))
    ensures var read := Next(w, Other(ReadsAll), a);
            && Enabled(read, Other(Files(Whole(w.books.records))))
            && Shows(Next(read, Other(Files(Whole(w.books.records))), a).cache, w, a)
  {
  }

  /** A sweep has closed the period and released the lock, and the copy is not rebuilt yet: the
      resolver still goes by the closed period's usage, with nothing metered in the new one.
      The rebuild that follows puts it right. */
  lemma SweepCutsOffUntilItsReload(w: World, a: string, count: nat)
    requires w.phase == Free && a in w.books.records && a in w.cache
    requires QuotaExceededFor(w.cache[a].used, w.cache[a].limitGB)
    ensures var steps := RollOverOf(a, count);
            && Runs(w, steps, a)
            && var n := After(w, steps, a);
               && n.phase == Free && a in n.cache && a in n.books.records
               && QuotaExceededFor(Reported(n, a, n.cache[a]), n.cache[a].limitGB)
               && !QuotaExceededFor(Reported(n, a, n.books.records[a]), n.books.records[a].limitGB)
               && Enabled(n, Other(ReadsAll))
               && var read := Next(n, Other(ReadsAll), a);
                  && Enabled(read, Other(Files(Whole(n.books.records))))
                  && Shows(Next(read, Other(Files(Whole(n.books.records))), a).cache, n, a)
  {
    hide RollOverNext, RollOverEnabled, Reported, Shows, OtherNext, OtherEnabled;
    RollOverSteps(w, a, count);
    RunsOfThree(w, RollOverOf(a, count), a);
    var n := After(w, RollOverOf(a, count), a);
    NothingPendingNothingAdded(n, a, n.cache[a]);
    NothingPendingNothingAdded(n, a, n.books.records[a]);
    UndisturbedReloadShows(n, a);
  }

  lemma RunsOfThree(w: World, steps: seq<Step>, a: string)
    requires |steps| == 3 && Enabled(w, steps[0]) && Enabled(Next(w, steps[0], a), steps[1])
    requires Enabled(Next(Next(w, steps[0], a), steps[1], a), steps[2])
    ensures Runs(w, steps, a)
    ensures After(w, steps, a) == Next(Next(Next(w, steps[0], a), steps[1], a), steps[2], a)
  {
    hide Next, Enabled;
    var w1 := Next(w, steps[0], a);
    var w2 := Next(w1, steps[1], a);
    var w3 := Next(w2, steps[2], a);
    assert steps[1..][1..] == [steps[2]] && steps[1..][1..][1..] == [];
    assert Runs(w3, [], a) && After(w3, [], a) == w3;
    assert Runs(w2, steps[1..][1..], a) && After(w2, steps[1..][1..], a) == w3;
    assert Runs(w1, steps[1..], a) && After(w1, steps[1..], a) == w3;
  }

  function FlushOf(a: string): seq<Step> {
    [Flush(StartDrain), Flush(DrainOne(a)), Flush(EndDrain), Flush(Commit({})), Flush(EndFlush), Reload(ListAll(false))]
  }

  /** A flush whose rebuild cannot read the list: the bytes are stored, nothing is pending, and
      the resolver goes by the usage from before. An account that spent its allowance since the
      last rebuild is served. */
  lemma FailedReloadServesOn(w: World, a: string, n: u64)
    requires a != "" && w.phase == Free && a in w.books.records && n > 0 && w.books.pending == map[a := n]
    requires a in w.cache && !QuotaExceededFor(w.cache[a].used, w.cache[a].limitGB)
    requires QuotaExceededFor(WrapAdd(w.books.records[a].used, n), w.books.records[a].limitGB)
    ensures Runs(w, FlushOf(a), a)
    ensures var r := After(w, FlushOf(a), a);
            && r.phase == Free && r.cache == w.cache && a in r.books.records
            && QuotaExceededFor(Reported(r, a, r.books.records[a]), r.books.records[a].limitGB)
            && !QuotaExceededFor(Reported(r, a, r.cache[a]), r.cache[a].limitGB)
  {
    hide FlushNext, FlushEnabled, Reported, QuotaExceededFor;
    FlushDrains(w, a, n);
    FlushCommits(w, a, n);
    RunsOfThree(w, FlushOf(a)[..3], a);
    RunsOfThree(After(w, FlushOf(a)[..3], a), FlushOf(a)[3..], a);
    RunsInTwo(w, FlushOf(a)[..3], FlushOf(a)[3..], a);
    assert FlushOf(a)[..3] + FlushOf(a)[3..] == FlushOf(a);
    var r := After(w, FlushOf(a), a);
    NothingPendingNothingAdded(r, a, r.books.records[a]);
    NothingPendingNothingAdded(r, a, r.cache[a]);
  }

  lemma FlushDrains(w: World, a: string, n: u64)
    requires w.phase == Free && n > 0 && w.books.pending == map[a := n]
    ensures FlushEnabled(w, StartDrain)
    ensures var w1 := FlushNext(w, StartDrain, a);
            && FlushEnabled(w1, DrainOne(a))
            && var w2 := FlushNext(w1, DrainOne(a), a);
               && FlushEnabled(w2, EndDrain)
               && FlushNext(w2, EndDrain, a) ==
                  w.(books := Books(w.books.records, map[a := 0]), phase := Collected(map[a := n]))
  {
    assert FlushNext(FlushNext(w, StartDrain, a), DrainOne(a), a).phase == Draining({}, map[a := n]);
  }

  lemma FlushCommits(w: World, a: string, n: u64)
    requires a in w.books.records && n > 0
    ensures var w3 := w.(books := Books(w.books.records, map[a := 0]), phase := Collected(map[a := n]));
            && FlushEnabled(w3, Commit({}))
            && var w4 := FlushNext(w3, Commit({}), a);
               && FlushEnabled(w4, EndFlush)
               && var w5 := FlushNext(w4, EndFlush, a);
                  && w5.phase == Reloading && w5.cache == w.cache
                  && w5.books.pending == map[a := 0] && a in w5.books.records
                  && w5.books.records[a] == Credited(w.books.records[a], n)
  {
    hide WrapAdd, Carry;
    assert Unapplied(w.books.records, map[a := n], {}) == map[];
    assert |map[a := n]| == 1;
  }

  lemma {:induction false} RunsInTwo(w: World, first: seq<Step>, second: seq<Step>, a: string)
    requires Runs(w, first, a) && Runs(After(w, first, a), second, a)
    ensures Runs(w, first + second, a)
    ensures After(w, first + second, a) == After(After(w, first, a), second, a)
    decreases |first|
  {
    hide Next, Enabled;
    if first == [] {
      assert first + second == second;
    } else {
      assert (first + second)[1..] == first[1..] + second;
      RunsInTwo(Next(w, first[0], a), first[1..], second, a);
    }
  }

  // ----- the steps, undisturbed, are the operations

  lemma UninterruptedRollOver(w: World, id: string, count: nat, a: string)
    requires LedgerInv(w) && w.phase == Free && id in w.books.records
    ensures var read := RollOverNext(RollOverNext(w, Take(id, count), a), Read(true), a);
            var unread := RollOverNext(RollOverNext(w, Take(id, count), a), Read(false), a);
            && RollOverNext(read, Save(true), a).books == RollOverBooks(w.books, id, count, Faults({}, {}))
            && RollOverNext(RollOverNext(read, Save(false), a), Return, a).books
               == RollOverBooks(w.books, id, count, Faults({}, {id}))
            && RollOverNext(unread, Return, a).books == RollOverBooks(w.books, id, count, Faults({id}, {}))
  {
    HandingBackUndoesATake(w.books.pending, id);
  }

  predicate DrainSoFar(b: Books, w: World) {
    && w.phase.Draining? && w.phase.todo <= b.pending.Keys
    && w.books == Books(b.records, map id | id in b.pending :: if id in w.phase.todo then b.pending[id] else 0)
    && w.phase.deltas == map id | id in b.pending && id !in w.phase.todo && b.pending[id] > 0 :: b.pending[id]
  }

  predicate AllCollected(b: Books, w: World) {
    w.phase == Collected(Drained(b.pending)) && w.books == Books(b.records, Zeroed(b.pending))
  }

  /** What of `back` is no longer in `rest` has been returned to the ledger. */
  predicate HandBackSoFar(b: Books, records: map<string, Account>, back: map<string, u64>, w: World) {
    && w.phase.HandingBack? && w.phase.rest.Keys <= back.Keys
    && (forall id :: id in w.phase.rest ==> w.phase.rest[id] == back[id])
    && w.books == Books(records, map id | id in b.pending ::
                                   if id in back && id !in w.phase.rest then b.pending[id] else 0)
  }

  /** How far an undisturbed flush of the books b has come. */
  predicate FlushSoFar(b: Books, unreadable: set<string>, rollsBack: bool, w: World) {
    var deltas := Drained(b.pending);
    || DrainSoFar(b, w)
    || (AllCollected(b, w) && deltas != map[])
    || (deltas != map[] && w.phase.HandingBack? && w.phase.reload == FlushReloads(b, unreadable, rollsBack) &&
        if rollsBack then HandBackSoFar(b, b.records, deltas, w)
        else HandBackSoFar(b, Applied(b.records, deltas, unreadable), Unapplied(b.records, deltas, unreadable), w))
  }

  lemma FlushStarts(w: World, unreadable: set<string>, rollsBack: bool, a: string)
    requires w.phase == Free
    ensures FlushSoFar(w.books, unreadable, rollsBack, FlushNext(w, StartDrain, a))
  {
    assert DrainSoFar(w.books, FlushNext(w, StartDrain, a));
  }

  lemma DrainingEnds(b: Books, w: World, a: string)
    requires DrainSoFar(b, w) && w.phase.todo == {}
    ensures var n := FlushNext(w, EndDrain, a);
            if Drained(b.pending) == map[] then n.phase == Free && n.books == b else AllCollected(b, n)
  {
    assert w.books.pending == Zeroed(b.pending);
    assert w.phase.deltas == Drained(b.pending);
    HandingBackAfterADrain(b.pending, map[]);
  }

  lemma HandBackGoesOn(b: Books, records: map<string, Account>, back: map<string, u64>, w: World, id: string, a: string)
    requires "" !in b.pending && HandBackSoFar(b, records, back, w) && id in w.phase.rest
    requires forall i :: i in back ==> i in b.pending && back[i] == b.pending[i] > 0
    ensures HandBackSoFar(b, records, back, FlushNext(w, HandBackOne(id), a))
  {
    hide Carry;
    assert WrapAdd(0, b.pending[id]) == b.pending[id];
  }

  lemma HandBackEnds(b: Books, unreadable: set<string>, rollsBack: bool, w: World)
    requires FlushSoFar(b, unreadable, rollsBack, w) && w.phase.HandingBack? && w.phase.rest == map[]
    ensures w.books == FlushBooks(b, unreadable, rollsBack)
  {
    hide Applied;
    HandingBackAfterADrain(b.pending, Drained(b.pending));
    if rollsBack {
      assert w.books.pending == HandedBack(Zeroed(b.pending), Drained(b.pending));
    } else {
      assert w.books.pending == FlushBooks(b, unreadable, rollsBack).pending;
    }
  }

  /** One step of an undisturbed flush, up to the end of handing back. */
  lemma FlushGoesOn(b: Books, unreadable: set<string>, rollsBack: bool, w: World, s: FlushStep, a: string)
    requires "" !in b.pending && FlushSoFar(b, unreadable, rollsBack, w) && FlushEnabled(w, s)
    requires s.Commit? ==> !rollsBack && s.unreadable == unreadable
    requires s.RollBack? ==> rollsBack
    ensures var n := FlushNext(w, s, a);
            && n.cache == w.cache
            && (FlushSoFar(b, unreadable, rollsBack, n)
                || (n.books == FlushBooks(b, unreadable, rollsBack)
                    && n.phase == if FlushReloads(b, unreadable, rollsBack) then Reloading else Free))
  {
    match s
    case DrainOne(id) => assert DrainSoFar(b, FlushNext(w, s, a));
    case EndDrain => DrainingEnds(b, w, a);
    case Commit(_) => CommitStartsHandingBack(b, unreadable, w, a);
    case RollBack => RollBackStartsHandingBack(b, w, a);
    case HandBackOne(id) =>
      hide FlushNext, HandBackSoFar, FlushReloads;
      var deltas := Drained(b.pending);
      HandBackKeepsTheRest(w, id, a);
      if rollsBack { HandBackGoesOn(b, b.records, deltas, w, id, a); }
      else { HandBackGoesOn(b, Applied(b.records, deltas, unreadable), Unapplied(b.records, deltas, unreadable), w, id, a); }
    case EndFlush =>
      hide FlushReloads, Applied;
      HandBackEnds(b, unreadable, rollsBack, w);
  }

  lemma HandBackKeepsTheRest(w: World, id: string, a: string)
    requires FlushEnabled(w, HandBackOne(id))
    ensures var n := FlushNext(w, HandBackOne(id), a);
            n.cache == w.cache && n.phase.HandingBack? && n.phase.reload == w.phase.reload
  {
  }

  /** The steps of one flush whose transaction and rebuild end as given. */
  predicate OfThisFlush(s: Step, unreadable: set<string>, rollsBack: bool, listFails: bool) {
    match s
    case Flush(StartDrain) => false
    case Flush(Commit(u)) => !rollsBack && u == unreadable
    case Flush(RollBack) => rollsBack
    case Flush(_) => true
    case Reload(ListAll(ok)) => ok == !listFails
    case Reload(FileAll) => true
    case _ => false
  }

  /** The books are settled, and the copy is about to be rebuilt, or was. */
  predicate FlushEnding(b: Books, unreadable: set<string>, rollsBack: bool, listFails: bool, cache: map<string, Account>, w: World) {
    var reloads := FlushReloads(b, unreadable, rollsBack);
    && w.books == FlushBooks(b, unreadable, rollsBack)
    && match w.phase
       case Free => w.cache == if reloads && !listFails then w.books.records else cache
       case Reloading => reloads && w.cache == cache
       case Filing(list) => reloads && !listFails && w.cache == cache && list == w.books.records
       case _ => false
  }

  predicate FlushUnderWay(b: Books, unreadable: set<string>, rollsBack: bool, listFails: bool, cache: map<string, Account>, w: World) {
    || (w.cache == cache && FlushSoFar(b, unreadable, rollsBack, w))
    || FlushEnding(b, unreadable, rollsBack, listFails, cache, w)
  }

  lemma FlushStaysUnderWay(b: Books, unreadable: set<string>, rollsBack: bool, listFails: bool, cache: map<string, Account>,
                           w: World, s: Step, a: string)
    requires "" !in b.pending && FlushUnderWay(b, unreadable, rollsBack, listFails, cache, w)
    requires Enabled(w, s) && OfThisFlush(s, unreadable, rollsBack, listFails)
    ensures FlushUnderWay(b, unreadable, rollsBack, listFails, cache, Next(w, s, a))
  {
    hide FlushNext, FlushBooks, FlushReloads;
    if s.Flush? {
      FlushNeedsItsPhase(w, s.f);
      FlushGoesOn(b, unreadable, rollsBack, w, s.f, a);
    } else {
      hide FlushSoFar;
      FlushSoFarIsEarlier(b, unreadable, rollsBack, w);
    }
  }

  lemma FlushNeedsItsPhase(w: World, s: FlushStep)
    requires FlushEnabled(w, s) && s != StartDrain
    ensures w.phase.Draining? || w.phase.Collected? || w.phase.HandingBack?
  {
  }

  lemma FlushSoFarIsEarlier(b: Books, unreadable: set<string>, rollsBack: bool, w: World)
    ensures FlushSoFar(b, unreadable, rollsBack, w) ==> w.phase.Draining? || w.phase.Collected? || w.phase.HandingBack?
  {
  }

  lemma {:induction false} FlushRunsOn(b: Books, unreadable: set<string>, rollsBack: bool, listFails: bool, cache: map<string, Account>,
                                       w: World, steps: seq<Step>, a: string)
    requires "" !in b.pending && FlushUnderWay(b, unreadable, rollsBack, listFails, cache, w)
    requires Runs(w, steps, a) && forall i :: 0 <= i < |steps| ==> OfThisFlush(steps[i], unreadable, rollsBack, listFails)
    ensures FlushUnderWay(b, unreadable, rollsBack, listFails, cache, After(w, steps, a))
    decreases |steps|
  {
    hide FlushUnderWay, Enabled, Next, OfThisFlush;
    if steps != [] {
      assert OfThisFlush(steps[0], unreadable, rollsBack, listFails);
      FlushStaysUnderWay(b, unreadable, rollsBack, listFails, cache, w, steps[0], a);
      FlushRunsOn(b, unreadable, rollsBack, listFails, cache, Next(w, steps[0], a), steps[1..], a);
    }
  }

  /** A whole flush with nobody else at work: in whatever order the counters are drained and
      handed back, once the lock is free again the books and the resolver's copy are the ones
      FlushTraffic leaves. */
  lemma UninterruptedFlush(w: World, steps: seq<Step>, unreadable: set<string>, rollsBack: bool, listFails: bool, a: string)
    requires w.phase == Free && LedgerInv(w)
    requires Runs(FlushNext(w, StartDrain, a), steps, a)
    requires forall i :: 0 <= i < |steps| ==> OfThisFlush(steps[i], unreadable, rollsBack, listFails)
    requires After(FlushNext(w, StartDrain, a), steps, a).phase == Free
    ensures var r := After(FlushNext(w, StartDrain, a), steps, a);
            && r.books == FlushBooks(w.books, unreadable, rollsBack)
            && r.cache == if FlushReloads(w.books, unreadable, rollsBack) && !listFails then r.books.records else w.cache
  {
    hide OfThisFlush, FlushSoFar, FlushBooks, FlushReloads;
    FlushStarts(w, unreadable, rollsBack, a);
    FlushRunsOn(w.books, unreadable, rollsBack, listFails, w.cache, FlushNext(w, StartDrain, a), steps, a);
    FlushSoFarIsEarlier(w.books, unreadable, rollsBack, After(FlushNext(w, StartDrain, a), steps, a));
  }

  /** The same for a manual reset, in each of its outcomes. */
  lemma UninterruptedReset(w: World, id: string, a: string)
    requires w.phase == Free
    ensures var cleared := ResetNext(w, Clear(id), a);
            var unread := ResetNext(cleared, ReadForReset(false), a);
            var read := ResetNext(cleared, ReadForReset(true), a);
            && unread.phase == Free && unread.books == ResetBooks(w.books, id, Faults({id}, {})) && unread.cache == w.cache
            && (id !in w.books.records ==>
                  read.phase == Free && read.books == ResetBooks(w.books, id, Faults({}, {})) && read.cache == w.cache)
            && (id in w.books.records ==>
                  var unsaved := ResetNext(read, Zero(false), a);
                  var saved := ResetNext(read, Zero(true), a);
                  var reloaded := ReloadNext(ReloadNext(saved, ListAll(true)), FileAll);
                  var stale := ReloadNext(saved, ListAll(false));
                  && unsaved.phase == Free && unsaved.books == ResetBooks(w.books, id, Faults({}, {id})) && unsaved.cache == w.cache
                  && reloaded.phase == stale.phase == Free
                  && reloaded.books == stale.books == ResetBooks(w.books, id, Faults({}, {}))
                  && reloaded.cache == reloaded.books.records && stale.cache == w.cache)
  {
  }

  /** And for a re-anchoring. */
  lemma UninterruptedAnchor(w: World, id: string, now: Time, a: string)
    requires w.phase == Free && id in w.books.records
    ensures var read := OtherNext(w, ReadForAnchor(id, now), a);
            && OtherNext(read, SaveAnchor(true), a) == w.(books := AnchorBooks(w.books, id, now, Faults({}, {})))
            && OtherNext(read, SaveAnchor(false), a) == w.(books := AnchorBooks(w.books, id, now, Faults({}, {id})))
  {
  }

  lemma CommitStartsHandingBack(b: Books, unreadable: set<string>, w: World, a: string)
    requires AllCollected(b, w)
    ensures var deltas := Drained(b.pending);
            HandBackSoFar(b, Applied(b.records, deltas, unreadable), Unapplied(b.records, deltas, unreadable),
                          FlushNext(w, Commit(unreadable), a))
  {
    hide Applied, Carry;
  }

  lemma RollBackStartsHandingBack(b: Books, w: World, a: string)
    requires AllCollected(b, w)
    ensures HandBackSoFar(b, b.records, Drained(b.pending), FlushNext(w, RollBack, a))
  {
  }
}
