/** The login lockout (internal/service/login_attempts.go): a log of failures that is pruned
    whenever it is touched, against the full history it stands for. */
module LoginAttempts {
  import opened Prelude

  const WINDOW: int := 10 * 60 * 1_000_000_000
  const MAX_FAILURES := 3
  const MAX_TRACKED := 4096

  /** The entries after the cutoff, in order. */
  function Recent(times: seq<Time>, cutoff: Time): seq<Time> {
    if times == [] then []
    else Recent(times[..|times| - 1], cutoff)
         + (if times[|times| - 1] > cutoff then [times[|times| - 1]] else [])
  }

  lemma {:induction false} RecentAgain(times: seq<Time>, earlier: Time, cutoff: Time)
    requires earlier <= cutoff
    ensures Recent(Recent(times, earlier), cutoff) == Recent(times, cutoff)
  {
    if times != [] {
      var init, last := times[..|times| - 1], times[|times| - 1];
      RecentAgain(init, earlier, cutoff);
      if last > earlier {
        assert Recent(times, earlier) == Recent(init, earlier) + [last];
        RecentAppend(Recent(init, earlier), last, cutoff);
      } else {
        assert Recent(times, earlier) == Recent(init, earlier);
        assert Recent(times, cutoff) == Recent(init, cutoff);
      }
    }
  }

  lemma RecentAppend(times: seq<Time>, t: Time, cutoff: Time)
    ensures Recent(times + [t], cutoff) == Recent(times, cutoff) + (if t > cutoff then [t] else [])
  {
    assert (times + [t])[..|times|] == times;
  }

  type Attempts = map<string, seq<Time>>

  function Log(m: Attempts, ip: string): seq<Time> {
    if ip in m then m[ip] else []
  }

  function Filed(m: Attempts, ip: string, times: seq<Time>): Attempts {
    if times == [] then m - {ip} else m[ip := times]
  }

  function Pruned(m: Attempts, ip: string, cutoff: Time): Attempts {
    Filed(m, ip, Recent(Log(m, ip), cutoff))
  }

  function Swept(m: Attempts, cutoff: Time): Attempts {
    map ip | ip in m && Recent(m[ip], cutoff) != [] :: Recent(m[ip], cutoff)
  }

  function AfterFailure(m: Attempts, ip: string, now: Time): Attempts {
    var pruned := Pruned(m[ip := Log(m, ip) + [now]], ip, now - WINDOW);
    if |pruned| > MAX_TRACKED then Swept(pruned, now - WINDOW) else pruned
  }

  class LoginAttemptTracker {
    var attempts: Attempts

    constructor ()
      ensures attempts == map[]
    {
      attempts := map[];
    }

    method IsBlocked(ip: string, now: Time) returns (blocked: bool)
      modifies this
      ensures attempts == Pruned(old(attempts), ip, now - WINDOW)
      ensures blocked <==> |Log(attempts, ip)| >= MAX_FAILURES
    {
      PruneLocked(ip, now);
      blocked := ip in attempts && |attempts[ip]| >= MAX_FAILURES;
    }

    method RecordFailure(ip: string, now: Time)
      modifies this
      ensures attempts == AfterFailure(old(attempts), ip, now)
    {
      attempts := attempts[ip := (if ip in attempts then attempts[ip] else []) + [now]];
      PruneLocked(ip, now);
      if |attempts| > MAX_TRACKED { SweepLocked(now); }
    }

    method RecordSuccess(ip: string)
      modifies this
      ensures attempts == old(attempts) - {ip}
    {
      attempts := attempts - {ip};
    }

    method Reset(ip: string) returns (existed: bool)
      modifies this
      ensures existed <==> ip in old(attempts)
      ensures attempts == old(attempts) - {ip}
    {
      existed := ip in attempts;
      attempts := attempts - {ip};
    }

    method ResetAll() returns (n: nat)
      modifies this
      ensures n == |old(attempts)| && attempts == map[]
    {
      n := |attempts|;
      attempts := map[];
    }

    method Count(now: Time) returns (n: nat)
      modifies this
      ensures attempts == Swept(old(attempts), now - WINDOW) && n == |attempts|
    {
      SweepLocked(now);
      n := |attempts|;
    }

    method PruneLocked(ip: string, now: Time)
      modifies this
      ensures attempts == Pruned(old(attempts), ip, now - WINDOW)
    {
      if ip !in attempts {
        assert attempts - {ip} == attempts;
        return;
      }
      var times := attempts[ip];
      var cutoff := now - WINDOW;
      var valid: seq<Time> := [];
      for i := 0 to |times|
        invariant valid == Recent(times[..i], cutoff)
      {
        assert times[..i + 1][..i] == times[..i];
        if times[i] > cutoff { valid := valid + [times[i]]; }
      }
      assert times[..|times|] == times;
      if |valid| == 0 {
        attempts := attempts - {ip};
        return;
      }
      attempts := attempts[ip := valid];
    }

    method SweepLocked(now: Time)
      modifies this
      ensures attempts == Swept(old(attempts), now - WINDOW)
    {
      hide Recent;
      var todo := attempts.Keys;
      while todo != {}
        invariant todo <= old(attempts).Keys
        invariant forall ip :: ip in attempts <==>
          ip in old(attempts) && (ip in todo || Recent(old(attempts)[ip], now - WINDOW) != [])
        invariant forall ip :: ip in attempts ==>
          attempts[ip] == if ip in todo then old(attempts)[ip] else Recent(old(attempts)[ip], now - WINDOW)
        decreases todo
      {
        var ip :| ip in todo;
        PruneLocked(ip, now);
        todo := todo - {ip};
      }
    }
  }

  // ----- the history the log stands for

  datatype Event =
    | Failure(ip: string, at: Time)
    | Asked(ip: string, at: Time)
    | Counted(at: Time)
    | Success(ip: string)
    | ResetOne(ip: string)
    | ResetEvery

  function Apply(m: Attempts, e: Event): Attempts {
    match e
    case Failure(ip, at) => AfterFailure(m, ip, at)
    case Asked(ip, at) => Pruned(m, ip, at - WINDOW)
    case Counted(at) => Swept(m, at - WINDOW)
    case Success(ip) => m - {ip}
    case ResetOne(ip) => m - {ip}
    case ResetEvery => map[]
  }

  function Tracked(events: seq<Event>): Attempts {
    if events == [] then map[] else Apply(Tracked(events[..|events| - 1]), events[|events| - 1])
  }

  /** Every failure of the address since its last success or reset; nothing forgotten. */
  function History(events: seq<Event>, ip: string): seq<Time> {
    if events == [] then []
    else
      var before := History(events[..|events| - 1], ip);
      match events[|events| - 1]
      case Failure(other, at) => if other == ip then before + [at] else before
      case Success(other) => if other == ip then [] else before
      case ResetOne(other) => if other == ip then [] else before
      case ResetEvery => []
      case _ => before
  }

  /** The clock readings never go back; `now` is none earlier than any of them. */
  predicate ClockRuns(events: seq<Event>, now: Time) {
    events == [] ||
    var e := events[|events| - 1];
    if e.Failure? || e.Asked? || e.Counted? then e.at <= now && ClockRuns(events[..|events| - 1], e.at)
    else ClockRuns(events[..|events| - 1], now)
  }

  /** Pruning at a cutoff, for one address or for all, changes no answer about later
      cutoffs, for any address. */
  lemma PruningIsInvisible(m: Attempts, ip: string, other: string, cutoff: Time, later: Time)
    requires cutoff <= later
    ensures Recent(Log(Pruned(m, ip, cutoff), other), later) == Recent(Log(m, other), later)
    ensures Recent(Log(Swept(m, cutoff), other), later) == Recent(Log(m, other), later)
  {
    RecentAgain(Log(m, other), cutoff, later);
  }

  lemma FailureIsLogged(m: Attempts, ip: string, at: Time, other: string, later: Time)
    requires at - WINDOW <= later
    ensures Recent(Log(AfterFailure(m, ip, at), other), later) ==
            Recent(if other == ip then Log(m, ip) + [at] else Log(m, other), later)
  {
    hide Recent;
    var logged := m[ip := Log(m, ip) + [at]];
    PruningIsInvisible(logged, ip, other, at - WINDOW, later);
    PruningIsInvisible(Pruned(logged, ip, at - WINDOW), ip, other, at - WINDOW, later);
  }

  /** The log and the full history agree about everything inside the window. */
  lemma {:induction false} LogRefinesHistory(events: seq<Event>, ip: string, now: Time, cutoff: Time)
    requires ClockRuns(events, now) && now - WINDOW <= cutoff
    ensures Recent(Log(Tracked(events), ip), cutoff) == Recent(History(events, ip), cutoff)
    decreases |events|
  {
    hide Recent, AfterFailure, Pruned, Swept;
    if events != [] {
      var init, e := events[..|events| - 1], events[|events| - 1];
      var m := Tracked(init);
      match e {
        case Failure(other, at) =>
          LogRefinesHistory(init, ip, at, cutoff);
          FailureIsLogged(m, other, at, ip, cutoff);
          RecentAppend(Log(m, ip), at, cutoff);
          RecentAppend(History(init, ip), at, cutoff);
        case Asked(other, at) =>
          LogRefinesHistory(init, ip, at, cutoff);
          PruningIsInvisible(m, other, ip, at - WINDOW, cutoff);
        case Counted(at) =>
          LogRefinesHistory(init, ip, at, cutoff);
          PruningIsInvisible(m, ip, ip, at - WINDOW, cutoff);
        case _ =>
          LogRefinesHistory(init, ip, now, cutoff);
      }
    }
  }

  // ----- the decision, in terms of the events alone

  predicate Clears(e: Event, ip: string) {
    e == Success(ip) || e == ResetOne(ip) || e == ResetEvery
  }

  /** Event i is a failure of the address, later than the cutoff, that nothing cleared since. */
  predicate Counts(events: seq<Event>, i: int, ip: string, cutoff: Time)
    requires 0 <= i < |events|
  {
    && events[i].Failure? && events[i].ip == ip && events[i].at > cutoff
    && forall j :: i < j < |events| ==> !Clears(events[j], ip)
  }

  function Counted(events: seq<Event>, ip: string, cutoff: Time): set<int> {
    set i | 0 <= i < |events| && Counts(events, i, ip, cutoff)
  }

  lemma CountedNext(events: seq<Event>, ip: string, cutoff: Time)
    requires events != []
    ensures var n := |events| - 1;
            Counted(events, ip, cutoff) ==
            (if Clears(events[n], ip) then {} else Counted(events[..n], ip, cutoff))
            + (if events[n].Failure? && events[n].ip == ip && events[n].at > cutoff then {n} else {})
  {
    var n := |events| - 1;
    forall i | 0 <= i < n
      ensures Counts(events, i, ip, cutoff) <==> Counts(events[..n], i, ip, cutoff) && !Clears(events[n], ip)
    {
      assert forall j :: i < j < n ==> events[j] == events[..n][j];
    }
  }

  lemma {:induction false} HistoryCounts(events: seq<Event>, ip: string, cutoff: Time)
    ensures |Recent(History(events, ip), cutoff)| == |Counted(events, ip, cutoff)|
    decreases |events|
  {
    hide Counts;
    if events == [] {
      assert Counted(events, ip, cutoff) == {};
    } else {
      var n := |events| - 1;
      var before := History(events[..n], ip);
      HistoryCounts(events[..n], ip, cutoff);
      CountedNext(events, ip, cutoff);
      if events[n].Failure? && events[n].ip == ip {
        hide Recent;
        RecentAppend(before, events[n].at, cutoff);
        assert n !in Counted(events[..n], ip, cutoff);
      }
    }
  }

  /** A sweep leaves exactly the addresses with a failure inside the window. */
  lemma SweepKeepsTheRecent(m: Attempts, cutoff: Time, ip: string)
    ensures ip in Swept(m, cutoff) <==> ip in m && exists t :: t in m[ip] && t > cutoff
  {
    if ip in m { RecentMembers(m[ip], cutoff); }
  }

  lemma {:induction false} RecentMembers(times: seq<Time>, cutoff: Time)
    ensures forall t :: t in Recent(times, cutoff) <==> t in times && t > cutoff
    ensures Recent(times, cutoff) == [] <==> forall t :: t in times ==> t <= cutoff
  {
    if times != [] {
      RecentMembers(times[..|times| - 1], cutoff);
      assert forall t :: t in times <==> t in times[..|times| - 1] || t == times[|times| - 1];
      if Recent(times, cutoff) != [] { assert Recent(times, cutoff)[0] in Recent(times, cutoff); }
    }
  }

  /** The lockout decision: an address is refused exactly when at least three of its failures lie
      inside the window with no success and no reset of it since, whatever was pruned and
      whatever other addresses set off a sweep. */
  lemma LockoutIsExact(events: seq<Event>, ip: string, now: Time)
    requires ClockRuns(events, now)
    ensures |Log(Apply(Tracked(events), Asked(ip, now)), ip)| >= MAX_FAILURES <==>
            |Counted(events, ip, now - WINDOW)| >= 3
  {
    hide Recent;
    LogRefinesHistory(events, ip, now, now - WINDOW);
    HistoryCounts(events, ip, now - WINDOW);
  }
}
