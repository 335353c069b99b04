/** Dashboard sessions (internal/service/session.go): the manager and its operations, every
    interleaving of Validate's two lock regions with revocation, and what the write-back
    interval does to the idle window. Times and durations are in nanoseconds. */
module Session {
  import opened Prelude

  type Duration = int

  const MILLISECOND: Duration := 1_000_000
  const MINUTE: Duration := 60_000_000_000
  const HOUR: Duration := 60 * MINUTE
  const PREFIX: string := "hdns_session_"

  datatype Session = Session(expires: Time, lastSeen: Time)

  // ----- the windows

  /** How stale lastSeen may get before it is written back. */
  function ResolveTouch(idleTTL: Duration): (touch: Duration)
    requires idleTTL > 0
    ensures touch > 0
    ensures idleTTL >= 4 * MINUTE ==> touch == MINUTE
    ensures 4 <= idleTTL < 4 * MINUTE ==> 4 * touch <= idleTTL < 4 * (touch + 1)
    ensures idleTTL < 4 ==> touch == MILLISECOND
  {
    var quarter := idleTTL / 4;
    var touch := if quarter < MINUTE then quarter else MINUTE;
    if touch <= 0 then MILLISECOND else touch
  }

  // ----- one use of one session

  predicate Stale(s: Session, idleTTL: Duration, now: Time) {
    now > s.expires || now - s.lastSeen > idleTTL
  }

  /** A use revokes a stale session, and otherwise leaves it with lastSeen written back if
      it was due. */
  function Use(s: Session, idleTTL: Duration, touch: Duration, now: Time): Option<Session> {
    if Stale(s, idleTTL, now) then None
    else Some(if now - s.lastSeen >= touch then s.(lastSeen := now) else s)
  }

  function Touched(m: map<string, Session>, token: string, now: Time): map<string, Session> {
    if token in m then m[token := m[token].(lastSeen := now)] else m
  }

  function Swept(m: map<string, Session>, idleTTL: Duration, now: Time): map<string, Session> {
    map t | t in m && !Stale(m[t], idleTTL, now) :: m[t]
  }

  class SessionManager {
    const ttl: Duration
    var sessions: map<string, Session>
    var idleTTL: Duration
    var touchAfter: Duration

    ghost predicate Valid()
      reads this
    { 0 < idleTTL <= ttl && touchAfter == ResolveTouch(idleTTL) }

    constructor (ttl: Duration, idleTTL: Duration)
      ensures Valid() && sessions == map[]
      ensures this.ttl == if ttl <= 0 then 24 * HOUR else ttl
      ensures var idle := if idleTTL <= 0 then 2 * HOUR else idleTTL;
              this.idleTTL == if idle > this.ttl then this.ttl else idle
    {
      var t := if ttl <= 0 then 24 * HOUR else ttl;
      var i := if idleTTL <= 0 then 2 * HOUR else idleTTL;
      if i > t { i := t; }
      this.ttl, this.idleTTL, this.touchAfter := t, i, ResolveTouch(i);
      sessions := map[];
    }

    /** The random part of the token is drawn by the caller. */
    method Create(random: string, now: Time) returns (token: string)
      requires Valid()
      modifies this
      ensures Valid() && idleTTL == old(idleTTL)
      ensures token == PREFIX + random
      ensures sessions == old(sessions)[token := Session(now + ttl, now)]
    {
      token := PREFIX + random;
      sessions := sessions[token := Session(now + ttl, now)];
    }

    method Delete(token: string)
      requires Valid()
      modifies this
      ensures Valid() && idleTTL == old(idleTTL) && sessions == old(sessions) - {token}
    {
      sessions := sessions - {token};
    }

    method DeleteAll()
      requires Valid()
      modifies this
      ensures Valid() && idleTTL == old(idleTTL) && sessions == map[]
    {
      sessions := map[];
    }

    /** Validate with nobody else at the manager. */
    method Validate(token: string, now: Time) returns (ok: bool)
      requires Valid()
      modifies this
      ensures Valid() && idleTTL == old(idleTTL)
      ensures ok <==> PREFIX <= token && token in old(sessions)
                      && Use(old(sessions)[token], idleTTL, touchAfter, now).Some?
      ensures sessions ==
              if !(PREFIX <= token) || token !in old(sessions) then old(sessions)
              else match Use(old(sessions)[token], idleTTL, touchAfter, now)
                   case None => old(sessions) - {token}
                   case Some(s) => old(sessions)[token := s]
    {
      if !(PREFIX <= token) { return false; }
      if token !in sessions { return false; }
      var s := sessions[token];
      if now > s.expires || now - s.lastSeen > idleTTL {
        Delete(token);
        return false;
      }
      if now - s.lastSeen >= touchAfter {
        Touch(token, now);
      }
      return true;
    }

    /** Validate's second lock region. */
    method Touch(token: string, now: Time)
      requires Valid()
      modifies this
      ensures Valid() && idleTTL == old(idleTTL) && sessions == Touched(old(sessions), token, now)
    {
      if token in sessions {
        var cur := sessions[token];
        cur := cur.(lastSeen := now);
        sessions := sessions[token := cur];
      }
    }

    method SetIdleTimeout(requested: Duration)
      requires Valid()
      modifies this
      ensures Valid() && sessions == old(sessions)
      ensures idleTTL == if requested < MINUTE && MINUTE <= ttl then MINUTE
                         else if requested < ttl && MINUTE <= ttl then requested else ttl
    {
      var idle := if requested < MINUTE then MINUTE else requested;
      if idle > ttl { idle := ttl; }
      idleTTL := idle;
      touchAfter := ResolveTouch(idle);
    }

    /** One tick of the cleanup loop. */
    method Sweep(now: Time)
      requires Valid()
      modifies this
      ensures Valid() && idleTTL == old(idleTTL) && sessions == Swept(old(sessions), idleTTL, now)
    {
      var todo := sessions.Keys;
      while todo != {}
        invariant Valid() && idleTTL == old(idleTTL)
        invariant todo <= old(sessions).Keys
        invariant forall t :: t in sessions <==>
          t in old(sessions) && (t in todo || !Stale(old(sessions)[t], idleTTL, now))
        invariant forall t :: t in sessions ==> sessions[t] == old(sessions)[t]
        decreases todo
      {
        var tok :| tok in todo;
        var s := sessions[tok];
        if now > s.expires || now - s.lastSeen > idleTTL { sessions := sessions - {tok}; }
        todo := todo - {tok};
      }
    }
  }

  // ----- sequential use under one window

  /** Uses of one session, one after the other, until one is refused. */
  function UseAll(s: Session, idleTTL: Duration, touch: Duration, times: seq<Time>): Option<Session>
    decreases |times|
  {
    if times == [] then Some(s)
    else match Use(s, idleTTL, touch, times[0])
         case None => None
         case Some(next) => UseAll(next, idleTTL, touch, times[1..])
  }

  /** Each use follows the one before it within the given gap. */
  predicate GapsWithin(from: Time, times: seq<Time>, gap: Duration)
    decreases |times|
  {
    times == [] || (from <= times[0] <= from + gap && GapsWithin(times[0], times[1..], gap))
  }

  function LastUse(from: Time, times: seq<Time>): Time {
    if times == [] then from else times[|times| - 1]
  }

  /** The stored lastSeen trails the last accepted use by less than the write-back
      interval. */
  predicate Trails(s: Session, touch: Duration, lastUse: Time) {
    lastUse - touch < s.lastSeen <= lastUse
  }

  /** A session used at gaps of at most idleTTL - touch + 1, the last within its lifetime,
      survives with its hard ceiling unchanged. */
  lemma {:induction false} FrequentUseSurvives(s: Session, idleTTL: Duration, touch: Duration, from: Time, times: seq<Time>)
    requires touch > 0 && Trails(s, touch, from)
    requires GapsWithin(from, times, idleTTL - touch + 1)
    requires LastUse(from, times) <= s.expires
    ensures var r := UseAll(s, idleTTL, touch, times);
            r.Some? && r.value.expires == s.expires && Trails(r.value, touch, LastUse(from, times))
    decreases |times|
  {
    if times != [] {
      LaterUses(times[0], times[1..], idleTTL - touch + 1);
      var next := Use(s, idleTTL, touch, times[0]).value;
      FrequentUseSurvives(next, idleTTL, touch, times[0], times[1..]);
    }
  }

  lemma {:induction false} LaterUses(from: Time, times: seq<Time>, gap: Duration)
    requires GapsWithin(from, times, gap)
    ensures from <= LastUse(from, times)
    decreases |times|
  {
    if times != [] { LaterUses(times[0], times[1..], gap); }
  }

  /** With the interval the manager resolves, gaps of three quarters of the window are
      always short enough. */
  lemma ThreeQuartersIsSafe(s: Session, idleTTL: Duration, from: Time, times: seq<Time>)
    requires idleTTL >= 4
    requires Trails(s, ResolveTouch(idleTTL), from)
    requires GapsWithin(from, times, 3 * idleTTL / 4) && LastUse(from, times) <= s.expires
    ensures UseAll(s, idleTTL, ResolveTouch(idleTTL), times).Some?
  {
    var touch := ResolveTouch(idleTTL);
    WiderGaps(from, times, 3 * idleTTL / 4, idleTTL - touch + 1);
    FrequentUseSurvives(s, idleTTL, touch, from, times);
  }

  lemma {:induction false} WiderGaps(from: Time, times: seq<Time>, gap: Duration, wider: Duration)
    requires GapsWithin(from, times, gap) && gap <= wider
    ensures GapsWithin(from, times, wider)
    decreases |times|
  {
    if times != [] { WiderGaps(times[0], times[1..], gap, wider); }
  }

  /** No use after the absolute lifetime is accepted, whatever the gaps between the uses; nor is
      one that follows the last written-back use by more than the window. */
  lemma {:induction false} NoUsePastTheCeiling(s: Session, idleTTL: Duration, touch: Duration, times: seq<Time>)
    requires UseAll(s, idleTTL, touch, times).Some?
    ensures forall i :: 0 <= i < |times| ==> times[i] <= s.expires
    ensures times != [] ==> times[0] - s.lastSeen <= idleTTL
    decreases |times|
  {
    if times != [] {
      var next := Use(s, idleTTL, touch, times[0]).value;
      NoUsePastTheCeiling(next, idleTTL, touch, times[1..]);
      assert forall i :: 0 < i < |times| ==> times[i] == times[1..][i - 1];
    }
  }

  /** A use writes lastSeen back only once the interval has passed since it was last written. */
  lemma WritesBackOnlyWhenDue(s: Session, idleTTL: Duration, touch: Duration, now: Time)
    requires Use(s, idleTTL, touch, now).Some?
    ensures var r := Use(s, idleTTL, touch, now).value;
            && r.expires == s.expires
            && (r.lastSeen == s.lastSeen || (r.lastSeen == now && now - s.lastSeen >= touch))
            && (now - r.lastSeen < touch || r.lastSeen == now)
  {
  }

  /** A sweep leaves exactly the sessions that are within both their lifetime and their window,
      as they were. */
  lemma SweepKeepsTheLive(m: map<string, Session>, idleTTL: Duration, now: Time, t: string)
    ensures t in Swept(m, idleTTL, now) <==>
            t in m && now <= m[t].expires && now - m[t].lastSeen <= idleTTL
    ensures t in Swept(m, idleTTL, now) ==> Swept(m, idleTTL, now)[t] == m[t]
  {
  }

  /** Any longer gap after the last accepted use may revoke the session, and a gap longer
      than the window always does: idleTTL - touch + 1 is the exact bound. */
  lemma GapBoundIsExact(idleTTL: Duration, touch: Duration, gap: Duration)
    requires 0 < touch <= idleTTL && gap >= 0
    ensures (forall s, from :: Trails(s, touch, from) && from + gap <= s.expires ==>
               Use(s, idleTTL, touch, from + gap).Some?) <==> gap <= idleTTL - touch + 1
    ensures gap > idleTTL ==>
              forall s, from :: Trails(s, touch, from) ==> Use(s, idleTTL, touch, from + gap) == None
  {
    if gap > idleTTL - touch + 1 {
      // Created at 0, used just before its first write-back was due, then left alone.
      var s := Session(touch + gap, 0);
      assert Trails(s, touch, touch - 1) && Use(s, idleTTL, touch, touch - 1 + gap) == None;
    }
  }

  // ----- every interleaving

  /** Where one Validate call stands. */
  datatype Call =
    | Looked(token: string, found: Option<Session>, idleTTL: Duration, touch: Duration)
    | Revoking(token: string)
    | Touching(token: string, now: Time)
    | Answered(token: string, ok: bool)

  /** issued: the hard ceiling each token was given when it was minted. */
  datatype World = World(sessions: map<string, Session>, idleTTL: Duration, issued: map<string, Time>, calls: map<nat, Call>)

  datatype Step =
    | Mint(token: string, expires: Time, now: Time)
    | Look(v: nat, token: string)
    | Judge(v: nat, now: Time)
    | Revoke(v: nat)
    | WriteBack(v: nat)
    | Logout(token: string)
    | LogoutAll
    | Retune(idleTTL: Duration)
    | Cleanup(now: Time)

  predicate Enabled(w: World, s: Step) {
    match s
    case Mint(token, _, _) => token !in w.issued
    case Look(v, _) => v !in w.calls
    case Judge(v, _) => v in w.calls && w.calls[v].Looked?
    case Revoke(v) => v in w.calls && w.calls[v].Revoking?
    case WriteBack(v) => v in w.calls && w.calls[v].Touching?
    case Retune(idleTTL) => idleTTL > 0
    case _ => true
  }

  function Judged(c: Call, now: Time): Call
    requires c.Looked?
  {
    if c.found.None? then Answered(c.token, false)
    else match Use(c.found.value, c.idleTTL, c.touch, now)
         case None => Revoking(c.token)
         case Some(s) => if now - c.found.value.lastSeen >= c.touch then Touching(c.token, now) else Answered(c.token, true)
  }

  function Next(w: World, s: Step): World
    requires Enabled(w, s) && w.idleTTL > 0
  {
    match s
    case Mint(token, expires, now) =>
      w.(sessions := w.sessions[token := Session(expires, now)], issued := w.issued[token := expires])
    case Look(v, token) =>
      var found := if PREFIX <= token && token in w.sessions then Some(w.sessions[token]) else None;
      w.(calls := w.calls[v := Looked(token, found, w.idleTTL, ResolveTouch(w.idleTTL))])
    case Judge(v, now) => w.(calls := w.calls[v := Judged(w.calls[v], now)])
    case Revoke(v) =>
      w.(sessions := w.sessions - {w.calls[v].token}, calls := w.calls[v := Answered(w.calls[v].token, false)])
    case WriteBack(v) =>
      w.(sessions := Touched(w.sessions, w.calls[v].token, w.calls[v].now),
         calls := w.calls[v := Answered(w.calls[v].token, true)])
    case Logout(token) => w.(sessions := w.sessions - {token})
    case LogoutAll => w.(sessions := map[])
    case Retune(idleTTL) => w.(idleTTL := idleTTL)
    case Cleanup(now) => w.(sessions := Swept(w.sessions, w.idleTTL, now))
  }

  /** Every stored session was minted, with the ceiling it still has. */
  predicate Inv(w: World) {
    w.idleTTL > 0 && forall t :: t in w.sessions ==> t in w.issued && w.sessions[t].expires == w.issued[t]
  }

  predicate Runs(w: World, steps: seq<Step>)
    requires w.idleTTL > 0
    decreases |steps|
  {
    steps == [] || (Enabled(w, steps[0]) && Runs(Next(w, steps[0]), steps[1..]))
  }

  function After(w: World, steps: seq<Step>): World
    requires w.idleTTL > 0 && Runs(w, steps)
    decreases |steps|
  {
    if steps == [] then w else After(Next(w, steps[0]), steps[1..])
  }

  /** A revoked token is gone, and no call that looked it up after that can accept it. */
  predicate Dead(w: World, token: string, earlier: set<nat>) {
    && token in w.issued && token !in w.sessions
    && forall v :: v in w.calls && v !in earlier && w.calls[v].token == token ==>
         || (w.calls[v].Looked? && w.calls[v].found == None)
         || w.calls[v] == Answered(token, false)
  }

  /** Every token ever minted keeps its ceiling, and a session still held was held before. */
  predicate CeilingsKept(w: World, r: World) {
    && (forall t :: t in w.issued ==> t in r.issued && r.issued[t] == w.issued[t])
    && (forall t :: t in w.issued && t in r.sessions ==>
          t in w.sessions && r.sessions[t].expires == w.sessions[t].expires)
  }

  lemma StepKeepsCeilings(w: World, s: Step)
    requires Inv(w) && Enabled(w, s)
    ensures Inv(Next(w, s)) && CeilingsKept(w, Next(w, s))
  {
    hide ResolveTouch, Judged;
  }

  lemma StepKeepsDead(w: World, s: Step, token: string, earlier: set<nat>)
    requires Inv(w) && Enabled(w, s) && Dead(w, token, earlier)
    ensures Dead(Next(w, s), token, earlier)
  {
    hide ResolveTouch, Use;
  }

  lemma {:induction false} DeadStaysDead(w: World, steps: seq<Step>, token: string, earlier: set<nat>)
    requires Inv(w) && Runs(w, steps) && Dead(w, token, earlier)
    ensures Dead(After(w, steps), token, earlier)
    decreases |steps|
  {
    hide Next, Enabled, Dead;
    if steps != [] {
      StepKeepsCeilings(w, steps[0]);
      StepKeepsDead(w, steps[0], token, earlier);
      DeadStaysDead(Next(w, steps[0]), steps[1..], token, earlier);
    }
  }

  /** Whatever step takes a session away, its token is dead to every later call. */
  lemma RemovalKills(w: World, s: Step, token: string)
    requires Inv(w) && Enabled(w, s) && token in w.sessions && token !in Next(w, s).sessions
    ensures Dead(Next(w, s), token, w.calls.Keys)
  {
    hide ResolveTouch, Use;
  }

  /** Sessions are never resurrected: once any step has taken a session away, with whatever
      Validate calls half-way through, its token never comes back and no call that looks it
      up afterwards answers yes. */
  lemma RevokedStaysRevoked(w: World, s: Step, steps: seq<Step>, token: string)
    requires Inv(w) && Enabled(w, s) && token in w.sessions && token !in Next(w, s).sessions
    requires Runs(Next(w, s), steps)
    ensures var r := After(Next(w, s), steps);
            && token !in r.sessions
            && forall v :: v in r.calls && v !in w.calls && r.calls[v].token == token ==> r.calls[v] != Answered(token, true)
  {
    hide Next, Enabled;
    StepKeepsCeilings(w, s);
    RemovalKills(w, s, token);
    DeadStaysDead(Next(w, s), steps, token, w.calls.Keys);
  }

  /** No use ever extends a session's hard ceiling. */
  lemma {:induction false} CeilingNeverMoves(w: World, steps: seq<Step>)
    requires Inv(w) && Runs(w, steps)
    ensures var r := After(w, steps);
            Inv(r) && CeilingsKept(w, r)
    decreases |steps|
  {
    hide Next, Enabled;
    if steps != [] {
      StepKeepsCeilings(w, steps[0]);
      CeilingNeverMoves(Next(w, steps[0]), steps[1..]);
    }
  }

  // ----- the ceiling, in every interleaving

  /** What a Validate call holds is a copy of a session that was minted. */
  predicate CopiesAreIssued(w: World) {
    forall v :: v in w.calls && w.calls[v].Looked? && w.calls[v].found.Some? ==>
      w.calls[v].token in w.issued && w.calls[v].found.value.expires == w.issued[w.calls[v].token]
  }

  lemma {:induction false} CopiesStayIssued(w: World, steps: seq<Step>)
    requires Inv(w) && CopiesAreIssued(w) && Runs(w, steps)
    ensures CopiesAreIssued(After(w, steps))
    decreases |steps|
  {
    hide Next, Enabled;
    if steps != [] {
      StepKeepsCeilings(w, steps[0]);
      StepKeepsCopies(w, steps[0]);
      CopiesStayIssued(Next(w, steps[0]), steps[1..]);
    }
  }

  lemma StepKeepsCopies(w: World, s: Step)
    requires Inv(w) && CopiesAreIssued(w) && Enabled(w, s)
    ensures CopiesAreIssued(Next(w, s))
  {
    hide ResolveTouch, Use, Stale;
  }

  /** The call has been refused, or is about to revoke its session. */
  predicate Refused(w: World, v: nat) {
    v in w.calls && (w.calls[v].Revoking? || (w.calls[v].Answered? && !w.calls[v].ok))
  }

  lemma {:induction false} RefusedStaysRefused(w: World, steps: seq<Step>, v: nat)
    requires Inv(w) && Runs(w, steps) && Refused(w, v)
    ensures Refused(After(w, steps), v)
    decreases |steps|
  {
    hide ResolveTouch, Use;
    if steps != [] {
      hide Inv;
      StepKeepsCeilings(w, steps[0]);
      RefusedStaysRefused(Next(w, steps[0]), steps[1..], v);
    }
  }

  /** From any start with no call under way, a call judged after the ceiling its token was minted
      with never answers yes, whatever the other goroutines do before, between and after. */
  lemma NoCallPastTheCeiling(w: World, before: seq<Step>, v: nat, now: Time, rest: seq<Step>)
    requires Inv(w) && w.calls == map[] && Runs(w, before)
    requires After(w, before).idleTTL > 0 && Enabled(After(w, before), Judge(v, now))
    requires After(w, before).calls[v].token in After(w, before).issued ==>
               now > After(w, before).issued[After(w, before).calls[v].token]
    requires Runs(Next(After(w, before), Judge(v, now)), rest)
    ensures var r := After(Next(After(w, before), Judge(v, now)), rest);
            v in r.calls && !(r.calls[v].Answered? && r.calls[v].ok)
  {
    hide Next, Enabled, CopiesAreIssued, Refused;
    NothingHeld(w);
    CopiesStayIssued(w, before);
    CeilingNeverMoves(w, before);
    var m := After(w, before);
    LateJudgement(m, v, now);
    StepKeepsCeilings(m, Judge(v, now));
    RefusedStaysRefused(Next(m, Judge(v, now)), rest, v);
    RefusedMeansNo(After(Next(m, Judge(v, now)), rest), v);
  }

  lemma NothingHeld(w: World)
    requires w.calls == map[]
    ensures CopiesAreIssued(w)
  {
  }

  lemma RefusedMeansNo(w: World, v: nat)
    requires Refused(w, v)
    ensures v in w.calls && !(w.calls[v].Answered? && w.calls[v].ok)
  {
  }

  lemma LateJudgement(w: World, v: nat, now: Time)
    requires w.idleTTL > 0 && CopiesAreIssued(w) && Enabled(w, Judge(v, now))
    requires w.calls[v].token in w.issued ==> now > w.issued[w.calls[v].token]
    ensures Refused(Next(w, Judge(v, now)), v)
  {
  }

  /** The steps of one Validate call with nobody else at the manager: it answers, and leaves the
      sessions, as the method does. */
  lemma UninterruptedValidate(w: World, v: nat, token: string, now: Time)
    requires w.idleTTL > 0 && v !in w.calls
    ensures var judged := Next(Next(w, Look(v, token)), Judge(v, now));
            var done := match judged.calls[v]
                        case Revoking(_) => Next(judged, Revoke(v))
                        case Touching(_, _) => Next(judged, WriteBack(v))
                        case _ => judged;
            var use := if PREFIX <= token && token in w.sessions
                       then Use(w.sessions[token], w.idleTTL, ResolveTouch(w.idleTTL), now) else None;
            && done.calls[v] == Answered(token, use.Some?)
            && done.sessions == if !(PREFIX <= token) || token !in w.sessions then w.sessions
                                else if use.None? then w.sessions - {token} else w.sessions[token := use.value]
  {
    hide ResolveTouch;
  }
}
