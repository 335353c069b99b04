/** The two-factor half of the "auth" record (internal/database/auth_access.go): every
    operation changes the live record first, asks for it to be stored, and takes the change
    back by hand when storing fails. Shown here: when the live record and the stored one
    agree afterwards, over every run. */
module TwoFactor {
  import opened Prelude
  import opened Text

  // ----- the record

  /** What a login is checked against. */
  datatype Factor = Factor(enabled: bool, secret: string, confirmedAt: string) {
    /** TOTPEnabledNow. */
    predicate InForce() { enabled && confirmedAt != "" && secret != "" }

    /** The condition SetTOTPPending refuses on. */
    predicate Locked() { enabled && confirmedAt != "" }
  }

  const NO_FACTOR := Factor(false, "", "")

  datatype Directory = Directory(enabled: bool, serverURL: string, bindDN: string, bindPassword: string,
                                 baseDN: string, userAttr: string, loginMode: string)

  datatype Auth = Auth(factor: Factor, pending: string, directory: Directory)

  const FRESH := Auth(NO_FACTOR, "", Directory(false, "", "", "", "", "", ""))

  type Verify = (string, string) -> bool

  /** What the caller's persist callback does: there is none, it stores the record, or it
      fails and leaves the store as it was. */
  datatype Persist = Absent | Stores | Fails

  datatype Outcome = Done | Rejected | AlreadyActive | NoEnrollment | NotStored

  // ----- what each operation does to the live record and to the stored one

  datatype World = World(live: Auth, stored: Auth)

  /** Change the live record, then persist it; `undone` is the live record after a failure. */
  function Commit(w: World, changed: Auth, undone: Auth, persist: Persist): World {
    match persist
    case Absent => World(changed, w.stored)
    case Stores => World(changed, changed)
    case Fails => World(undone, w.stored)
  }

  function Reported(persist: Persist): Outcome {
    if persist == Fails then NotStored else Done
  }

  /** Opening an enrollment. A pending secret that could not be stored stays open. */
  function Enroll(w: World, secret: string, persist: Persist): (World, Outcome) {
    if w.live.factor.Locked() then (w, AlreadyActive)
    else
      var changed := w.live.(pending := secret);
      (Commit(w, changed, changed, persist), Reported(persist))
  }

  /** Confirming it. The undo is written out as constants, not as what was there before. */
  function Confirm(w: World, code: string, stamp: string, verify: Verify, persist: Persist): (World, Outcome) {
    if w.live.pending == "" then (w, NoEnrollment)
    else if !verify(w.live.pending, code) then (w, Rejected)
    else
      var changed := w.live.(factor := Factor(true, w.live.pending, stamp), pending := "");
      (Commit(w, changed, changed.(factor := NO_FACTOR), persist), Reported(persist))
  }

  function Disable(w: World, persist: Persist): (World, Outcome) {
    (Commit(w, w.live.(factor := NO_FACTOR, pending := ""), w.live, persist), Reported(persist))
  }

  function Normalized(d: Directory): Directory {
    d.(serverURL := TrimSpace(d.serverURL), bindDN := TrimSpace(d.bindDN), baseDN := TrimSpace(d.baseDN),
       userAttr := TrimSpace(d.userAttr), loginMode := ToLower(TrimSpace(d.loginMode)))
  }

  function Direct(w: World, d: Directory, persist: Persist): (World, Outcome) {
    (Commit(w, w.live.(directory := Normalized(d)), w.live, persist), Reported(persist))
  }

  /** The row of the settings store the record is kept in. */
  class Row {
    var auth: Auth

    /** The persist callback; true when it returned no error. */
    method Persist(record: Auth, persist: Persist) returns (ok: bool)
      requires persist != Absent
      modifies this
      ensures ok <==> persist == Stores
      ensures auth == if ok then record else old(auth)
    {
      ok := persist == Stores;
      if ok {
        auth := record;
      }
    }
  }

  class AuthSettings {
    var totpEnabled: bool
    var totpSecret: string
    var totpPending: string
    var totpConfirmedAt: string
    var directory: Directory

    function Record(): Auth
      reads this
    {
      Auth(Factor(totpEnabled, totpSecret, totpConfirmedAt), totpPending, directory)
    }

    ghost function With(row: Row): World
      reads this, row
    { World(Record(), row.auth) }

    /** A flag with no confirmed secret behind it does not gate logins. */
    method TOTPEnabledNow() returns (inForce: bool)
      ensures inForce == Record().factor.InForce()
      ensures inForce <==> totpEnabled && totpConfirmedAt != "" && totpSecret != ""
    { inForce := totpEnabled && totpConfirmedAt != "" && totpSecret != ""; }

    method SetTOTPPending(secret: string, persist: Persist, row: Row) returns (outcome: Outcome)
      modifies this, row
      ensures (With(row), outcome) == Enroll(old(With(row)), secret, persist)
    {
      if totpEnabled && totpConfirmedAt != "" {
        return AlreadyActive;
      }
      totpPending := secret;
      if persist == Absent {
        return Done;
      }
      var ok := row.Persist(Record(), persist);
      outcome := if ok then Done else NotStored;
    }

    method ConfirmTOTP(code: string, confirmedAt: string, verify: Verify, persist: Persist, row: Row)
      returns (outcome: Outcome)
      modifies this, row
      ensures (With(row), outcome) == Confirm(old(With(row)), code, confirmedAt, verify, persist)
    {
      if totpPending == "" {
        return NoEnrollment;
      }
      if !verify(totpPending, code) {
        return Rejected;
      }
      totpEnabled := true;
      totpSecret := totpPending;
      totpPending := "";
      totpConfirmedAt := confirmedAt;
      if persist == Absent {
        return Done;
      }
      var ok := row.Persist(Record(), persist);
      if !ok {
        totpEnabled := false;
        totpSecret := "";
        totpConfirmedAt := "";
        return NotStored;
      }
      return Done;
    }

    method DisableTOTP(persist: Persist, row: Row) returns (outcome: Outcome)
      modifies this, row
      ensures (With(row), outcome) == Disable(old(With(row)), persist)
    {
      var enabled, secret, pending, confirmed := totpEnabled, totpSecret, totpPending, totpConfirmedAt;
      totpEnabled := false;
      totpSecret := "";
      totpPending := "";
      totpConfirmedAt := "";
      if persist == Absent {
        return Done;
      }
      var ok := row.Persist(Record(), persist);
      if !ok {
        totpEnabled, totpSecret, totpPending, totpConfirmedAt := enabled, secret, pending, confirmed;
        return NotStored;
      }
      return Done;
    }

    method SetLDAP(d: Directory, persist: Persist, row: Row) returns (outcome: Outcome)
      modifies this, row
      ensures (With(row), outcome) == Direct(old(With(row)), d, persist)
    {
      var before := directory;
      directory := Normalized(d);
      if persist == Absent {
        return Done;
      }
      var ok := row.Persist(Record(), persist);
      if !ok {
        directory := before;
        return NotStored;
      }
      return Done;
    }
  }

  // ----- runs

  /** A restart reads the live record back from the store. */
  datatype Event =
    | Enrolls(secret: string, persist: Persist)
    | Confirms(code: string, stamp: string, persist: Persist)
    | Disables(persist: Persist)
    | Directs(directory: Directory, persist: Persist)
    | Restarts

  function Next(w: World, e: Event, verify: Verify): World {
    match e
    case Enrolls(secret, persist) => Enroll(w, secret, persist).0
    case Confirms(code, stamp, persist) => Confirm(w, code, stamp, verify, persist).0
    case Disables(persist) => Disable(w, persist).0
    case Directs(d, persist) => Direct(w, d, persist).0
    case Restarts => World(w.stored, w.stored)
  }

  function Run(w: World, events: seq<Event>, verify: Verify): World
    decreases |events|
  {
    if events == [] then w else Run(Next(w, events[0], verify), events[1..], verify)
  }

  /** Every caller passes a callback, and stamps a confirmation with the time. */
  predicate Callback(e: Event) { e.Restarts? || e.persist != Absent }

  predicate Stamped(e: Event) { e.Confirms? ==> e.stamp != "" }

  predicate Calls(events: seq<Event>) { forall i :: 0 <= i < |events| ==> Callback(events[i]) }

  predicate AllStamped(events: seq<Event>) { forall i :: 0 <= i < |events| ==> Stamped(events[i]) }

  predicate Agree(w: World) { w.live.factor == w.stored.factor }

  /** An enrollment is open only while there is nothing a failed confirmation could destroy. */
  predicate Exclusive(a: Auth) { a.pending == "" || a.factor == NO_FACTOR }

  predicate Inv(w: World) {
    && Agree(w) && w.live.directory == w.stored.directory
    && Exclusive(w.live) && Exclusive(w.stored)
    && (w.live.factor == NO_FACTOR || w.live.factor.Locked())
  }

  /** One step from agreeing records, without assuming anything else of them: they part if
      and only if a confirmation that should succeed fails to store while the live record
      still holds a factor, or a change is made with no callback to store it. */
  lemma AgreementIsLostIff(w: World, e: Event, verify: Verify)
    requires Agree(w)
    ensures !Agree(Next(w, e, verify)) <==>
            match e
            case Confirms(code, stamp, persist) =>
              && w.live.pending != "" && verify(w.live.pending, code)
              && ((persist == Fails && w.live.factor != NO_FACTOR)
                  || (persist == Absent && w.live.factor != Factor(true, w.live.pending, stamp)))
            case Disables(persist) => persist == Absent && w.live.factor != NO_FACTOR
            case _ => false
  {
  }

  lemma StepKeepsInv(w: World, e: Event, verify: Verify)
    requires Inv(w) && Callback(e) && Stamped(e)
    ensures Inv(Next(w, e, verify))
  {
  }

  lemma {:induction false} RunsKeepInv(w: World, events: seq<Event>, verify: Verify)
    requires Inv(w) && Calls(events) && AllStamped(events)
    ensures Inv(Run(w, events, verify))
    decreases |events|
  {
    hide Inv, Next;
    if events != [] {
      assert Callback(events[0]) && Stamped(events[0]);
      StepKeepsInv(w, events[0], verify);
      RunsKeepInv(Next(w, events[0], verify), events[1..], verify);
    }
  }

  /** From a fresh record, through any enrolments, confirmations, disables, directory saves
      and restarts, with any of them failing to store: enabled flag, secret and confirmation
      time match between memory and store; the directory matches; and a factor in force never
      coexists with an open enrollment, in memory or in the store. */
  lemma LiveAndStoredAgree(events: seq<Event>, verify: Verify)
    requires Calls(events) && AllStamped(events)
    ensures var w := Run(World(FRESH, FRESH), events, verify);
            && w.live.factor == w.stored.factor && w.live.directory == w.stored.directory
            && !(w.live.factor.InForce() && w.live.pending != "")
            && !(w.stored.factor.InForce() && w.stored.pending != "")
  {
    RunsKeepInv(World(FRESH, FRESH), events, verify);
  }

  /** Hence the constants ConfirmTOTP rolls back to are always what was there before. */
  lemma HardCodedUndoIsExact(events: seq<Event>, verify: Verify, code: string, stamp: string)
    requires Calls(events) && AllStamped(events)
    ensures var w := Run(World(FRESH, FRESH), events, verify);
            var (after, outcome) := Confirm(w, code, stamp, verify, Fails);
            after.live.factor == w.live.factor && after.stored == w.stored
  {
    hide Next;
    RunsKeepInv(World(FRESH, FRESH), events, verify);
  }

  // ----- what a blank confirmation time breaks, and what it does not

  function BlankRun(): seq<Event> {
    [Enrolls("A", Stores), Confirms("1", "", Stores), Enrolls("B", Stores), Confirms("2", "now", Fails)]
  }

  /** A confirmation recorded with no time leaves the record open to a second enrollment,
      and that one's failed confirmation erases in memory what the store still holds. */
  lemma BlankStampParts(verify: Verify)
    requires verify("A", "1") && verify("B", "2")
    ensures var w := Run(World(FRESH, FRESH), BlankRun(), verify);
            w.live.factor == NO_FACTOR && w.stored.factor == Factor(true, "A", "")
  {
    var w1 := Next(World(FRESH, FRESH), Enrolls("A", Stores), verify);
    var w2 := Next(w1, Confirms("1", "", Stores), verify);
    var w3 := Next(w2, Enrolls("B", Stores), verify);
    var w4 := Next(w3, Confirms("2", "now", Fails), verify);
    assert BlankRun()[1..][1..][1..][1..] == [];
    assert Run(w4, [], verify) == w4;
    assert Run(w3, BlankRun()[1..][1..][1..], verify) == w4;
    assert Run(w2, BlankRun()[1..][1..], verify) == w4;
    assert Run(w1, BlankRun()[1..], verify) == w4;
  }

  /** What holds even so. */
  predicate VerdictInv(w: World) {
    && w.live.factor.InForce() == w.stored.factor.InForce()
    && (w.live.factor.InForce() ==> w.live.factor == w.stored.factor)
    && (w.live.factor.Locked() ==> w.live.pending == "" && w.live.factor.secret != "")
    && (w.stored.factor.Locked() ==> w.stored.pending == "" && w.stored.factor.secret != "")
  }

  lemma StepKeepsVerdict(w: World, e: Event, verify: Verify)
    requires VerdictInv(w) && Callback(e)
    ensures VerdictInv(Next(w, e, verify))
  {
  }

  lemma {:induction false} RunsKeepVerdict(w: World, events: seq<Event>, verify: Verify)
    requires VerdictInv(w) && Calls(events)
    ensures VerdictInv(Run(w, events, verify))
    decreases |events|
  {
    hide VerdictInv, Next;
    if events != [] {
      assert Callback(events[0]);
      StepKeepsVerdict(w, events[0], verify);
      RunsKeepVerdict(Next(w, events[0], verify), events[1..], verify);
    }
  }

  /** Whatever the confirmation times, memory and store give the same verdict on whether the
      second factor is in force, and on the secret it is checked against; so a restart never
      turns it on or off. */
  lemma RestartKeepsTheVerdict(events: seq<Event>, verify: Verify)
    requires Calls(events)
    ensures var w := Run(World(FRESH, FRESH), events, verify);
            var r := Next(w, Restarts, verify);
            && w.live.factor.InForce() == r.live.factor.InForce()
            && (w.live.factor.InForce() ==> w.live.factor == r.live.factor && w.live.pending == "")
  {
    RunsKeepVerdict(World(FRESH, FRESH), events, verify);
  }

  // ----- what puts the factor in force, and what takes it out

  /** The secret was enrolled, and later answered by a code it verifies. */
  ghost predicate Earned(secret: string, events: seq<Event>, verify: Verify) {
    exists i, j :: 0 <= i < j < |events| && events[i].Enrolls? && events[i].secret == secret
                   && events[j].Confirms? && verify(secret, events[j].code)
  }

  /** No event takes a factor in force away, or changes it, except a disable that is stored. */
  lemma OnlyAStoredDisableEnds(w: World, e: Event, verify: Verify)
    requires VerdictInv(w) && Callback(e) && w.live.factor.InForce()
    ensures Next(w, e, verify).live.factor == (if e == Disables(Stores) then NO_FACTOR else w.live.factor)
  {
  }

  lemma {:induction false} FactorOutlivesEverythingElse(w: World, events: seq<Event>, verify: Verify)
    requires VerdictInv(w) && Calls(events) && w.live.factor.InForce()
    requires forall i :: 0 <= i < |events| ==> events[i] != Disables(Stores)
    ensures Run(w, events, verify).live.factor == w.live.factor
    decreases |events|
  {
    hide VerdictInv, Next;
    if events != [] {
      assert Callback(events[0]) && events[0] != Disables(Stores);
      OnlyAStoredDisableEnds(w, events[0], verify);
      StepKeepsVerdict(w, events[0], verify);
      FactorOutlivesEverythingElse(Next(w, events[0], verify), events[1..], verify);
    }
  }

  /** Secrets held anywhere were enrolled; secrets in force were confirmed. */
  ghost predicate Traced(w: World, past: seq<Event>, verify: Verify) {
    && Opened(w.live.pending, past) && Opened(w.stored.pending, past)
    && (w.live.factor != NO_FACTOR ==> Earned(w.live.factor.secret, past, verify))
    && (w.stored.factor != NO_FACTOR ==> Earned(w.stored.factor.secret, past, verify))
  }

  ghost predicate Opened(pending: string, past: seq<Event>) {
    pending == "" || exists i :: 0 <= i < |past| && past[i].Enrolls? && past[i].secret == pending
  }

  lemma LongerPast(past: seq<Event>, e: Event, secret: string, verify: Verify)
    ensures Opened(secret, past) ==> Opened(secret, past + [e])
    ensures Earned(secret, past, verify) ==> Earned(secret, past + [e], verify)
    ensures e.Enrolls? && e.secret == secret ==> Opened(secret, past + [e])
    ensures e.Confirms? && verify(secret, e.code) && secret != "" && Opened(secret, past) ==> Earned(secret, past + [e], verify)
  {
    var all := past + [e];
    assert all[|past|] == e;
    assert forall i :: 0 <= i < |past| ==> all[i] == past[i];
  }

  lemma StepKeepsTraced(w: World, past: seq<Event>, e: Event, verify: Verify)
    requires Traced(w, past, verify)
    ensures Traced(Next(w, e, verify), past + [e], verify)
  {
    hide Opened, Earned;
    LongerPast(past, e, w.live.pending, verify);
    LongerPast(past, e, w.stored.pending, verify);
    LongerPast(past, e, w.live.factor.secret, verify);
    LongerPast(past, e, w.stored.factor.secret, verify);
    if e.Enrolls? { LongerPast(past, e, e.secret, verify); }
    NothingPending(past + [e]);
  }

  lemma NothingPending(past: seq<Event>)
    ensures Opened("", past)
  {
  }

  lemma {:induction false} RunsKeepTraced(w: World, past: seq<Event>, events: seq<Event>, verify: Verify)
    requires Traced(w, past, verify)
    ensures Traced(Run(w, events, verify), past + events, verify)
    decreases |events|
  {
    hide Traced, Next;
    if events == [] {
      assert past + events == past;
    } else {
      StepKeepsTraced(w, past, events[0], verify);
      RunsKeepTraced(Next(w, events[0], verify), past + [events[0]], events[1..], verify);
      assert past + [events[0]] + events[1..] == past + events;
    }
  }

  /** A login is never checked against a secret that was not enrolled and confirmed by a code
      it verifies, however saves fail and whenever the daemon restarts. */
  lemma FactorsInForceWereEarned(events: seq<Event>, verify: Verify)
    ensures var f := Run(World(FRESH, FRESH), events, verify).live.factor;
            f.InForce() ==> Earned(f.secret, events, verify)
  {
    hide Run, Earned;
    RunsKeepTraced(World(FRESH, FRESH), [], events, verify);
    assert [] + events == events;
  }

  // ----- what each operation does, field by field

  /** Enrolling, confirming and disabling, each of them stored: the factor in force is the secret
      that was enrolled, with the time it was confirmed; then nothing of it is left. The directory
      stays, and memory and store are the same throughout. */
  lemma LifeCycle(w: World, secret: string, code: string, stamp: string, verify: Verify)
    requires !(w.live.factor.enabled && w.live.factor.confirmedAt != "") && secret != "" && verify(secret, code)
    ensures var enrolled := Enroll(w, secret, Stores);
            var confirmed := Confirm(enrolled.0, code, stamp, verify, Stores);
            var disabled := Disable(confirmed.0, Stores);
            && enrolled.1 == confirmed.1 == disabled.1 == Done
            && enrolled.0.live == enrolled.0.stored && enrolled.0.live.pending == secret
            && enrolled.0.live.factor == w.live.factor && enrolled.0.live.directory == w.live.directory
            && confirmed.0.live == confirmed.0.stored
            && confirmed.0.live == Auth(Factor(true, secret, stamp), "", w.live.directory)
            && disabled.0.live == disabled.0.stored == Auth(Factor(false, "", ""), "", w.live.directory)
  {
  }

  /** What is refused or fails changes nothing that was stored; in memory a failed enrollment stays
      open, a failed confirmation closes it and leaves no factor, and anything else is as before. */
  lemma FailuresAndRefusals(w: World, secret: string, code: string, stamp: string, verify: Verify, d: Directory)
    ensures w.live.factor.enabled && w.live.factor.confirmedAt != "" ==>
              forall persist :: Enroll(w, secret, persist) == (w, AlreadyActive)
    ensures w.live.pending == "" ==> forall persist :: Confirm(w, code, stamp, verify, persist) == (w, NoEnrollment)
    ensures w.live.pending != "" && !verify(w.live.pending, code) ==>
              forall persist :: Confirm(w, code, stamp, verify, persist) == (w, Rejected)
    ensures !(w.live.factor.enabled && w.live.factor.confirmedAt != "") ==>
              Enroll(w, secret, Fails) == (World(w.live.(pending := secret), w.stored), NotStored)
    ensures w.live.pending != "" && verify(w.live.pending, code) ==>
              Confirm(w, code, stamp, verify, Fails) ==
              (World(Auth(Factor(false, "", ""), "", w.live.directory), w.stored), NotStored)
    ensures Disable(w, Fails) == Direct(w, d, Fails) == (w, NotStored)
    ensures Disable(w, Stores).0.live == Disable(w, Stores).0.stored == Auth(Factor(false, "", ""), "", w.live.directory)
  {
  }

  /** With no callback each operation does in memory what it does when it is stored, reports
      success, and the store keeps what it had. */
  lemma WithoutACallback(w: World, secret: string, code: string, stamp: string, verify: Verify, d: Directory)
    ensures Enroll(w, secret, Absent).0 == World(Enroll(w, secret, Stores).0.live, w.stored)
    ensures Confirm(w, code, stamp, verify, Absent).0 == World(Confirm(w, code, stamp, verify, Stores).0.live, w.stored)
    ensures Disable(w, Absent) == (World(Disable(w, Stores).0.live, w.stored), Done)
    ensures Direct(w, d, Absent) == (World(Direct(w, d, Stores).0.live, w.stored), Done)
  {
    hide Normalized;
  }

  ghost predicate Tidied(raw: string, tidy: string) {
    exists pre, post :: AllSpace(pre) && AllSpace(post) && Trimmed(tidy) && raw == pre + tidy + post
  }

  lemma TrimmingTidies(raw: string)
    ensures Tidied(raw, TrimSpace(raw))
  {
    var pre, post := TrimSpaceSplits(raw);
  }

  /** A stored directory is the one that was given: each text without the white space around it,
      the login mode in small letters, the password untouched. The factor stays. */
  lemma DirectoryIsTidied(w: World, d: Directory)
    ensures var r := Direct(w, d, Stores).0;
            && r.live == r.stored && r.live.factor == w.live.factor && r.live.pending == w.live.pending
            && var n := r.live.directory;
               && n.enabled == d.enabled && n.bindPassword == d.bindPassword
               && Tidied(d.serverURL, n.serverURL) && Tidied(d.bindDN, n.bindDN)
               && Tidied(d.baseDN, n.baseDN) && Tidied(d.userAttr, n.userAttr)
               && exists mode :: Tidied(d.loginMode, mode) && n.loginMode == ToLower(mode)
  {
    hide Tidied, TrimSpace;
    TrimmingTidies(d.serverURL);
    TrimmingTidies(d.bindDN);
    TrimmingTidies(d.baseDN);
    TrimmingTidies(d.userAttr);
    TrimmingTidies(d.loginMode);
  }
}
