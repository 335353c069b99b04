/** The one-time whitelist migration (internal/bootstrap/migrate.go): force allow_all=false
    once, then record that it was done. The two writes are separate transactions, and the
    daemon may stop between any two steps. */
module BootMigration {
  import opened Prelude

  const MARKER: string := "whitelist_v2_2"

  // ----- the two settings

  /** The record of migrations already received, as a reader finds it. */
  datatype Markers = Missing | Null | Recorded(marks: map<string, bool>) | Unreadable

  datatype Store = Store(allowAll: Option<bool>, markers: Markers)

  predicate Done(s: Store) {
    s.markers.Recorded? && MARKER in s.markers.marks && s.markers.marks[MARKER]
  }

  function Marks(m: Markers): map<string, bool> {
    if m.Recorded? then m.marks else map[]
  }

  /** Where the daemon stops during the migration, if it does; a stop inside a write is one
      before it or after it, and one after the marker write stops nothing. */
  datatype Stop = Never | BeforeEffect | BeforeMarker

  /** What goes wrong during one boot. */
  datatype Faults = Faults(existsFails: bool, readFails: bool, effectFails: bool, markerFails: bool, stop: Stop)

  const NO_FAULTS := Faults(false, false, false, false, Never)

  // ----- the code

  class SettingsStore {
    var allowAll: Option<bool>
    var markers: Markers

    function Value(): Store
      reads this
    { Store(allowAll, markers) }

    method SettingExists(fails: bool) returns (present: Option<bool>)
      ensures present == if fails then None else Some(markers != Missing)
    { present := if fails then None else Some(markers != Missing); }

    method GetMarkers(fails: bool) returns (read: Option<Markers>)
      ensures read == if fails || markers == Unreadable then None else Some(markers)
    { read := if fails || markers == Unreadable then None else Some(markers); }

    method SetAllowAll(value: bool, fails: bool) returns (ok: bool)
      modifies this`allowAll
      ensures ok == !fails && allowAll == if fails then old(allowAll) else Some(value)
    {
      if !fails { allowAll := Some(value); }
      ok := !fails;
    }

    method SetMarkers(marks: map<string, bool>, fails: bool) returns (ok: bool)
      modifies this`markers
      ensures ok == !fails && markers == if fails then old(markers) else Recorded(marks)
    {
      if !fails { markers := Recorded(marks); }
      ok := !fails;
    }
  }

  method LoadMigrationMarkers(store: SettingsStore, f: Faults) returns (marks: Option<map<string, bool>>)
    ensures marks == if CannotRead(store.Value(), f) then None else Some(Marks(store.markers))
  {
    var present := store.SettingExists(f.existsFails);
    if present == None { return None; }
    if !present.value { return Some(map[]); }
    var read := store.GetMarkers(f.readFails);
    match read {
      case None => return None;
      case Some(Recorded(m)) => return Some(m);
      case Some(_) => return Some(map[]);
    }
  }

  method MigrateDefaultAllowAll(store: SettingsStore, f: Faults)
    modifies store
    ensures store.Value() == Boot(old(store.Value()), f)
  {
    var loaded := LoadMigrationMarkers(store, f);
    if loaded == None { return; }
    var migrations := loaded.value;
    if MARKER in migrations && migrations[MARKER] { return; }
    if f.stop == BeforeEffect { return; }
    var ok := store.SetAllowAll(false, f.effectFails);
    if !ok { return; }
    if f.stop == BeforeMarker { return; }
    migrations := migrations[MARKER := true];
    ok := store.SetMarkers(migrations, f.markerFails);
  }

  // ----- what one boot leaves behind

  predicate CannotRead(s: Store, f: Faults) {
    f.existsFails || (s.markers != Missing && (f.readFails || s.markers == Unreadable))
  }

  /** The first write goes through. */
  predicate Takes(s: Store, f: Faults) {
    !CannotRead(s, f) && !Done(s) && f.stop != BeforeEffect && !f.effectFails
  }

  /** So does the second. */
  predicate Completes(s: Store, f: Faults) {
    Takes(s, f) && f.stop != BeforeMarker && !f.markerFails
  }

  function Boot(s: Store, f: Faults): Store {
    Store(if Takes(s, f) then Some(false) else s.allowAll,
          if Completes(s, f) then Recorded(Marks(s.markers)[MARKER := true]) else s.markers)
  }

  /** What each failure of one boot costs: an unreadable marker set, a failed first write or a stop
      before it, nothing; a failed second write or a stop before it, only the marker. */
  lemma OneBootsFailures(s: Store, f: Faults)
    ensures f.existsFails || (s.markers != Missing && f.readFails) || s.markers == Unreadable ==> Boot(s, f) == s
    ensures f.effectFails || f.stop == BeforeEffect ==> Boot(s, f) == s
    ensures f.markerFails || f.stop == BeforeMarker ==> Boot(s, f).markers == s.markers
    ensures !f.existsFails && !f.readFails && s.markers != Unreadable && !f.effectFails && f.stop != BeforeEffect
            && !(s.markers.Recorded? && MARKER in s.markers.marks && s.markers.marks[MARKER]) ==>
              Boot(s, f).allowAll == Some(false)
  {
  }

  // ----- runs of the daemon

  /** The daemon died inside the migration. */
  predicate Dies(s: Store, f: Faults) {
    !CannotRead(s, f) && !Done(s) && (f.stop == BeforeEffect || (f.stop == BeforeMarker && !f.effectFails))
  }

  datatype Machine = Machine(up: bool, store: Store)

  /** A start runs the migration; if it lives through it and was given the -allow-all flag, it
      stores that. The dashboard can be used, and the daemon stopped, only while it is up. */
  datatype Event = Starts(faults: Faults, allowAllFlag: bool) | Toggles(allow: bool) | Stops

  predicate Enabled(m: Machine, e: Event) {
    if e.Starts? then !m.up else m.up
  }

  function Next(m: Machine, e: Event): Machine
    requires Enabled(m, e)
  {
    match e
    case Starts(f, flag) =>
      var booted := Boot(m.store, f);
      if Dies(m.store, f) then Machine(false, booted)
      else Machine(true, if flag then booted.(allowAll := Some(true)) else booted)
    case Toggles(allow) => m.(store := m.store.(allowAll := Some(allow)))
    case Stops => m.(up := false)
  }

  predicate Runs(m: Machine, events: seq<Event>)
    decreases |events|
  {
    events == [] || (Enabled(m, events[0]) && Runs(Next(m, events[0]), events[1..]))
  }

  function After(m: Machine, events: seq<Event>): Machine
    requires Runs(m, events)
    decreases |events|
  {
    if events == [] then m else After(Next(m, events[0]), events[1..])
  }

  lemma {:induction false} RunsInTwo(m: Machine, first: seq<Event>, second: seq<Event>)
    ensures Runs(m, first + second) <==> Runs(m, first) && Runs(After(m, first), second)
    ensures Runs(m, first + second) ==> After(m, first + second) == After(After(m, first), second)
    decreases |first|
  {
    hide Next, Enabled;
    if first == [] {
      assert first + second == second;
    } else {
      assert (first + second)[0] == first[0] && (first + second)[1..] == first[1..] + second;
      if Enabled(m, first[0]) { RunsInTwo(Next(m, first[0]), first[1..], second); }
    }
  }

  lemma RunOfOne(m: Machine, e: Event)
    requires Enabled(m, e)
    ensures Runs(m, [e]) && After(m, [e]) == Next(m, e)
  {
    assert [e][1..] == [];
    assert Runs(Next(m, e), []) && After(Next(m, e), []) == Next(m, e);
  }

  /** What the operator last asked for, by the dashboard or by the flag. */
  function AsToggled(allowAll: Option<bool>, events: seq<Event>): Option<bool>
    decreases |events|
  {
    if events == [] then allowAll
    else AsToggled(match events[0]
                   case Toggles(allow) => Some(allow)
                   case Starts(_, flag) => if flag then Some(true) else allowAll
                   case Stops => allowAll, events[1..])
  }

  /** Effect first: a boot that makes the marker durable had, when it was about to write the
      marker, already stored allow_all=false, and leaves it so. */
  lemma MarkerFollowsEffect(s: Store, f: Faults)
    requires !Done(s) && Done(Boot(s, f))
    ensures Boot(s, f).allowAll == Some(false)
    ensures var between := Boot(s, f.(stop := BeforeMarker)); !Done(between) && between.allowAll == Some(false)
  {
  }

  /** Event k is the start whose migration put the marker down, having stored allow_all=false
      itself. */
  predicate MarkedAt(m: Machine, events: seq<Event>, k: nat)
    requires k < |events| && Runs(m, events)
  {
    Runs(m, events[..k]) &&
    var before := After(m, events[..k]).store;
    && events[k].Starts? && !Done(before) && Completes(before, events[k].faults)
    && Boot(before, events[k].faults).allowAll == Some(false)
  }

  lemma CompletingMarks(m: Machine, e: Event)
    requires Enabled(m, e) && !Done(m.store)
    ensures Done(Next(m, e).store) <==> e.Starts? && Completes(m.store, e.faults)
    ensures Done(Next(m, e).store) ==> Boot(m.store, e.faults).allowAll == Some(false)
  {
  }

  lemma MarkedLater(m: Machine, events: seq<Event>, k: nat)
    requires Runs(m, events) && 0 < k < |events|
    ensures MarkedAt(m, events, k) <==> MarkedAt(Next(m, events[0]), events[1..], k - 1)
  {
    hide Next, Enabled, Completes, Boot, Done;
    assert events[..k][0] == events[0] && events[..k][1..] == events[1..][..k - 1];
  }

  /** Over any run from a store without the marker: at the end it is durable if and only if
      some start completed the migration, having stored allow_all=false itself. */
  lemma {:induction false} MarkerIsDurableIff(m: Machine, events: seq<Event>)
    requires Runs(m, events) && !Done(m.store)
    ensures Done(After(m, events).store) <==> exists k :: 0 <= k < |events| && MarkedAt(m, events, k)
    decreases |events|
  {
    hide Completes, Boot, Next, Enabled, Done, MarkedAt;
    if events != [] {
      var n, rest := Next(m, events[0]), events[1..];
      FirstMarks(m, events);
      if Done(n.store) {
        DoneStays(n, rest);
      } else {
        MarkerIsDurableIff(n, rest);
        forall k | 0 < k < |events| ensures MarkedAt(m, events, k) <==> MarkedAt(n, rest, k - 1) {
          MarkedLater(m, events, k);
        }
        if k :| 0 <= k < |rest| && MarkedAt(n, rest, k) { assert MarkedAt(m, events, k + 1); }
      }
    }
  }

  lemma FirstMarks(m: Machine, events: seq<Event>)
    requires Runs(m, events) && events != [] && !Done(m.store)
    ensures MarkedAt(m, events, 0) <==> Done(Next(m, events[0]).store)
  {
    hide Completes, Boot, Next, Done;
    CompletingMarks(m, events[0]);
    assert events[..0] == [];
    assert Runs(m, []) && After(m, []) == m;
  }

  /** Once the marker is durable no later start changes anything, however it goes: the setting
      is what it was, or what the operator last made it. */
  lemma {:induction false} DoneStays(m: Machine, events: seq<Event>)
    requires Runs(m, events) && Done(m.store)
    ensures After(m, events).store == Store(AsToggled(m.store.allowAll, events), m.store.markers)
    ensures Done(After(m, events).store)
    decreases |events|
  {
    if events != [] { DoneStays(Next(m, events[0]), events[1..]); }
  }

  /** Every other migration's marker is kept, whatever happens. */
  lemma {:induction false} OtherMarkersAreKept(m: Machine, events: seq<Event>)
    requires Runs(m, events)
    ensures m.store.markers.Recorded? ==>
              && After(m, events).store.markers.Recorded?
              && After(m, events).store.markers.marks - {MARKER} == m.store.markers.marks - {MARKER}
    ensures !m.store.markers.Recorded? && After(m, events).store.markers.Recorded? ==>
              After(m, events).store.markers.marks == map[MARKER := true]
    ensures After(m, events).store.markers == m.store.markers
            || After(m, events).store.markers == Recorded(Marks(m.store.markers)[MARKER := true])
    decreases |events|
  {
    hide Takes, Completes;
    if events != [] {
      OtherMarkersAreKept(Next(m, events[0]), events[1..]);
      assert Marks(m.store.markers)[MARKER := true][MARKER := true] == Marks(m.store.markers)[MARKER := true];
    }
  }

  // ----- convergence

  /** A start with no fault, over a readable record, finishes the migration for good, whatever
      came before; and after it only the operator changes the setting. */
  lemma CleanBootConverges(m: Machine, first: seq<Event>, rest: seq<Event>)
    requires m.store.markers != Unreadable && Runs(m, first) && !After(m, first).up
    requires Runs(Next(After(m, first), Starts(NO_FAULTS, false)), rest)
    ensures var before := After(m, first);
            var t := Next(before, Starts(NO_FAULTS, false));
            && Done(t.store) && t.up
            && t.store.allowAll == (if Done(before.store) then before.store.allowAll else Some(false))
            && Runs(m, first + [Starts(NO_FAULTS, false)] + rest)
            && After(m, first + [Starts(NO_FAULTS, false)] + rest).store
               == Store(AsToggled(t.store.allowAll, rest), t.store.markers)
  {
    var clean := Starts(NO_FAULTS, false);
    var before := After(m, first);
    OtherMarkersAreKept(m, first);
    RunOfOne(before, clean);
    RunsInTwo(m, first, [clean]);
    RunsInTwo(m, first + [clean], rest);
    DoneStays(Next(before, clean), rest);
  }

  /** An unreadable record stops the migration without touching the setting. */
  lemma {:induction false} UnreadableLeavesTheSetting(m: Machine, events: seq<Event>)
    requires Runs(m, events) && m.store.markers == Unreadable
    ensures After(m, events).store == Store(AsToggled(m.store.allowAll, events), Unreadable)
    decreases |events|
  {
    if events != [] { UnreadableLeavesTheSetting(Next(m, events[0]), events[1..]); }
  }

  // ----- the repeated write

  /** After a crash inside the migration nothing can happen before the next start, and its
      migration finds what the dead one left: if that was allow_all=false, writing it again
      changes nothing. */
  lemma CrashIsHarmless(m: Machine, f: Faults, flag: bool, e: Event)
    requires !m.up && Dies(m.store, f) && Enabled(Next(m, Starts(f, flag)), e)
    ensures var dead := Next(m, Starts(f, flag));
            && e.Starts?
            && (f.stop == BeforeEffect ==> dead.store == m.store)
            && (f.stop == BeforeMarker ==>
                  dead.store.allowAll == Some(false) && Boot(dead.store, e.faults).allowAll == dead.store.allowAll)
  {
  }

  /** The operator stays away: no toggle and no flag. */
  predicate Unattended(events: seq<Event>) {
    forall i :: 0 <= i < |events| ==> !events[i].Toggles? && (events[i].Starts? ==> !events[i].allowAllFlag)
  }

  /** A start in the list gets as far as the first write, over a store the marker is not in. */
  predicate SomeTakes(s: Store, events: seq<Event>) {
    exists i :: 0 <= i < |events| && events[i].Starts? && Takes(s, events[i].faults)
  }

  lemma {:induction false} KeepsRefusing(m: Machine, events: seq<Event>)
    requires Runs(m, events) && m.store.allowAll == Some(false) && Unattended(events)
    ensures After(m, events).store.allowAll == Some(false)
    decreases |events|
  {
    if events != [] { KeepsRefusing(Next(m, events[0]), events[1..]); }
  }

  /** A setting that lets everyone in keeps doing so, with the operator away, if and only if no
      later start reaches the migration's first write. */
  lemma {:induction false} OpenSettingSurvivesIff(m: Machine, events: seq<Event>)
    requires Runs(m, events) && m.store.allowAll != Some(false) && Unattended(events)
    ensures After(m, events).store.allowAll == m.store.allowAll <==> !SomeTakes(m.store, events)
    decreases |events|
  {
    hide Takes, Dies;
    if events != [] {
      var e, rest := events[0], events[1..];
      var n := Next(m, e);
      assert !e.Toggles? && (e.Starts? ==> !e.allowAllFlag);
      assert forall i :: 0 < i < |events| ==> events[i] == rest[i - 1];
      if e.Starts? && Takes(m.store, e.faults) {
        assert SomeTakes(m.store, events);
        KeepsRefusing(n, rest);
      } else {
        assert n.store == m.store;
        OpenSettingSurvivesIff(n, rest);
        if SomeTakes(m.store, events) {
          var i :| 0 <= i < |events| && events[i].Starts? && Takes(m.store, events[i].faults);
          assert rest[i - 1].Starts? && Takes(m.store, rest[i - 1].faults);
        }
        if SomeTakes(m.store, rest) {
          var i :| 0 <= i < |rest| && rest[i].Starts? && Takes(m.store, rest[i].faults);
          assert events[i + 1].Starts? && Takes(m.store, events[i + 1].faults);
        }
      }
    }
  }

  function OverriddenRun(): seq<Event> {
    [Starts(NO_FAULTS.(markerFails := true), false), Toggles(true), Stops, Starts(NO_FAULTS, false)]
  }

  /** The marker write fails and the daemon runs on. An operator who lets everyone in meanwhile
      is overridden by the next start, although the log called the repetition harmless. */
  lemma FailedMarkerOverridesTheOperator(s: Store)
    requires s.markers == Missing
    ensures var m := Machine(false, s);
            && Runs(m, OverriddenRun()) && Runs(m, OverriddenRun()[..3])
            && After(m, OverriddenRun()[..3]).store.allowAll == Some(true)
            && After(m, OverriddenRun()) .store.allowAll == Some(false)
  {
    var m := Machine(false, s);
    var failed, allow, clean :=
      Starts(NO_FAULTS.(markerFails := true), false), Toggles(true), Starts(NO_FAULTS, false);
    var m1 := Next(m, failed);
    var m2 := Next(m1, allow);
    var m3 := Next(m2, Stops);
    RunOfOne(m, failed);
    RunOfOne(m1, allow);
    RunOfOne(m2, Stops);
    RunOfOne(m3, clean);
    RunsInTwo(m, [failed], [allow]);
    RunsInTwo(m, [failed] + [allow], [Stops]);
    RunsInTwo(m, [failed] + [allow] + [Stops], [clean]);
    assert OverriddenRun()[..3] == [failed] + [allow] + [Stops];
    assert OverriddenRun() == [failed] + [allow] + [Stops] + [clean];
  }
}
