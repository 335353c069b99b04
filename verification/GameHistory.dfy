/** Game profiles and their edit history (internal/game/engine.go): every edit files the
    profile as it was before, and a rollback puts such a snapshot back. The discovery and
    routing workers write to the same records. */
module GameHistory {
  import opened Prelude
  import opened Text

  // ----- profiles

  datatype Domain = Domain(hostname: string, gameID: string, publisher: string, category: string, policy: string,
                           confidence: int, status: string, evidence: seq<string>, firstSeen: Time, lastSeen: Time,
                           observations: u64, resolvedIPs: seq<string>, ttl: nat, createdBy: string,
                           updatedAt: Time, enabled: bool)

  /** Everything in a profile but its history and the time of its last save. `settings` stands
      for the fields no operation here looks into. */
  datatype Content = Content(id: string, name: string, publisher: string, enabled: bool,
                             domains: map<string, Domain>, dnsPolicies: map<string, string>,
                             preferredNode: string, settings: string, createdAt: Time)

  /** A snapshot, in its parsed form: none, the JSON of a profile, or text that is no profile. */
  datatype Snapshot = Missing | Json(profile: Profile) | Garbled

  datatype Entry = Entry(version: int, at: Time, actor: string, summary: string, snapshot: Snapshot)

  datatype Profile = Profile(content: Content, history: seq<Entry>, updatedAt: Time)

  type Games = map<string, Profile>

  /** Which of an operation's store accesses fail: the load, the second read that the snapshot
      is taken from, the save, the list the rules are rebuilt from, the audit entry, and the
      write to the domain-intelligence bucket. */
  datatype Faults = Faults(loadFails: bool, rereadFails: bool, saveFails: bool, listFails: bool, auditFails: bool, intelFails: bool)

  const NO_FAULTS := Faults(false, false, false, false, false, false)

  /** The readings of the clock an operation makes, in order; `printed` is the first of them as
      the evidence line has it. */
  datatype Clock = Clock(edit: Time, printed: string, entry: Time, save: Time, audit: Time, intel: Time)

  datatype Outcome = Saved | NotFound | NoSnapshot | Corrupt | NotSaved | NotIndexed

  // ----- the edits, as functions of the content

  datatype Edit =
    | AddsDomain(hostname: string, category: string, policy: string)
    | RemovesDomain(hostname: string)
    | SetsDomain(hostname: string, policy: string, category: string, enabled: bool)
    | SetsCategory(category: string, policy: string, propagate: bool)

  function NormalizeDomain(domain: string): string {
    var d := TrimSpace(domain);
    ToLower(if d != "" && d[|d| - 1] == '.' then d[..|d| - 1] else d)
  }

  function NewDomain(hostname: string, gameID: string, publisher: string, now: Time, actor: string): Domain {
    Domain(hostname, gameID, publisher, "", "", 100, "confirmed", [], now, 0, 0, [], 0, actor, 0, false)
  }

  function Policied(d: Domain, policy: string, category: string, enabled: bool, actor: string, t: Clock): Domain {
    var p := if policy != "" then policy else d.policy;
    var c := if category != "" then category else d.category;
    var note := "Policy updated to " + p + " [" + c + "] by " + actor + " at " + t.printed;
    d.(policy := p, category := c, enabled := enabled, updatedAt := t.edit, lastSeen := t.edit, evidence := d.evidence + [note])
  }

  /** strings.EqualFold on the two names. */
  predicate SameCategory(d: Domain, category: string) { ToLower(d.category) == ToLower(category) }

  function Repoliced(d: Domain, category: string, policy: string, now: Time): Domain {
    if SameCategory(d, category) then d.(policy := policy, updatedAt := now) else d
  }

  function Propagated(domains: map<string, Domain>, category: string, policy: string, now: Time): map<string, Domain> {
    map host | host in domains :: Repoliced(domains[host], category, policy, now)
  }

  function Edited(c: Content, id: string, e: Edit, actor: string, t: Clock): Content {
    match e
    case AddsDomain(hostname, category, policy) =>
      var norm := NormalizeDomain(hostname);
      var added := NewDomain(norm, id, c.publisher, t.edit, actor).(category := category, policy := policy,
                     evidence := ["Manually added by " + actor], lastSeen := t.edit, observations := 1, updatedAt := t.edit,
                     enabled := true);
      c.(domains := c.domains[norm := added])
    case RemovesDomain(hostname) => c.(domains := c.domains - {NormalizeDomain(hostname)})
    case SetsDomain(hostname, policy, category, enabled) =>
      var norm := NormalizeDomain(hostname);
      var d := if norm in c.domains then c.domains[norm] else NewDomain(norm, id, c.publisher, t.edit, actor);
      c.(domains := c.domains[norm := Policied(d, policy, category, enabled, actor, t)])
    case SetsCategory(category, policy, propagate) =>
      c.(dnsPolicies := c.dnsPolicies[category := policy],
         domains := if propagate then Propagated(c.domains, category, policy, t.edit) else c.domains)
  }

  // ----- what the operations do to the store

  function Noted(p: Profile, at: Time, actor: string, summary: string, snapshot: Snapshot): seq<Entry> {
    p.history + [Entry(|p.history| + 1, at, actor, summary, snapshot)]
  }

  function Put(games: Games, p: Profile, at: Time, fails: bool): (Games, Outcome) {
    if fails then (games, NotSaved) else (games[p.content.id := p.(updatedAt := at)], Saved)
  }

  function SaveStep(games: Games, p: Profile, actor: string, t: Clock, f: Faults): (Games, Outcome) {
    var snapshot := if f.rereadFails || p.content.id !in games then Missing else Json(games[p.content.id]);
    Put(games, p.(history := Noted(p, t.entry, actor, "Profile updated by " + actor, snapshot)), t.save, f.saveFails)
  }

  function EditStep(games: Games, id: string, e: Edit, actor: string, t: Clock, f: Faults): (Games, Outcome) {
    if f.loadFails || id !in games then (games, NotFound)
    else
      var p := games[id];
      SaveStep(games, p.(content := Edited(p.content, id, e, actor, t)), actor, t, f)
  }

  /** The first entry of that version that has a snapshot. */
  function FindSnapshot(history: seq<Entry>, version: int): Snapshot {
    if history == [] then Missing
    else if history[0].version == version && history[0].snapshot != Missing then history[0].snapshot
    else FindSnapshot(history[1..], version)
  }

  function RollbackStep(games: Games, id: string, version: int, actor: string, t: Clock, f: Faults): (Games, Outcome) {
    if f.loadFails || id !in games then (games, NotFound)
    else
      var p := games[id];
      match FindSnapshot(p.history, version)
      case Missing => (games, NoSnapshot)
      case Garbled => (games, Corrupt)
      case Json(restored) =>
        Put(games, restored.(history := Noted(p, t.entry, actor, RollbackSummary(version), Missing)), t.save, f.saveFails)
  }

  function RollbackSummary(version: int): string { "Rolled back to version " + PrintInt(version) }

  // ----- what follows a save

  datatype Audit = Audit(actor: string, action: string, target: string, details: string)

  /** The matcher's game rules: the enabled domains of the enabled profiles, by policy. */
  datatype Rules = Rules(proxied: set<string>, blocked: set<string>, direct: set<string>)

  /** Entries are kept under the clock's reading. */
  function Logged(audit: map<Time, Audit>, a: Audit, saved: Outcome, t: Clock, f: Faults): map<Time, Audit> {
    if saved == Saved && !f.auditFails then audit[t.audit := a] else audit
  }

  function SavedAudit(c: Content, actor: string): Audit {
    Audit(actor, "game_profile_saved", c.id, "Saved profile " + c.name + " (" + PrintInt(|c.domains|) + " domains)")
  }

  function RollbackAudit(name: string, id: string, version: int, actor: string): Audit {
    Audit(actor, "game_profile_rollback", id, "Rolled back profile " + name + " to version " + PrintInt(version))
  }

  predicate Enforces(p: Profile, host: string, policy: string) {
    && p.content.enabled && host in p.content.domains
    && p.content.domains[host].enabled && ToLower(p.content.domains[host].policy) == policy
  }

  function HostsWith(games: Games, policy: string): set<string> {
    set id, host | id in games && host in games[id].content.domains && Enforces(games[id], host, policy) :: host
  }

  function RulesOf(games: Games): Rules {
    Rules(HostsWith(games, "proxy"), HostsWith(games, "block"), HostsWith(games, "direct"))
  }

  function Synced(rules: Rules, games: Games, saved: Outcome, f: Faults): Rules {
    if saved == Saved && !f.listFails then RulesOf(games) else rules
  }

  /** SaveDomainIntel normalises the name once more. */
  function Indexed(intel: map<string, Domain>, d: Domain, at: Time): map<string, Domain> {
    var host := NormalizeDomain(d.hostname);
    intel[host := d.(hostname := host, updatedAt := at)]
  }

  function WithIntel(saved: Outcome, f: Faults): Outcome {
    if saved == Saved && f.intelFails then NotIndexed else saved
  }

  /** The record an edit of one domain leaves in the profile. */
  function DomainAfter(c: Content, id: string, e: Edit, actor: string, t: Clock): Domain
    requires e.AddsDomain? || e.SetsDomain?
  { Edited(c, id, e, actor, t).domains[NormalizeDomain(e.hostname)] }

  class Store {
    var games: Games
    var intel: map<string, Domain>
    var audit: map<Time, Audit>

    method GetGameProfile(id: string, fails: bool) returns (p: Option<Profile>)
      ensures p == if fails || id !in games then None else Some(games[id])
    { p := if fails || id !in games then None else Some(games[id]); }

    method SaveGameProfile(p: Profile, at: Time, fails: bool) returns (outcome: Outcome)
      modifies `games
      ensures (games, outcome) == Put(old(games), p, at, fails)
    {
      if fails { return NotSaved; }
      games := games[p.content.id := p.(updatedAt := at)];
      return Saved;
    }

    method AppendAuditLog(entry: Audit, at: Time, fails: bool)
      modifies `audit
      ensures audit == if fails then old(audit) else old(audit)[at := entry]
    { if !fails { audit := audit[at := entry]; } }

    method SaveDomainIntel(d: Domain, at: Time, fails: bool) returns (outcome: Outcome)
      modifies `intel
      ensures outcome == if fails then NotIndexed else Saved
      ensures intel == if fails then old(intel) else Indexed(old(intel), d, at)
    {
      var host := NormalizeDomain(d.hostname);
      if fails { return NotIndexed; }
      intel := intel[host := d.(hostname := host, updatedAt := at)];
      return Saved;
    }

    method DeleteDomainIntel(hostname: string, fails: bool) returns (outcome: Outcome)
      modifies `intel
      ensures outcome == if fails then NotIndexed else Saved
      ensures intel == if fails then old(intel) else old(intel) - {NormalizeDomain(hostname)}
    {
      if fails { return NotIndexed; }
      intel := intel - {NormalizeDomain(hostname)};
      return Saved;
    }
  }

  class Engine {
    const store: Store
    /** What the matcher was last given. */
    var rules: Rules

    /** NewEngine, past the seeds: the matcher starts with no game rules. */
    constructor (s: Store, listFails: bool)
      ensures store == s && rules == if listFails then Rules({}, {}, {}) else RulesOf(s.games)
    {
      store := s;
      rules := Rules({}, {}, {});
      new;
      SyncProfilesToMatcher(listFails);
    }

    /** A list that cannot be read leaves the matcher as it is. */
    method SyncProfilesToMatcher(fails: bool)
      modifies `rules
      ensures rules == if fails then old(rules) else RulesOf(store.games)
    {
      if fails { return; }
      var proxied, blocked, direct := {}, {}, {};
      var left := store.games.Keys;
      while left != {}
        invariant left <= store.games.Keys
        invariant proxied == HostsOf(store.games, store.games.Keys - left, "proxy")
        invariant blocked == HostsOf(store.games, store.games.Keys - left, "block")
        invariant direct == HostsOf(store.games, store.games.Keys - left, "direct")
        decreases |left|
      {
        hide Enforces;
        var id :| id in left;
        var p := store.games[id];
        var more := RulesOfProfile(p);
        OneMoreProfile(store.games, store.games.Keys - left, id);
        assert store.games.Keys - (left - {id}) == store.games.Keys - left + {id};
        proxied, blocked, direct := proxied + more.proxied, blocked + more.blocked, direct + more.direct;
        left := left - {id};
      }
      rules := Rules(proxied, blocked, direct);
    }

    /** The loop over one profile's domains. */
    static method RulesOfProfile(p: Profile) returns (r: Rules)
      ensures r == Rules(EnforcedBy(p, "proxy"), EnforcedBy(p, "block"), EnforcedBy(p, "direct"))
    {
      r := Rules({}, {}, {});
      if !p.content.enabled { return; }
      var left := p.content.domains.Keys;
      while left != {}
        invariant left <= p.content.domains.Keys
        invariant forall host :: host in r.proxied <==> host !in left && Enforces(p, host, "proxy")
        invariant forall host :: host in r.blocked <==> host !in left && Enforces(p, host, "block")
        invariant forall host :: host in r.direct <==> host !in left && Enforces(p, host, "direct")
        decreases |left|
      {
        hide ToLower;
        var host :| host in left;
        var d := p.content.domains[host];
        left := left - {host};
        if !d.enabled { continue; }
        var policy := ToLower(d.policy);
        if policy == "proxy" { r := r.(proxied := r.proxied + {host}); }
        else if policy == "block" { r := r.(blocked := r.blocked + {host}); }
        else if policy == "direct" { r := r.(direct := r.direct + {host}); }
      }
    }

    method SaveGameProfile(p: Profile, actor: string, t: Clock, f: Faults) returns (outcome: Outcome)
      modifies store`games, store`audit, `rules
      ensures (store.games, outcome) == SaveStep(old(store.games), p, actor, t, f)
      ensures rules == Synced(old(rules), store.games, outcome, f)
      ensures store.audit == Logged(old(store.audit), SavedAudit(p.content, actor), outcome, t, f)
    {
      hide RulesOf;
      var existing := store.GetGameProfile(p.content.id, f.rereadFails);
      var snapshot := if existing.Some? then Json(existing.value) else Missing;
      var history := p.history + [Entry(|p.history| + 1, t.entry, actor, "Profile updated by " + actor, snapshot)];
      outcome := store.SaveGameProfile(p.(history := history), t.save, f.saveFails);
      if outcome != Saved { return; }
      SyncProfilesToMatcher(f.listFails);
      store.AppendAuditLog(SavedAudit(p.content, actor), t.audit, f.auditFails);
    }

    method RollbackGameProfile(id: string, version: int, actor: string, t: Clock, f: Faults) returns (outcome: Outcome)
      modifies store`games, store`audit, `rules
      ensures (store.games, outcome) == RollbackStep(old(store.games), id, version, actor, t, f)
      ensures rules == Synced(old(rules), store.games, outcome, f)
      ensures id in old(store.games) ==>
                store.audit == Logged(old(store.audit), RollbackAudit(old(store.games)[id].content.name, id, version, actor), outcome, t, f)
      ensures id !in old(store.games) ==> store.audit == old(store.audit)
    {
      hide RulesOf;
      var loaded := store.GetGameProfile(id, f.loadFails);
      if loaded == None { return NotFound; }
      var p := loaded.value;
      var snapshot := Missing;
      for i := 0 to |p.history|
        invariant snapshot == Missing
        invariant FindSnapshot(p.history, version) == FindSnapshot(p.history[i..], version)
      {
        if p.history[i].version == version && p.history[i].snapshot != Missing {
          snapshot := p.history[i].snapshot;
          break;
        }
      }
      if snapshot == Missing { return NoSnapshot; }
      if snapshot == Garbled { return Corrupt; }
      var entry := Entry(|p.history| + 1, t.entry, actor, "Rolled back to version " + PrintInt(version), Missing);
      outcome := store.SaveGameProfile(snapshot.profile.(history := p.history + [entry]), t.save, f.saveFails);
      if outcome != Saved { return; }
      SyncProfilesToMatcher(f.listFails);
      store.AppendAuditLog(RollbackAudit(p.content.name, id, version, actor), t.audit, f.auditFails);
    }

    method AddGameDomain(id: string, hostname: string, category: string, policy: string, actor: string,
                         t: Clock, f: Faults)
      returns (outcome: Outcome)
      modifies store, `rules
      ensures var e := AddsDomain(hostname, category, policy);
              var (games, saved) := EditStep(old(store.games), id, e, actor, t, f);
              && store.games == games && outcome == WithIntel(saved, f) && rules == Synced(old(rules), games, saved, f)
              && store.intel == (if outcome != Saved then old(store.intel)
                                 else Indexed(old(store.intel), DomainAfter(old(store.games)[id].content, id, e, actor, t), t.intel))
    {
      hide RulesOf, SaveStep, NormalizeDomain, Indexed;
      var loaded := store.GetGameProfile(id, f.loadFails);
      if loaded == None { return NotFound; }
      var p := loaded.value;
      var norm := NormalizeDomain(hostname);
      var dom := Domain(norm, id, p.content.publisher, category, policy, 100, "confirmed", ["Manually added by " + actor],
                        t.edit, t.edit, 1, [], 0, actor, t.edit, true);
      p := p.(content := p.content.(domains := p.content.domains[norm := dom]));
      outcome := SaveGameProfile(p, actor, t, f);
      if outcome != Saved { return; }
      outcome := store.SaveDomainIntel(dom, t.intel, f.intelFails);
    }

    method RemoveGameDomain(id: string, hostname: string, actor: string, t: Clock, f: Faults)
      returns (outcome: Outcome)
      modifies store, `rules
      ensures var (games, saved) := EditStep(old(store.games), id, RemovesDomain(hostname), actor, t, f);
              && store.games == games && outcome == WithIntel(saved, f) && rules == Synced(old(rules), games, saved, f)
              && store.intel == if outcome != Saved then old(store.intel)
                                else old(store.intel) - {NormalizeDomain(NormalizeDomain(hostname))}
    {
      hide RulesOf, SaveStep, NormalizeDomain, Indexed;
      var loaded := store.GetGameProfile(id, f.loadFails);
      if loaded == None { return NotFound; }
      var p := loaded.value;
      var norm := NormalizeDomain(hostname);
      p := p.(content := p.content.(domains := p.content.domains - {norm}));
      outcome := SaveGameProfile(p, actor, t, f);
      if outcome != Saved { return; }
      outcome := store.DeleteDomainIntel(norm, f.intelFails);
    }

    /** The field updates of UpdateGameDomainPolicy. */
    static method EditDomain(before: Domain, policy: string, category: string, enabled: bool, actor: string, t: Clock)
      returns (dom: Domain)
      ensures dom == Policied(before, policy, category, enabled, actor, t)
    {
      dom := before;
      if policy != "" { dom := dom.(policy := policy); }
      if category != "" { dom := dom.(category := category); }
      dom := dom.(enabled := enabled, updatedAt := t.edit, lastSeen := t.edit);
      dom := dom.(evidence := dom.evidence
                  + ["Policy updated to " + dom.policy + " [" + dom.category + "] by " + actor + " at " + t.printed]);
    }

    method UpdateGameDomainPolicy(id: string, hostname: string, policy: string, category: string, enabled: bool, actor: string,
                                  t: Clock, f: Faults)
      returns (outcome: Outcome)
      modifies store, `rules
      ensures var e := SetsDomain(hostname, policy, category, enabled);
              var (games, saved) := EditStep(old(store.games), id, e, actor, t, f);
              && store.games == games && outcome == WithIntel(saved, f) && rules == Synced(old(rules), games, saved, f)
              && store.intel == (if outcome != Saved then old(store.intel)
                                 else Indexed(old(store.intel), DomainAfter(old(store.games)[id].content, id, e, actor, t), t.intel))
    {
      hide RulesOf, SaveStep, NormalizeDomain, Indexed, Policied, NewDomain;
      var loaded := store.GetGameProfile(id, f.loadFails);
      if loaded == None { return NotFound; }
      var p := loaded.value;
      var norm := NormalizeDomain(hostname);
      var dom := NewDomain(norm, id, p.content.publisher, t.edit, actor);
      if norm in p.content.domains { dom := p.content.domains[norm]; }
      dom := EditDomain(dom, policy, category, enabled, actor, t);
      p := p.(content := p.content.(domains := p.content.domains[norm := dom]));
      outcome := SaveGameProfile(p, actor, t, f);
      if outcome != Saved { return; }
      outcome := store.SaveDomainIntel(dom, t.intel, f.intelFails);
    }

    /** `skipped` names the domains whose write to the intelligence bucket fails. */
    method UpdateGameCategoryPolicy(id: string, category: string, policy: string, propagate: bool, actor: string,
                                    t: Clock, f: Faults, skipped: set<string>)
      returns (outcome: Outcome)
      modifies store, `rules
      ensures var (games, saved) := EditStep(old(store.games), id, SetsCategory(category, policy, propagate), actor, t, f);
              && store.games == games && outcome == saved && rules == Synced(old(rules), games, saved, f)
              && (if saved == NotFound || !propagate then store.intel == old(store.intel)
                  else IntelFollows(old(store.intel), store.intel, old(store.games)[id].content.domains, category, policy, skipped, t))
    {
      hide RulesOf, IntelFollows, Propagated;
      var loaded := store.GetGameProfile(id, f.loadFails);
      if loaded == None { return NotFound; }
      var p := loaded.value;
      var domains := p.content.domains;
      if propagate {
        domains := Propagate(domains, category, policy, t, skipped);
      }
      p := p.(content := p.content.(dnsPolicies := p.content.dnsPolicies[category := policy], domains := domains));
      outcome := SaveGameProfile(p, actor, t, f);
    }

    /** The loop over the domains, in whatever order they come. */
    method Propagate(before: map<string, Domain>, category: string, policy: string, t: Clock, skipped: set<string>)
      returns (domains: map<string, Domain>)
      modifies store`intel
      ensures domains == Propagated(before, category, policy, t.edit)
      ensures IntelFollows(old(store.intel), store.intel, before, category, policy, skipped, t)
    {
      hide IntelSoFar, PropagatedTo, Propagated, Repoliced, Indexed, Reaches;
      domains := before;
      var left := before.Keys;
      PropagationStarts(before, category, policy, t, skipped, store.intel);
      while left != {}
        invariant left <= before.Keys
        invariant domains == PropagatedTo(before, before.Keys - left, category, policy, t.edit)
        invariant IntelSoFar(old(store.intel), store.intel, before, before.Keys - left, category, policy, skipped, t)
        decreases |left|
      {
        var host :| host in left;
        ghost var done := before.Keys - left;
        PropagationGoesOn(before, done, host, category, policy, t.edit, skipped);
        IntelGoesOn(old(store.intel), store.intel, before, done, host, category, policy, skipped, t);
        domains := PropagateTo(domains, host, category, policy, t, skipped);
        left := left - {host};
        assert before.Keys - left == done + {host};
      }
      assert before.Keys - left == before.Keys;
    }

    /** The body of that loop. */
    method PropagateTo(domains: map<string, Domain>, host: string, category: string, policy: string, t: Clock, skipped: set<string>)
      returns (after: map<string, Domain>)
      requires host in domains
      modifies store`intel
      ensures after == domains[host := Repoliced(domains[host], category, policy, t.edit)]
      ensures store.intel == if Reaches(domains, host, category, skipped)
                             then Indexed(old(store.intel), domains[host].(policy := policy, updatedAt := t.edit), t.intel)
                             else old(store.intel)
    {
      hide ToLower, Indexed;
      after := domains;
      var d := domains[host];
      if SameCategory(d, category) {
        d := d.(policy := policy, updatedAt := t.edit);
        after := after[host := d];
        var _ := store.SaveDomainIntel(d, t.intel, host in skipped);
      } else {
        assert domains == domains[host := d];
      }
    }
  }

  /** The domains after the given ones were visited. */
  function PropagatedTo(before: map<string, Domain>, done: set<string>, category: string, policy: string, now: Time)
    : map<string, Domain>
  { map host | host in before :: if host in done then Repoliced(before[host], category, policy, now) else before[host] }

  lemma PropagationStarts(before: map<string, Domain>, category: string, policy: string, t: Clock, skipped: set<string>,
                          intel: map<string, Domain>)
    ensures PropagatedTo(before, before.Keys - before.Keys, category, policy, t.edit) == before
    ensures PropagatedTo(before, before.Keys, category, policy, t.edit) == Propagated(before, category, policy, t.edit)
    ensures IntelSoFar(intel, intel, before, before.Keys - before.Keys, category, policy, skipped, t)
  {
    hide Repoliced, Written;
  }

  lemma PropagationGoesOn(before: map<string, Domain>, done: set<string>, host: string, category: string, policy: string, now: Time,
                          skipped: set<string>)
    requires host in before && host !in done
    ensures var domains := PropagatedTo(before, done, category, policy, now);
            && host in domains && domains[host] == before[host]
            && (Reaches(domains, host, category, skipped) <==> Reaches(before, host, category, skipped))
            && PropagatedTo(before, done + {host}, category, policy, now)
               == domains[host := Repoliced(before[host], category, policy, now)]
  {
    hide Repoliced;
  }

  function HostsOf(games: Games, ids: set<string>, policy: string): set<string>
    requires ids <= games.Keys
  { set id, host | id in ids && host in games[id].content.domains && Enforces(games[id], host, policy) :: host }

  function EnforcedBy(p: Profile, policy: string): set<string> {
    set host | host in p.content.domains && Enforces(p, host, policy)
  }

  lemma OneMoreProfile(games: Games, ids: set<string>, id: string)
    requires ids <= games.Keys && id in games
    ensures forall policy :: HostsOf(games, ids + {id}, policy) == HostsOf(games, ids, policy) + EnforcedBy(games[id], policy)
    ensures forall policy :: HostsOf(games, games.Keys, policy) == HostsWith(games, policy)
  {
    hide Enforces;
  }

  /** The record a propagation writes for one domain. */
  function IntelRecord(d: Domain, policy: string, t: Clock): Domain {
    d.(hostname := NormalizeDomain(d.hostname), policy := policy, updatedAt := t.intel)
  }

  predicate Reaches(before: map<string, Domain>, host: string, category: string, skipped: set<string>) {
    host in before && host !in skipped && SameCategory(before[host], category)
  }

  /** Every domain of the category that was not skipped has the intelligence record of some
      domain of that name that was not, and every other record is as before. */
  ghost predicate IntelSoFar(prev: map<string, Domain>, intel: map<string, Domain>, before: map<string, Domain>, done: set<string>,
                             category: string, policy: string, skipped: set<string>, t: Clock) {
    && (forall host :: host in done && Reaches(before, host, category, skipped) ==>
          Written(intel, NormalizeDomain(before[host].hostname), before, done, category, policy, skipped, t))
    && (forall key :: key in prev || key in intel ==>
          || (key in prev && key in intel && intel[key] == prev[key])
          || Written(intel, key, before, done, category, policy, skipped, t))
  }

  ghost predicate Written(intel: map<string, Domain>, key: string, before: map<string, Domain>, done: set<string>,
                          category: string, policy: string, skipped: set<string>, t: Clock) {
    key in intel &&
    exists host :: host in done && Reaches(before, host, category, skipped)
                   && NormalizeDomain(before[host].hostname) == key && intel[key] == IntelRecord(before[host], policy, t)
  }

  ghost predicate IntelFollows(prev: map<string, Domain>, intel: map<string, Domain>, before: map<string, Domain>,
                               category: string, policy: string, skipped: set<string>, t: Clock) {
    IntelSoFar(prev, intel, before, before.Keys, category, policy, skipped, t)
  }

  lemma IntelGoesOn(prev: map<string, Domain>, intel: map<string, Domain>, before: map<string, Domain>, done: set<string>,
                    host: string, category: string, policy: string, skipped: set<string>, t: Clock)
    requires IntelSoFar(prev, intel, before, done, category, policy, skipped, t) && host in before
    ensures IntelSoFar(prev,
                       if Reaches(before, host, category, skipped)
                       then Indexed(intel, before[host].(policy := policy, updatedAt := t.edit), t.intel) else intel,
                       before, done + {host}, category, policy, skipped, t)
  {
    hide NormalizeDomain, SameCategory;
    var next := if Reaches(before, host, category, skipped)
                then Indexed(intel, before[host].(policy := policy, updatedAt := t.edit), t.intel) else intel;
    forall key | Written(intel, key, before, done, category, policy, skipped, t)
      ensures Written(next, key, before, done + {host}, category, policy, skipped, t)
    {
      var writer :| writer in done && Reaches(before, writer, category, skipped)
                && NormalizeDomain(before[writer].hostname) == key && intel[key] == IntelRecord(before[writer], policy, t);
      if next[key] == intel[key] { assert writer in done + {host}; } else { assert host in done + {host}; }
    }
    if Reaches(before, host, category, skipped) {
      assert host in done + {host};
      assert Written(next, NormalizeDomain(before[host].hostname), before, done + {host}, category, policy, skipped, t);
    }
  }

  // ----- the other writers

  /** AutoPromoteCandidate: one more domain, and an entry with no snapshot. */
  function PromoteStep(games: Games, id: string, host: string, d: Domain, actor: string, t: Clock, f: Faults): (Games, Outcome) {
    if f.loadFails || id !in games then (games, NotFound)
    else
      var p := games[id];
      var content := p.content.(domains := p.content.domains[host := d]);
      var summary := "Promoted candidate " + host + " to " + d.category + " (" + d.policy + ")";
      Put(games, Profile(content, Noted(p, t.entry, actor, summary, Missing), p.updatedAt), t.save, f.saveFails)
  }

  /** SelectRoute and the failover loop: another node, and no entry at all. */
  function RerouteStep(games: Games, id: string, node: string, t: Clock, f: Faults): (Games, Outcome) {
    if f.loadFails || id !in games then (games, NotFound)
    else Put(games, games[id].(content := games[id].content.(preferredNode := node)), t.save, f.saveFails)
  }

  // ----- runs

  datatype Op =
    | Edits(id: string, edit: Edit, actor: string, clock: Clock, faults: Faults)
    | RollsBack(id: string, version: int, actor: string, clock: Clock, faults: Faults)
    | Promotes(id: string, host: string, domain: Domain, actor: string, clock: Clock, faults: Faults)
    | Reroutes(id: string, node: string, clock: Clock, faults: Faults)

  function Next(games: Games, op: Op): Games {
    match op
    case Edits(id, edit, actor, t, f) => EditStep(games, id, edit, actor, t, f).0
    case RollsBack(id, version, actor, t, f) => RollbackStep(games, id, version, actor, t, f).0
    case Promotes(id, host, d, actor, t, f) => PromoteStep(games, id, host, d, actor, t, f).0
    case Reroutes(id, node, t, f) => RerouteStep(games, id, node, t, f).0
  }

  function Run(games: Games, ops: seq<Op>): Games
    decreases |ops|
  {
    if ops == [] then games else Run(Next(games, ops[0]), ops[1..])
  }

  /** Entries are numbered from one, and snapshots are of the game they are filed under. */
  ghost predicate WellKept(p: Profile, id: string) {
    && p.content.id == id
    && (forall i :: 0 <= i < |p.history| ==> p.history[i].version == i + 1)
    && (forall i :: 0 <= i < |p.history| ==> OwnSnapshot(p.history[i].snapshot, id))
  }

  predicate OwnSnapshot(snapshot: Snapshot, id: string) {
    snapshot.Json? ==> snapshot.profile.content.id == id
  }

  ghost predicate Kept(games: Games) {
    forall id :: id in games ==> WellKept(games[id], id)
  }

  /** What one operation may do to one profile: leave its history alone, or add one entry,
      numbered next, whose snapshot, if it has one, is of the profile as it was. */
  predicate Grows(before: Profile, after: Profile) {
    || after.history == before.history
    || (&& |after.history| == |before.history| + 1
        && after.history[..|before.history|] == before.history
        && after.history[|before.history|].version == |before.history| + 1
        && (var s := after.history[|before.history|].snapshot; s == Missing || s == Json(before)))
  }

  lemma FoundSnapshotIsFiled(history: seq<Entry>, version: int)
    ensures var s := FindSnapshot(history, version);
            s == Missing || exists i :: 0 <= i < |history| && history[i].snapshot == s
  {
    if history != [] && FindSnapshot(history, version) != Missing {
      if !(history[0].version == version && history[0].snapshot != Missing) {
        FoundSnapshotIsFiled(history[1..], version);
        var i :| 0 <= i < |history[1..]| && history[1..][i].snapshot == FindSnapshot(history, version);
        assert history[i + 1].snapshot == FindSnapshot(history, version);
      } else {
        assert history[0].snapshot == FindSnapshot(history, version);
      }
    }
  }

  /** The profile an operation saves, if it saves one: under the same name, with the history
      grown as it may. */
  lemma StepSavesItsOwn(games: Games, op: Op)
    requires Kept(games)
    ensures Next(games, op) == games
            || (&& op.id in games
                && op.id in Next(games, op)
                && Next(games, op) == games[op.id := Next(games, op)[op.id]]
                && Next(games, op)[op.id].content.id == op.id
                && Grows(games[op.id], Next(games, op)[op.id]))
  {
    hide Edited, FindSnapshot;
    if op.id in games {
      var p := games[op.id];
      assert WellKept(p, op.id);
      if op.Edits? {
        EditKeepsTheName(p.content, op.id, op.edit, op.actor, op.clock);
      } else if op.RollsBack? {
        FoundSnapshotIsFiled(p.history, op.version);
      }
    }
  }

  lemma EditKeepsTheName(c: Content, id: string, e: Edit, actor: string, t: Clock)
    ensures Edited(c, id, e, actor, t).id == c.id
  {
  }

  lemma GrowthKeeps(before: Profile, after: Profile, id: string)
    requires WellKept(before, id) && Grows(before, after) && after.content.id == id
    ensures WellKept(after, id)
  {
    if after.history != before.history {
      forall i | 0 <= i < |after.history|
        ensures after.history[i].version == i + 1 && OwnSnapshot(after.history[i].snapshot, id)
      {
        if i < |before.history| {
          assert after.history[i] == after.history[..|before.history|][i];
        }
      }
    }
  }

  lemma StepKeeps(games: Games, op: Op)
    requires Kept(games)
    ensures Kept(Next(games, op))
    ensures Next(games, op).Keys == games.Keys
    ensures forall id :: id in games ==> Grows(games[id], Next(games, op)[id])
  {
    hide Next, WellKept, Grows;
    StepSavesItsOwn(games, op);
    Unchanged();
    if Next(games, op) != games {
      GrowthKeeps(games[op.id], Next(games, op)[op.id], op.id);
    }
  }

  lemma Unchanged()
    ensures forall p: Profile :: Grows(p, p)
  {
  }

  lemma {:induction false} RunKeeps(games: Games, ops: seq<Op>)
    requires Kept(games)
    ensures Kept(Run(games, ops)) && Run(games, ops).Keys == games.Keys
    decreases |ops|
  {
    hide Next, Kept;
    if ops != [] {
      StepKeeps(games, ops[0]);
      RunKeeps(Next(games, ops[0]), ops[1..]);
    }
  }

  /** The history is append-only, and its versions are 1 to n. */
  lemma {:induction false} HistoryIsAppendOnly(games: Games, ops: seq<Op>, id: string)
    requires Kept(games) && id in games
    ensures id in Run(games, ops)
    ensures games[id].history <= Run(games, ops)[id].history
    ensures var h := Run(games, ops)[id].history; forall i :: 0 <= i < |h| ==> h[i].version == i + 1
    decreases |ops|
  {
    hide Next;
    if ops == [] {
      assert WellKept(games[id], id);
    } else {
      StepKeeps(games, ops[0]);
      HistoryIsAppendOnly(Next(games, ops[0]), ops[1..], id);
    }
  }

  /** In a well-numbered history there is one entry to find, and it is where its number says. */
  lemma {:induction false} FindsItsVersion(history: seq<Entry>, from: int, version: int)
    requires forall i :: 0 <= i < |history| ==> history[i].version == from + i
    ensures FindSnapshot(history, version) ==
            if from <= version < from + |history| then history[version - from].snapshot else Missing
    decreases |history|
  {
    if history != [] {
      FindsItsVersion(history[1..], from + 1, version);
    }
  }

  lemma {:induction false} RunInTwo(games: Games, first: seq<Op>, second: seq<Op>)
    ensures Run(games, first + second) == Run(Run(games, first), second)
    decreases |first|
  {
    hide Next;
    if first == [] {
      assert first + second == second;
    } else {
      assert (first + second)[1..] == first[1..] + second;
      RunInTwo(Next(games, first[0]), first[1..], second);
    }
  }

  /** The snapshot filed when a version was saved is still there at the end of the run. */
  lemma SnapshotStays(games: Games, op: Op, rest: seq<Op>, id: string)
    requires Kept(games) && id in games
    requires id in Next(games, op) && |Next(games, op)[id].history| == |games[id].history| + 1
    ensures var end := Run(Next(games, op), rest);
            && Kept(end) && id in end && |end[id].history| > |games[id].history|
            && (var s := end[id].history[|games[id].history|].snapshot; s == Missing || s == Json(games[id]))
  {
    hide Next, WellKept;
    StepKeeps(games, op);
    var after := Next(games, op);
    RunKeeps(after, rest);
    HistoryIsAppendOnly(after, rest, id);
  }

  /** Rollback fidelity. Take any run, and any operation in it that gave a game its version v.
      At the end of the run, if version v carries a snapshot, rolling back to it succeeds and
      leaves the content the game had just before that operation, with the history longer by
      one entry. */
  lemma RollbackRestores(games: Games, first: seq<Op>, op: Op, rest: seq<Op>, id: string,
                         actor: string, t: Clock)
    requires Kept(games) && id in games
    requires id in Run(games, first)
    requires var before := Run(games, first);
             id in Next(before, op) && |Next(before, op)[id].history| == |before[id].history| + 1
    ensures var before := Run(games, first)[id];
            var v := |before.history| + 1;
            var end := Run(games, first + [op] + rest);
            && id in end && v <= |end[id].history|
            && (var (back, outcome) := RollbackStep(end, id, v, actor, t, NO_FAULTS);
                if end[id].history[v - 1].snapshot == Missing then outcome == NoSnapshot && back == end
                else && outcome == Saved && id in back && back == end[id := back[id]]
                     && back[id].content == before.content
                     && back[id].history[..|end[id].history|] == end[id].history
                     && |back[id].history| == |end[id].history| + 1)
  {
    hide Next, Kept, FindSnapshot;
    var before := Run(games, first);
    RunKeeps(games, first);
    SnapshotStays(before, op, rest, id);
    RunInTwo(games, first + [op], rest);
    RunInTwo(games, first, [op]);
    OneStep(before, op);
    var end := Run(games, first + [op] + rest);
    Versions(end, id);
    FindsItsVersion(end[id].history, 1, |before[id].history| + 1);
    Named(before, id);
  }

  lemma OneStep(games: Games, op: Op)
    ensures Run(games, [op]) == Next(games, op)
  {
    assert [op][1..] == [];
  }

  lemma Versions(games: Games, id: string)
    requires Kept(games) && id in games
    ensures forall i :: 0 <= i < |games[id].history| ==> games[id].history[i].version == 1 + i
  {
    assert WellKept(games[id], id);
  }

  lemma Named(games: Games, id: string)
    requires Kept(games) && id in games
    ensures games[id].content.id == id
  {
    assert WellKept(games[id], id);
  }

  /** An edit that stored its snapshot is undone by rolling back to the version it made; a
      rollback and a promotion file none, so they cannot be undone this way. */
  lemma OnlyEditsCanBeUndone(games: Games, op: Op)
    requires Kept(games) && op.id in games
    requires op.id in Next(games, op) && |Next(games, op)[op.id].history| == |games[op.id].history| + 1
    ensures Next(games, op)[op.id].history[|games[op.id].history|].snapshot != Missing <==>
            op.Edits? && !op.faults.rereadFails
  {
    hide Edited, FindSnapshot;
    assert WellKept(games[op.id], op.id);
    if op.Edits? {
      EditKeepsTheName(games[op.id].content, op.id, op.edit, op.actor, op.clock);
    } else if op.RollsBack? {
      FoundSnapshotIsFiled(games[op.id].history, op.version);
    }
  }

  /** A saved policy is what the rules rebuilt after it enforce for that domain, and no other,
      where no other game lists the domain: exactly while game and domain are both enabled. */
  lemma SavedPolicyIsEnforced(games: Games, id: string, hostname: string, policy: string, category: string, enabled: bool,
                              actor: string, t: Clock, f: Faults)
    requires Kept(games) && policy != ""
    requires forall other :: other in games && other != id ==> NormalizeDomain(hostname) !in games[other].content.domains
    ensures var host := NormalizeDomain(hostname);
            var (next, outcome) := EditStep(games, id, SetsDomain(hostname, policy, category, enabled), actor, t, f);
            outcome == Saved ==>
              && var on := games[id].content.enabled && enabled;
                 && (host in RulesOf(next).proxied <==> on && ToLower(policy) == "proxy")
                 && (host in RulesOf(next).blocked <==> on && ToLower(policy) == "block")
                 && (host in RulesOf(next).direct <==> on && ToLower(policy) == "direct")
  {
    hide Edited, NormalizeDomain, HostsWith, ToLower;
    var host := NormalizeDomain(hostname);
    if id in games {
      var e := SetsDomain(hostname, policy, category, enabled);
      var next := EditStep(games, id, e, actor, t, f).0;
      Named(games, id);
      SavedDomain(games[id].content, id, hostname, policy, category, enabled, actor, t);
      EditKeepsTheName(games[id].content, id, e, actor, t);
      if id in next && (forall other :: other in next && other != id ==> host !in next[other].content.domains) {
        OnlyLister(next, id, host);
      }
    }
  }

  lemma SavedDomain(c: Content, id: string, hostname: string, policy: string, category: string, enabled: bool,
                    actor: string, t: Clock)
    requires policy != ""
    ensures var n := Edited(c, id, SetsDomain(hostname, policy, category, enabled), actor, t);
            && n.enabled == c.enabled && NormalizeDomain(hostname) in n.domains
            && n.domains[NormalizeDomain(hostname)].enabled == enabled && n.domains[NormalizeDomain(hostname)].policy == policy
  {
    hide NormalizeDomain;
  }

  lemma OnlyLister(games: Games, id: string, host: string)
    requires id in games && forall other :: other in games && other != id ==> host !in games[other].content.domains
    ensures forall policy :: host in HostsWith(games, policy) <==> Enforces(games[id], host, policy)
  {
    hide ToLower;
  }

  // ----- what each edit does, field by field

  /** One trailing dot goes, with the white space around the name and the case of its letters. A
      name that has no other is stored under itself. */
  lemma NormalizedNames(pre: string, name: string, post: string)
    requires AllSpace(pre) && AllSpace(post) && Trimmed(name)
    ensures name == "" || name[|name| - 1] != '.' ==>
              NormalizeDomain(pre + name + post) == ToLower(name) == NormalizeDomain(ToLower(name))
    ensures name != "" && name[|name| - 1] == '.' ==> NormalizeDomain(pre + name + post) == ToLower(name[..|name| - 1])
  {
    hide TrimSpace;
    PaddingIsDropped(pre, name, post);
    LowerCaseIs(name);
    var lower := ToLower(name);
    assert Trimmed(lower);
    PaddingIsDropped("", lower, "");
    assert "" + lower + "" == lower;
  }

  predicate SameButDomains(c: Content, n: Content) {
    && n.id == c.id && n.name == c.name && n.publisher == c.publisher && n.enabled == c.enabled
    && n.preferredNode == c.preferredNode && n.settings == c.settings && n.createdAt == c.createdAt
  }

  /** An edit of one domain touches no other domain and no other field of the profile. */
  lemma EditTouchesOneDomain(c: Content, id: string, e: Edit, actor: string, t: Clock, other: string)
    requires !e.SetsCategory? && other != NormalizeDomain(e.hostname)
    ensures var n := Edited(c, id, e, actor, t);
            && SameButDomains(c, n) && n.dnsPolicies == c.dnsPolicies
            && (other in n.domains <==> other in c.domains)
            && (other in c.domains ==> n.domains[other] == c.domains[other])
  {
    hide NormalizeDomain;
  }

  lemma AddedDomainIs(c: Content, id: string, hostname: string, category: string, policy: string, actor: string, t: Clock)
    ensures var host := NormalizeDomain(hostname);
            var n := Edited(c, id, AddsDomain(hostname, category, policy), actor, t);
            && host in n.domains
            && var d := n.domains[host];
               && d.hostname == host && d.gameID == id && d.publisher == c.publisher
               && d.category == category && d.policy == policy && d.enabled
               && d.confidence == 100 && d.status == "confirmed" && d.evidence == ["Manually added by " + actor]
               && d.firstSeen == d.lastSeen == d.updatedAt == t.edit && d.observations == 1
               && d.resolvedIPs == [] && d.ttl == 0 && d.createdBy == actor
  {
    hide NormalizeDomain;
  }

  lemma RemovedDomainIsGone(c: Content, id: string, hostname: string, actor: string, t: Clock)
    ensures NormalizeDomain(hostname) !in Edited(c, id, RemovesDomain(hostname), actor, t).domains
  {
    hide NormalizeDomain;
  }

  /** A setting changes the flag, whatever of policy and category is not blank, and the two times,
      and adds a line of evidence; the rest of a known domain stays, and an unknown one starts as a
      confirmed one of this game that was never observed. */
  lemma SetDomainIs(c: Content, id: string, hostname: string, policy: string, category: string, enabled: bool, actor: string, t: Clock)
    ensures var host := NormalizeDomain(hostname);
            var n := Edited(c, id, SetsDomain(hostname, policy, category, enabled), actor, t);
            && host in n.domains
            && var d := n.domains[host];
               && d.enabled == enabled && d.updatedAt == d.lastSeen == t.edit
               && (policy != "" ==> d.policy == policy) && (category != "" ==> d.category == category)
               && (host in c.domains ==>
                     var o := c.domains[host];
                     && (policy == "" ==> d.policy == o.policy) && (category == "" ==> d.category == o.category)
                     && |d.evidence| == |o.evidence| + 1 && o.evidence <= d.evidence
                     && d.hostname == o.hostname && d.gameID == o.gameID && d.publisher == o.publisher
                     && d.confidence == o.confidence && d.status == o.status && d.firstSeen == o.firstSeen
                     && d.observations == o.observations && d.resolvedIPs == o.resolvedIPs && d.ttl == o.ttl
                     && d.createdBy == o.createdBy)
               && (host !in c.domains ==>
                     && (policy == "" ==> d.policy == "") && (category == "" ==> d.category == "") && |d.evidence| == 1
                     && d.hostname == host && d.gameID == id && d.publisher == c.publisher && d.confidence == 100
                     && d.status == "confirmed" && d.firstSeen == t.edit && d.observations == 0 && d.createdBy == actor)
  {
    hide NormalizeDomain;
  }

  /** A category's policy: its default always; of the domains, if propagated, exactly those of the
      category, ASCII case apart, and of those exactly the policy and the time. */
  lemma CategoryEditIs(c: Content, id: string, category: string, policy: string, propagate: bool, actor: string, t: Clock, other: string)
    requires other != category
    ensures var n := Edited(c, id, SetsCategory(category, policy, propagate), actor, t);
            && SameButDomains(c, n)
            && category in n.dnsPolicies && n.dnsPolicies[category] == policy
            && (other in n.dnsPolicies <==> other in c.dnsPolicies)
            && (other in c.dnsPolicies ==> n.dnsPolicies[other] == c.dnsPolicies[other])
            && n.domains.Keys == c.domains.Keys
            && forall host :: host in c.domains ==>
                 var o, d := c.domains[host], n.domains[host];
                 if propagate && ToLower(o.category) == ToLower(category)
                 then d.policy == policy && d.updatedAt == t.edit && d.(policy := o.policy, updatedAt := o.updatedAt) == o
                 else d == o
  {
    hide ToLower;
  }

  /** What was added is enforced under its policy, what was removed under none, where no other
      game lists the domain and the rules are rebuilt. */
  lemma AddedAndRemovedAreEnforced(games: Games, id: string, e: Edit, actor: string, t: Clock, f: Faults)
    requires Kept(games) && (e.AddsDomain? || e.RemovesDomain?)
    requires forall other :: other in games && other != id ==> NormalizeDomain(e.hostname) !in games[other].content.domains
    ensures var host := NormalizeDomain(e.hostname);
            var (next, outcome) := EditStep(games, id, e, actor, t, f);
            outcome == Saved ==>
              && var on := e.AddsDomain? && games[id].content.enabled;
                 && (host in RulesOf(next).proxied <==> on && ToLower(e.policy) == "proxy")
                 && (host in RulesOf(next).blocked <==> on && ToLower(e.policy) == "block")
                 && (host in RulesOf(next).direct <==> on && ToLower(e.policy) == "direct")
  {
    hide Edited, NormalizeDomain, HostsWith, ToLower;
    var host := NormalizeDomain(e.hostname);
    if id in games {
      var next := EditStep(games, id, e, actor, t, f).0;
      var c := games[id].content;
      Named(games, id);
      EditKeepsTheName(c, id, e, actor, t);
      if e.AddsDomain? { AddedDomainIs(c, id, e.hostname, e.category, e.policy, actor, t); }
      else { RemovedDomainIsGone(c, id, e.hostname, actor, t); }
      EditKeepsTheSwitch(c, id, e, actor, t);
      if id in next && (forall other :: other in next && other != id ==> host !in next[other].content.domains) {
        OnlyLister(next, id, host);
      }
    }
  }

  lemma EditKeepsTheSwitch(c: Content, id: string, e: Edit, actor: string, t: Clock)
    ensures Edited(c, id, e, actor, t).enabled == c.enabled
  {
  }

  /** A new version is signed: who made it, when, and what; and the profile carries the time of its
      save. */
  lemma NewVersionIsSigned(games: Games, op: Op)
    requires Kept(games) && op.id in games && op.id in Next(games, op) && Next(games, op) != games && !op.Reroutes?
    ensures var after := Next(games, op)[op.id];
            && after.updatedAt == op.clock.save && after.history != []
            && var e := after.history[|after.history| - 1];
               && e.at == op.clock.entry && e.actor == op.actor
               && (op.Edits? ==> e.summary == "Profile updated by " + op.actor)
               && (op.RollsBack? ==> e.summary == "Rolled back to version " + PrintInt(op.version))
  {
    hide Edited, FindSnapshot, PrintInt;
    StepSavesItsOwn(games, op);
    assert WellKept(games[op.id], op.id);
    if op.Edits? {
      EditKeepsTheName(games[op.id].content, op.id, op.edit, op.actor, op.clock);
    } else if op.RollsBack? {
      FoundSnapshotIsFiled(games[op.id].history, op.version);
    }
  }

  /** The intelligence record of a saved domain is the profile's record of it, but for the time it
      was written, for every name that normalises to itself; no other record changes. */
  lemma IntelMirrorsTheProfile(intel: map<string, Domain>, d: Domain, at: Time, other: string)
    requires NormalizeDomain(d.hostname) == d.hostname && other != d.hostname
    ensures var n := Indexed(intel, d, at);
            && d.hostname in n && n[d.hostname] == d.(updatedAt := at)
            && (other in n <==> other in intel) && (other in intel ==> n[other] == intel[other])
  {
    hide NormalizeDomain;
  }

  /** The workers change one thing each: a promotion one domain, a reroute the preferred node. */
  lemma WorkersTouchOneThing(games: Games, op: Op)
    requires Kept(games) && op.id in games && op.id in Next(games, op) && (op.Promotes? || op.Reroutes?)
    ensures var before, after := games[op.id].content, Next(games, op)[op.id].content;
            && (op.Promotes? ==> SameButDomains(before, after) && after.dnsPolicies == before.dnsPolicies
                                 && after.domains - {op.host} == before.domains - {op.host}
                                 && (Next(games, op) != games ==> op.host in after.domains && after.domains[op.host] == op.domain))
            && (op.Reroutes? ==> after.(preferredNode := before.preferredNode) == before
                                 && (Next(games, op) != games ==> after.preferredNode == op.node))
  {
    hide Edited;
    Named(games, op.id);
  }

  /** A save that succeeds is logged once, under its actor and its game, unless logging fails; one
      that does not is not logged. */
  lemma SavesAreLogged(audit: map<Time, Audit>, c: Content, version: int, actor: string, saved: Outcome, t: Clock, f: Faults, other: Time)
    requires other != t.audit
    ensures var n, r := Logged(audit, SavedAudit(c, actor), saved, t, f),
                        Logged(audit, RollbackAudit(c.name, c.id, version, actor), saved, t, f);
            && (other in n <==> other in audit) && (other in audit ==> n[other] == audit[other])
            && (saved == Saved && !f.auditFails ==>
                  && t.audit in n && n[t.audit].actor == actor && n[t.audit].target == c.id
                  && n[t.audit].action == "game_profile_saved"
                  && t.audit in r && r[t.audit].actor == actor && r[t.audit].target == c.id
                  && r[t.audit].action == "game_profile_rollback")
            && (saved != Saved || f.auditFails ==> n == audit == r)
  {
    hide PrintInt;
  }

  /** An operation that cannot load its profile, finds nothing to put back, or cannot save, says so
      and changes no profile. */
  lemma FailuresLeaveTheProfiles(games: Games, id: string, e: Edit, version: int, actor: string, t: Clock, f: Faults)
    ensures f.loadFails || id !in games ==>
              EditStep(games, id, e, actor, t, f) == RollbackStep(games, id, version, actor, t, f) == (games, NotFound)
    ensures !f.loadFails && id in games && f.saveFails ==> EditStep(games, id, e, actor, t, f) == (games, NotSaved)
    ensures !f.loadFails && id in games && !f.saveFails ==> EditStep(games, id, e, actor, t, f).1 == Saved
    ensures !f.loadFails && id in games ==>
              match FindSnapshot(games[id].history, version)
              case Missing => RollbackStep(games, id, version, actor, t, f) == (games, NoSnapshot)
              case Garbled => RollbackStep(games, id, version, actor, t, f) == (games, Corrupt)
              case Json(_) => f.saveFails ==> RollbackStep(games, id, version, actor, t, f) == (games, NotSaved)
  {
    hide Edited, FindSnapshot, PrintInt;
  }
}
