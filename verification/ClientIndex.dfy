/** The resolver's in-memory account index (internal/service/client_service.go): five maps
    of shared record pointers, kept up to date one account at a time, against the full
    scan they replace (FindClientByIP in internal/database/client_repo.go). */
module ClientIndex {
  import opened Prelude

  /** The stored fields the index looks at. */
  datatype Record = Record(
    id: string, token: string, uuid: string, enabled: bool, expiresAt: Time, allowedIPs: seq<string>)

  /** Enabled and not past its expiry: what filing and the scan ask. Time 0 is no expiry. */
  predicate Servable(r: Record, now: Time) {
    r.enabled && (r.expiresAt == 0 || now <= r.expiresAt)
  }

  /** Enabled and strictly before its expiry: what a lookup asks. */
  predicate Active(r: Record, now: Time) {
    r.enabled && (r.expiresAt == 0 || now < r.expiresAt)
  }

  class Client {
    const record: Record

    constructor (record: Record)
      ensures this.record == record
    {
      this.record := record;
    }
  }

  /** A record pointer and the instant it was filed. */
  datatype Filing = Filing(client: Client, at: Time)

  // ----- what the address lists should hold

  /** One entry for every time the address is listed. */
  function Copies(c: Client, ips: seq<string>, ip: string): seq<Client> {
    if ips == [] then []
    else Copies(c, ips[..|ips| - 1], ip) + (if ips[|ips| - 1] == ip then [c] else [])
  }

  function BoundBy(f: Filing, ip: string): seq<Client> {
    if ip != "" && Servable(f.client.record, f.at) then Copies(f.client, f.client.record.allowedIPs, ip) else []
  }

  /** The accounts that were servable when filed and bind the address, in filing order. */
  function Bound(filed: seq<Filing>, ip: string): seq<Client> {
    if filed == [] then [] else Bound(filed[..|filed| - 1], ip) + BoundBy(filed[|filed| - 1], ip)
  }

  function Without(list: seq<Client>, id: string): seq<Client> {
    if list == [] then []
    else Without(list[..|list| - 1], id)
         + (if list[|list| - 1].record.id != id then [list[|list| - 1]] else [])
  }

  function Unfiled(filed: seq<Filing>, id: string): seq<Filing> {
    if filed == [] then []
    else Unfiled(filed[..|filed| - 1], id)
         + (if filed[|filed| - 1].client.record.id != id then [filed[|filed| - 1]] else [])
  }

  lemma {:induction false} CopiesMembers(c: Client, ips: seq<string>, ip: string)
    ensures forall m :: m in Copies(c, ips, ip) ==> m == c
    ensures c in Copies(c, ips, ip) <==> ip in ips
  {
    if ips != [] {
      CopiesMembers(c, ips[..|ips| - 1], ip);
      assert ip in ips <==> ip in ips[..|ips| - 1] || ip == ips[|ips| - 1];
    }
  }

  /** Membership, which is all a caller may rely on: the filed accounts that bind the address
      and, when filed, were enabled and not past their expiry. */
  lemma {:induction false} BoundMembers(filed: seq<Filing>, ip: string, c: Client)
    ensures c in Bound(filed, ip) <==>
            exists f :: f in filed && f.client == c && ip != "" && ip in c.record.allowedIPs
                        && c.record.enabled && (c.record.expiresAt == 0 || f.at <= c.record.expiresAt)
  {
    if filed != [] {
      var init, last := filed[..|filed| - 1], filed[|filed| - 1];
      BoundMembers(init, ip, c);
      CopiesMembers(last.client, last.client.record.allowedIPs, ip);
      assert forall f :: f in filed <==> f in init || f == last;
    }
  }

  lemma InitMembers<T>(list: seq<T>)
    requires list != []
    ensures list[|list| - 1] in list
    ensures forall m :: m in list[..|list| - 1] ==> m in list
  {
  }

  lemma {:induction false} WithoutConcat(a: seq<Client>, b: seq<Client>, id: string)
    ensures Without(a + b, id) == Without(a, id) + Without(b, id)
  {
    if b == [] {
      assert a + b == a;
    } else {
      WithoutConcat(a, b[..|b| - 1], id);
      assert (a + b)[..|a + b| - 1] == a + b[..|b| - 1];
    }
  }

  lemma {:induction false} WithoutMembers(list: seq<Client>, id: string)
    ensures forall m :: m in Without(list, id) ==> m in list && m.record.id != id
    ensures forall m :: m in list && m.record.id != id ==> m in Without(list, id)
  {
    if list != [] { WithoutMembers(list[..|list| - 1], id); }
  }

  lemma {:induction false} WithoutNothing(list: seq<Client>, id: string)
    requires forall m :: m in list ==> m.record.id != id
    ensures Without(list, id) == list
  {
    if list != [] {
      var init := list[..|list| - 1];
      InitMembers(list);
      WithoutNothing(init, id);
      assert list == init + [list[|list| - 1]];
    }
  }

  lemma {:induction false} WithoutEverything(list: seq<Client>, id: string)
    requires forall m :: m in list ==> m.record.id == id
    ensures Without(list, id) == []
  {
    if list != [] {
      InitMembers(list);
      WithoutEverything(list[..|list| - 1], id);
    }
  }

  lemma {:induction false} WithoutKeepsTheLast(list: seq<Client>, id: string)
    requires list != [] && list[|list| - 1].record.id != id
    ensures Without(list, id) != [] && Without(list, id)[|Without(list, id)| - 1] == list[|list| - 1]
  {
  }

  lemma BoundAppend(filed: seq<Filing>, f: Filing, ip: string)
    ensures Bound(filed + [f], ip) == Bound(filed, ip) + BoundBy(f, ip)
  {
    assert (filed + [f])[..|filed|] == filed;
  }

  /** Taking an account off every list is the same as never having filed it. */
  lemma {:induction false} BoundUnfiled(filed: seq<Filing>, id: string, ip: string)
    ensures Without(Bound(filed, ip), id) == Bound(Unfiled(filed, id), ip)
    decreases |filed|
  {
    hide Without, BoundBy;
    if filed == [] {
      WithoutNothing([], id);
    } else {
      var init, last := filed[..|filed| - 1], filed[|filed| - 1];
      BoundUnfiled(init, id, ip);
      WithoutConcat(Bound(init, ip), BoundBy(last, ip), id);
      BoundByMembers(last, ip);
      BoundAppend(Unfiled(init, id), last, ip);
      if last.client.record.id == id {
        WithoutEverything(BoundBy(last, ip), id);
        assert Unfiled(filed, id) == Unfiled(init, id);
      } else {
        WithoutNothing(BoundBy(last, ip), id);
      }
    }
  }

  lemma BoundByMembers(f: Filing, ip: string)
    ensures forall m :: m in BoundBy(f, ip) ==> m == f.client
  {
    CopiesMembers(f.client, f.client.record.allowedIPs, ip);
  }

  lemma {:induction false} UnfiledMembers(filed: seq<Filing>, id: string)
    ensures forall f :: f in Unfiled(filed, id) ==> f in filed && f.client.record.id != id
    ensures forall f :: f in filed && f.client.record.id != id ==> f in Unfiled(filed, id)
  {
    if filed != [] { UnfiledMembers(filed[..|filed| - 1], id); }
  }

  // ----- the lookup

  /** The last sharer filed if it is active, otherwise the first active sharer, otherwise
      the last sharer all the same. */
  function Pick(list: seq<Client>, now: Time): Client
    requires list != []
  {
    var last := list[|list| - 1];
    if Active(last.record, now) then last
    else if exists c :: c in list && Active(c.record, now) then FirstActive(list, now)
    else last
  }

  function FirstActive(list: seq<Client>, now: Time): Client
    requires exists c :: c in list && Active(c.record, now)
  {
    if Active(list[0].record, now) then list[0] else FirstActive(list[1..], now)
  }

  /** An expired sharer never shadows an active one. */
  lemma {:induction false} FirstActiveIsActive(list: seq<Client>, now: Time)
    requires exists c :: c in list && Active(c.record, now)
    ensures var c := FirstActive(list, now); c in list && Active(c.record, now)
  {
    if !Active(list[0].record, now) {
      var c :| c in list && Active(c.record, now);
      assert c in list[1..];
      FirstActiveIsActive(list[1..], now);
    }
  }

  // ----- what the tables promise

  function Lookup(m: map<string, seq<Client>>, ip: string): seq<Client> {
    if ip in m then m[ip] else []
  }

  /** The two address tables have the same keys, no list is empty, and the single-account
      table names the last sharer. */
  predicate Tables(ipMap: map<string, Client>, ipClients: map<string, seq<Client>>) {
    && ipMap.Keys == ipClients.Keys && "" !in ipClients
    && forall ip :: ip in ipClients ==> ipClients[ip] != [] && ipMap[ip] == ipClients[ip][|ipClients[ip]| - 1]
  }

  /** Every address list is the one filing order gives. */
  ghost predicate ListsAgree(ipClients: map<string, seq<Client>>, filed: seq<Filing>) {
    forall ip :: Lookup(ipClients, ip) == Bound(filed, ip)
  }

  /** The id table holds the filed accounts, one record for each id. */
  ghost predicate Ids(idMap: map<string, Client>, filed: seq<Filing>) {
    && (forall f :: f in filed ==> f.client.record.id in idMap && idMap[f.client.record.id] == f.client)
    && (forall id :: id in idMap ==>
          id != "" && idMap[id].record.id == id && exists f :: f in filed && f.client == idMap[id])
  }

  /** No credential leads to a record that is no longer on file. */
  predicate OnFile(credentials: map<string, Client>, idMap: map<string, Client>) {
    forall t :: t in credentials ==>
      t != "" && credentials[t].record.id in idMap && idMap[credentials[t].record.id] == credentials[t]
  }

  predicate Tokens(tokenMap: map<string, Client>) {
    forall t :: t in tokenMap ==> tokenMap[t].record.token == t
  }

  predicate Uuids(uuidMap: map<string, Client>) {
    forall u :: u in uuidMap ==> uuidMap[u].record.uuid == u
  }

  lemma IdsAppend(idMap: map<string, Client>, filed: seq<Filing>, f: Filing)
    requires Ids(idMap, filed) && f.client.record.id !in idMap && f.client.record.id != ""
    ensures Ids(idMap[f.client.record.id := f.client], filed + [f])
  {
    assert forall g :: g in filed + [f] <==> g in filed || g == f;
    assert f in filed + [f];
  }

  lemma OnFileAdd(credentials: map<string, Client>, idMap: map<string, Client>, key: string, c: Client)
    requires OnFile(credentials, idMap) && c.record.id !in idMap
    ensures OnFile(Credited(credentials, key, c), idMap[c.record.id := c])
  {
  }

  function Credited(m: map<string, Client>, key: string, c: Client): map<string, Client> {
    if key == "" then m else m[key := c]
  }

  lemma CredentialsAdd(tokenMap: map<string, Client>, uuidMap: map<string, Client>, idMap: map<string, Client>, c: Client)
    requires OnFile(tokenMap, idMap) && Tokens(tokenMap) && OnFile(uuidMap, idMap) && Uuids(uuidMap)
    requires c.record.id !in idMap
    ensures var n := idMap[c.record.id := c];
            && OnFile(Credited(tokenMap, c.record.token, c), n) && Tokens(Credited(tokenMap, c.record.token, c))
            && OnFile(Credited(uuidMap, c.record.uuid, c), n) && Uuids(Credited(uuidMap, c.record.uuid, c))
  {
    hide OnFile;
    OnFileAdd(tokenMap, idMap, c.record.token, c);
    OnFileAdd(uuidMap, idMap, c.record.uuid, c);
  }

  lemma IdsRemove(idMap: map<string, Client>, filed: seq<Filing>, id: string)
    requires Ids(idMap, filed)
    ensures Ids(idMap - {id}, Unfiled(filed, id))
  {
    UnfiledMembers(filed, id);
  }

  // ----- adding an account to the address tables

  /** The single-account table and the lists. */
  datatype Addresses = Addresses(ipMap: map<string, Client>, ipClients: map<string, seq<Client>>)

  function FiledAt(t: Addresses, c: Client, ip: string): Addresses {
    if ip == "" then t
    else Addresses(t.ipMap[ip := c], t.ipClients[ip := Lookup(t.ipClients, ip) + [c]])
  }

  function FiledAll(t: Addresses, c: Client, ips: seq<string>): Addresses {
    if ips == [] then t else FiledAt(FiledAll(t, c, ips[..|ips| - 1]), c, ips[|ips| - 1])
  }

  /** Every address but the blank one gained one entry of c for each time it is listed. */
  ghost predicate Appended(m0: map<string, seq<Client>>, m1: map<string, seq<Client>>, c: Client, ips: seq<string>) {
    forall ip :: Lookup(m1, ip) == Lookup(m0, ip) + (if ip == "" then [] else Copies(c, ips, ip))
  }

  lemma ListGrows(t: Addresses, c: Client, x: string)
    requires Tables(t.ipMap, t.ipClients)
    ensures var r := FiledAt(t, c, x);
            && Tables(r.ipMap, r.ipClients)
            && forall ip :: Lookup(r.ipClients, ip) == Lookup(t.ipClients, ip) + (if ip == x && ip != "" then [c] else [])
  {
  }

  lemma {:induction false} ListsGrow(t: Addresses, c: Client, ips: seq<string>)
    requires Tables(t.ipMap, t.ipClients)
    ensures var r := FiledAll(t, c, ips);
            Tables(r.ipMap, r.ipClients) && Appended(t.ipClients, r.ipClients, c, ips)
  {
    hide Tables, FiledAt;
    if ips != [] {
      hide Lookup;
      ListsGrow(t, c, ips[..|ips| - 1]);
      ListGrows(FiledAll(t, c, ips[..|ips| - 1]), c, ips[|ips| - 1]);
    }
  }

  /** Filing one more account appends its own entries, if it is servable, to every list. */
  lemma ListsAppend(m0: map<string, seq<Client>>, m1: map<string, seq<Client>>, filed: seq<Filing>, f: Filing)
    requires ListsAgree(m0, filed)
    requires if Servable(f.client.record, f.at) then Appended(m0, m1, f.client, f.client.record.allowedIPs) else m0 == m1
    ensures ListsAgree(m1, filed + [f])
  {
    hide Copies, Servable;
    forall ip ensures Lookup(m1, ip) == Bound(filed + [f], ip) {
      BoundAppend(filed, f, ip);
    }
  }

  /** A map without one entry, if the entry still points at this very record. */
  function Dropped(m: map<string, Client>, key: string, c: Client): map<string, Client> {
    if key in m && m[key] == c then m - {key} else m
  }

  lemma OnFileDrop(credentials: map<string, Client>, idMap: map<string, Client>, key: string, c: Client)
    requires OnFile(credentials, idMap) && c.record.id in idMap && idMap[c.record.id] == c
    requires forall t :: t in credentials && credentials[t] == c ==> t == key
    ensures OnFile(Dropped(credentials, key, c), idMap - {c.record.id})
  {
  }

  /** The listed addresses lost every entry of the account. */
  ghost predicate Removed(m0: map<string, seq<Client>>, m1: map<string, seq<Client>>, id: string, ips: seq<string>) {
    forall ip :: Lookup(m1, ip) == if ip in ips then Without(Lookup(m0, ip), id) else Lookup(m0, ip)
  }

  ghost predicate RemovedOne(m0: map<string, seq<Client>>, m1: map<string, seq<Client>>, id: string, x: string) {
    forall ip :: Lookup(m1, ip) == if ip == x then Without(Lookup(m0, ip), id) else Lookup(m0, ip)
  }

  lemma RemovedStep(m0: map<string, seq<Client>>, m1: map<string, seq<Client>>, m2: map<string, seq<Client>>,
                    id: string, ips: seq<string>, i: nat)
    requires i < |ips|
    requires Removed(m0, m1, id, ips[..i]) && RemovedOne(m1, m2, id, ips[i])
    ensures Removed(m0, m2, id, ips[..i + 1])
  {
    hide Lookup, Without;
    forall ip ensures Lookup(m2, ip) == if ip in ips[..i + 1] then Without(Lookup(m0, ip), id) else Lookup(m0, ip) {
      assert ip in ips[..i + 1] <==> ip in ips[..i] || ip == ips[i];
      var list := Lookup(m0, ip);
      WithoutMembers(list, id);
      WithoutNothing(Without(list, id), id);
    }
  }

  /** On every list, the account's entries are this very record. */
  ghost predicate SoleRecord(m: map<string, seq<Client>>, c: Client) {
    forall ip, x :: x in Lookup(m, ip) && x.record.id == c.record.id ==> x == c
  }

  // ----- taking an account off the address tables

  /** One address loses an account; the single-account table follows where it named it. */
  function UnfiledAt(t: Addresses, c: Client, ip: string): Addresses {
    if ip !in t.ipClients then Addresses(Dropped(t.ipMap, ip, c), t.ipClients)
    else
      var left := Without(t.ipClients[ip], c.record.id);
      if left == [] then Addresses(Dropped(t.ipMap, ip, c), t.ipClients - {ip})
      else Addresses(if ip in t.ipMap && t.ipMap[ip] == c then t.ipMap[ip := left[|left| - 1]] else t.ipMap,
                     t.ipClients[ip := left])
  }

  function UnfiledAll(t: Addresses, c: Client, ips: seq<string>): Addresses {
    if ips == [] then t else UnfiledAt(UnfiledAll(t, c, ips[..|ips| - 1]), c, ips[|ips| - 1])
  }

  /** For a record on file, the tables keep their promises and the address just loses it. The
      last branch of deindexLocked then finds nothing to delete. */
  lemma ListShrinks(t: Addresses, c: Client, ip: string)
    requires Tables(t.ipMap, t.ipClients) && SoleRecord(t.ipClients, c)
    ensures var r := UnfiledAt(t, c, ip);
            && Tables(r.ipMap, r.ipClients) && RemovedOne(t.ipClients, r.ipClients, c.record.id, ip)
            && (ip !in t.ipClients ==> r == t)
  {
    hide Without;
    if ip in t.ipClients {
      var list := t.ipClients[ip];
      assert list == Lookup(t.ipClients, ip) && list[|list| - 1] in list;
      WithoutMembers(list, c.record.id);
      if list[|list| - 1].record.id != c.record.id { WithoutKeepsTheLast(list, c.record.id); }
    } else {
      WithoutNothing([], c.record.id);
    }
  }

  lemma {:induction false} ListsShrink(t: Addresses, c: Client, ips: seq<string>)
    requires Tables(t.ipMap, t.ipClients) && SoleRecord(t.ipClients, c)
    ensures var r := UnfiledAll(t, c, ips);
            Tables(r.ipMap, r.ipClients) && SoleRecord(r.ipClients, c) && Removed(t.ipClients, r.ipClients, c.record.id, ips)
  {
    hide Tables, SoleRecord, RemovedOne, UnfiledAt;
    if ips != [] {
      var n := |ips| - 1;
      var mid := UnfiledAll(t, c, ips[..n]);
      var r := UnfiledAt(mid, c, ips[n]);
      ListsShrink(t, c, ips[..n]);
      ListShrinks(mid, c, ips[n]);
      RemovedStep(t.ipClients, mid.ipClients, r.ipClients, c.record.id, ips, n);
      SoleRecordStays(mid.ipClients, r.ipClients, c, ips[n]);
      assert ips[..n + 1] == ips;
    }
  }

  lemma SoleRecordStays(m0: map<string, seq<Client>>, m1: map<string, seq<Client>>, c: Client, x: string)
    requires SoleRecord(m0, c) && RemovedOne(m0, m1, c.record.id, x)
    ensures SoleRecord(m1, c)
  {
    hide Lookup;
    forall ip, e | e in Lookup(m1, ip) && e.record.id == c.record.id ensures e == c {
      WithoutMembers(Lookup(m0, ip), c.record.id);
      assert e in Lookup(m0, ip);
    }
  }

  lemma FiledRecordIsSole(m: map<string, seq<Client>>, idMap: map<string, Client>, filed: seq<Filing>, c: Client)
    requires Ids(idMap, filed) && ListsAgree(m, filed)
    requires c.record.id in idMap && idMap[c.record.id] == c
    ensures SoleRecord(m, c)
  {
    hide Lookup;
    forall ip, e | e in Lookup(m, ip) && e.record.id == c.record.id ensures e == c {
      assert Lookup(m, ip) == Bound(filed, ip);
      BoundMembers(filed, ip, e);
    }
  }

  lemma ListsRemove(m0: map<string, seq<Client>>, m1: map<string, seq<Client>>, filed: seq<Filing>, c: Client)
    requires ListsAgree(m0, filed) && SoleRecord(m0, c)
    requires Removed(m0, m1, c.record.id, c.record.allowedIPs)
    ensures ListsAgree(m1, Unfiled(filed, c.record.id))
  {
    hide Lookup;
    forall ip ensures Lookup(m1, ip) == Bound(Unfiled(filed, c.record.id), ip) {
      var list := Lookup(m0, ip);
      assert list == Bound(filed, ip);
      BoundUnfiled(filed, c.record.id, ip);
      if ip !in c.record.allowedIPs {
        forall e | e in list ensures e.record.id != c.record.id { BoundMembers(filed, ip, e); }
        WithoutNothing(list, c.record.id);
      }
    }
  }

  lemma CredentialsDrop(tokenMap: map<string, Client>, uuidMap: map<string, Client>, idMap: map<string, Client>, c: Client)
    requires OnFile(tokenMap, idMap) && Tokens(tokenMap) && OnFile(uuidMap, idMap) && Uuids(uuidMap)
    requires c.record.id in idMap && idMap[c.record.id] == c
    ensures var n := idMap - {c.record.id};
            && OnFile(Dropped(tokenMap, c.record.token, c), n) && Tokens(Dropped(tokenMap, c.record.token, c))
            && OnFile(Dropped(uuidMap, c.record.uuid, c), n) && Uuids(Dropped(uuidMap, c.record.uuid, c))
  {
    hide OnFile;
    OnFileDrop(tokenMap, idMap, c.record.token, c);
    OnFileDrop(uuidMap, idMap, c.record.uuid, c);
  }

  lemma AddressesDrop(t: Addresses, idMap: map<string, Client>, filed: seq<Filing>, c: Client)
    requires Tables(t.ipMap, t.ipClients) && ListsAgree(t.ipClients, filed) && Ids(idMap, filed)
    requires c.record.id in idMap && idMap[c.record.id] == c
    ensures var r := UnfiledAll(t, c, c.record.allowedIPs);
            Tables(r.ipMap, r.ipClients) && ListsAgree(r.ipClients, Unfiled(filed, c.record.id))
  {
    hide Tables, ListsAgree, Ids, SoleRecord, Removed, UnfiledAll;
    FiledRecordIsSole(t.ipClients, idMap, filed, c);
    ListsShrink(t, c, c.record.allowedIPs);
    ListsRemove(t.ipClients, UnfiledAll(t, c, c.record.allowedIPs).ipClients, filed, c);
  }

  // ----- the invariant of the five tables

  ghost predicate Consistent(idMap: map<string, Client>, tokenMap: map<string, Client>, uuidMap: map<string, Client>,
                             t: Addresses, filed: seq<Filing>) {
    && Ids(idMap, filed)
    && Tables(t.ipMap, t.ipClients) && ListsAgree(t.ipClients, filed)
    && OnFile(tokenMap, idMap) && Tokens(tokenMap)
    && OnFile(uuidMap, idMap) && Uuids(uuidMap)
  }

  /** The address tables once an account is filed. */
  function Bind(t: Addresses, c: Client, now: Time): Addresses {
    if Servable(c.record, now) then FiledAll(t, c, c.record.allowedIPs) else t
  }

  lemma FilingKeeps(idMap: map<string, Client>, tokenMap: map<string, Client>, uuidMap: map<string, Client>,
                    t: Addresses, filed: seq<Filing>, c: Client, now: Time)
    requires Consistent(idMap, tokenMap, uuidMap, t, filed) && c.record.id != "" && c.record.id !in idMap
    ensures Consistent(idMap[c.record.id := c], Credited(tokenMap, c.record.token, c), Credited(uuidMap, c.record.uuid, c),
                       Bind(t, c, now), filed + [Filing(c, now)])
  {
    hide Ids, Tables, ListsAgree, OnFile, Tokens, Uuids, Appended, FiledAll, Servable;
    IdsAppend(idMap, filed, Filing(c, now));
    CredentialsAdd(tokenMap, uuidMap, idMap, c);
    ListsGrow(t, c, c.record.allowedIPs);
    ListsAppend(t.ipClients, Bind(t, c, now).ipClients, filed, Filing(c, now));
  }

  lemma UnfilingKeeps(idMap: map<string, Client>, tokenMap: map<string, Client>, uuidMap: map<string, Client>,
                      t: Addresses, filed: seq<Filing>, c: Client)
    requires Consistent(idMap, tokenMap, uuidMap, t, filed)
    requires c.record.id in idMap && idMap[c.record.id] == c
    ensures Consistent(idMap - {c.record.id}, Dropped(tokenMap, c.record.token, c), Dropped(uuidMap, c.record.uuid, c),
                       UnfiledAll(t, c, c.record.allowedIPs), Unfiled(filed, c.record.id))
  {
    hide Ids, Tables, ListsAgree, OnFile, Tokens, Uuids, UnfiledAll;
    IdsRemove(idMap, filed, c.record.id);
    CredentialsDrop(tokenMap, uuidMap, idMap, c);
    AddressesDrop(t, idMap, filed, c);
  }

  lemma BlankIsNoKey(idMap: map<string, Client>, tokenMap: map<string, Client>, uuidMap: map<string, Client>,
                     t: Addresses, filed: seq<Filing>)
    requires Consistent(idMap, tokenMap, uuidMap, t, filed)
    ensures "" !in tokenMap && "" !in uuidMap
  {
  }

  class Index {
    var allowAll: bool
    var idMap: map<string, Client>
    var ipMap: map<string, Client>
    var ipClients: map<string, seq<Client>>
    var tokenMap: map<string, Client>
    var uuidMap: map<string, Client>
    /** The accounts on file, in the order they were last filed. */
    ghost var filed: seq<Filing>

    ghost predicate Valid()
      reads this
    { Consistent(idMap, tokenMap, uuidMap, AddressTables(), filed) }

    ghost function AddressTables(): Addresses
      reads this
    { Addresses(ipMap, ipClients) }

    constructor (allowAll: bool)
      ensures Valid() && filed == [] && this.allowAll == allowAll
    {
      this.allowAll := allowAll;
      idMap, ipMap, ipClients, tokenMap, uuidMap, filed := map[], map[], map[], map[], map[], [];
    }

    /** Files one account into every table. Only the address tables leave out the accounts
        that are disabled or past their expiry. The callers see to it that the id is not on
        file; otherwise the old record's credentials would stay behind. */
    method IndexLocked(c: Client?, now: Time)
      requires Valid()
      modifies this
      ensures allowAll == old(allowAll)
      ensures c == null || c.record.id == "" ==> unchanged(this)
      ensures c != null && c.record.id != "" ==>
                && filed == old(filed) + [Filing(c, now)]
                && idMap == old(idMap)[c.record.id := c]
                && tokenMap == Credited(old(tokenMap), c.record.token, c)
                && uuidMap == Credited(old(uuidMap), c.record.uuid, c)
                && AddressTables() == Bind(old(AddressTables()), c, now)
      ensures c == null || c.record.id !in old(idMap) ==> Valid()
    {
      hide Consistent, FiledAll;
      if c == null || c.record.id == "" { return; }
      var r := c.record;
      if r.id !in idMap { FilingKeeps(idMap, tokenMap, uuidMap, AddressTables(), filed, c, now); }
      idMap := idMap[r.id := c];
      if r.token != "" { tokenMap := tokenMap[r.token := c]; }
      if r.uuid != "" { uuidMap := uuidMap[r.uuid := c]; }
      filed := filed + [Filing(c, now)];
      if !r.enabled || (r.expiresAt != 0 && now > r.expiresAt) { return; }
      FileAddresses(c);
    }

    /** The address loop of indexLocked. */
    method FileAddresses(c: Client)
      modifies `ipMap, `ipClients
      ensures AddressTables() == FiledAll(old(AddressTables()), c, c.record.allowedIPs)
    {
      var ips := c.record.allowedIPs;
      for i := 0 to |ips|
        invariant AddressTables() == FiledAll(old(AddressTables()), c, ips[..i])
      {
        assert ips[..i + 1][..i] == ips[..i];
        if ips[i] != "" {
          ipMap := ipMap[ips[i] := c];
          ipClients := ipClients[ips[i] := Lookup(ipClients, ips[i]) + [c]];
        }
      }
      assert ips[..|ips|] == ips;
    }

    /** Takes one record off every table. Each deletion is conditional on the entry still
        pointing at this very record; for one that is on file, the invariant is kept. */
    method DeindexLocked(prev: Client?)
      requires Valid()
      modifies this
      ensures allowAll == old(allowAll)
      ensures prev == null ==> unchanged(this)
      ensures prev != null ==>
                && idMap == Dropped(old(idMap), prev.record.id, prev)
                && tokenMap == Dropped(old(tokenMap), prev.record.token, prev)
                && uuidMap == Dropped(old(uuidMap), prev.record.uuid, prev)
                && AddressTables() == UnfiledAll(old(AddressTables()), prev, prev.record.allowedIPs)
      ensures prev != null && prev.record.id in old(idMap) && old(idMap)[prev.record.id] == prev ==>
                Valid() && filed == Unfiled(old(filed), prev.record.id)
    {
      hide Consistent, UnfiledAll;
      if prev == null { return; }
      var r := prev.record;
      ghost var onFile := r.id in idMap && idMap[r.id] == prev;
      BlankIsNoKey(idMap, tokenMap, uuidMap, AddressTables(), filed);
      if onFile { UnfilingKeeps(idMap, tokenMap, uuidMap, AddressTables(), filed, prev); }
      if r.id in idMap && idMap[r.id] == prev { idMap := idMap - {r.id}; }
      if r.token != "" && r.token in tokenMap && tokenMap[r.token] == prev { tokenMap := tokenMap - {r.token}; }
      if r.uuid != "" && r.uuid in uuidMap && uuidMap[r.uuid] == prev { uuidMap := uuidMap - {r.uuid}; }
      UnfileAddresses(prev);
      if onFile { filed := Unfiled(filed, r.id); }
    }

    /** The address loop of deindexLocked. */
    method UnfileAddresses(prev: Client)
      modifies `ipMap, `ipClients
      ensures AddressTables() == UnfiledAll(old(AddressTables()), prev, prev.record.allowedIPs)
    {
      hide UnfiledAt;
      var ips := prev.record.allowedIPs;
      for i := 0 to |ips|
        invariant AddressTables() == UnfiledAll(old(AddressTables()), prev, ips[..i])
      {
        assert ips[..i + 1][..i] == ips[..i];
        UnfileAddress(prev, ips[i]);
      }
      assert ips[..|ips|] == ips;
    }

    method UnfileAddress(prev: Client, ip: string)
      modifies `ipMap, `ipClients
      ensures AddressTables() == UnfiledAt(old(AddressTables()), prev, ip)
    {
      hide Without;
      if ip in ipClients {
        var filtered := FilterOut(ipClients[ip], prev.record.id);
        if filtered == [] {
          ipClients := ipClients - {ip};
          if ip in ipMap && ipMap[ip] == prev { ipMap := ipMap - {ip}; }
        } else {
          ipClients := ipClients[ip := filtered];
          if ip in ipMap && ipMap[ip] == prev { ipMap := ipMap[ip := filtered[|filtered| - 1]]; }
        }
      } else if ip in ipMap && ipMap[ip] == prev {
        ipMap := ipMap - {ip};
      }
    }

    /** The loop that rebuilds one list without an account. */
    static method FilterOut(list: seq<Client>, id: string) returns (filtered: seq<Client>)
      ensures filtered == Without(list, id)
    {
      filtered := [];
      for i := 0 to |list|
        invariant filtered == Without(list[..i], id)
      {
        assert list[..i + 1][..i] == list[..i];
        if list[i].record.id != id { filtered := filtered + [list[i]]; }
      }
      assert list[..|list|] == list;
    }

    /** Re-files a single account, as a private copy of the record handed in. */
    method RefreshClientIndex(c: Option<Record>, now: Time)
      requires Valid()
      modifies this
      ensures Valid() && allowAll == old(allowAll)
      ensures c.None? || c.value.id == "" ==> unchanged(this)
      ensures c.Some? && c.value.id != "" ==>
                && c.value.id in idMap && fresh(idMap[c.value.id]) && idMap[c.value.id].record == c.value
                && filed == Unfiled(old(filed), c.value.id) + [Filing(idMap[c.value.id], now)]
                && (c.value.token != "" ==> c.value.token in tokenMap && tokenMap[c.value.token] == idMap[c.value.id])
                && (c.value.uuid != "" ==> c.value.uuid in uuidMap && uuidMap[c.value.uuid] == idMap[c.value.id])
    {
      hide Ids, Tables, ListsAgree, OnFile, Tokens, Uuids;
      if c.None? || c.value.id == "" { return; }
      var stored := new Client(c.value);
      if c.value.id in idMap {
        IdsNameTheirRecord(idMap, filed, c.value.id);
        DeindexLocked(idMap[c.value.id]);
      } else {
        UnfiledAbsent(idMap, filed, c.value.id);
        DeindexLocked(null);
      }
      IndexLocked(stored, now);
    }

    /** Rebuilds every table from the full account list; a failed read changes nothing. */
    method ReloadCache(clients: seq<Record>, fails: bool, now: Time)
      requires Valid()
      requires forall i, j :: 0 <= i < j < |clients| ==> clients[i].id != clients[j].id
      modifies this
      ensures Valid() && allowAll == old(allowAll)
      ensures fails ==> unchanged(this)
      ensures !fails ==>
                && Records(filed) == NonBlank(clients)
                && (forall f :: f in filed ==> fresh(f.client) && f.at == now)
                && Resolves(tokenMap, uuidMap, filed)
    {
      hide Ids, Tables, ListsAgree, OnFile, Tokens, Uuids, Resolves, Records;
      if fails { return; }
      EmptyTables();
      idMap, ipMap, ipClients, tokenMap, uuidMap, filed := map[], map[], map[], map[], map[], [];
      for i := 0 to |clients|
        invariant Valid() && allowAll == old(allowAll)
        invariant Records(filed) == NonBlank(clients[..i])
        invariant forall f :: f in filed ==> fresh(f.client) && f.at == now
        invariant Resolves(tokenMap, uuidMap, filed)
        invariant forall id :: id in idMap ==> exists j :: 0 <= j < i && clients[j].id == id
      {
        var c := new Client(clients[i]);
        assert clients[..i + 1][..i] == clients[..i];
        ghost var before, tokensBefore, uuidsBefore := filed, tokenMap, uuidMap;
        IndexLocked(c, now);
        if clients[i].id != "" {
          RecordsAppend(before, Filing(c, now));
          ResolvesAppend(tokensBefore, uuidsBefore, before, Filing(c, now));
        }
      }
      assert clients[..|clients|] == clients;
    }

    /** Resolves a source address. */
    method IsIPAllowed(ip: string, now: Time) returns (client: Client?, ok: bool)
      requires Valid()
      ensures allowAll ==> ok && client == if Bound(filed, ip) == [] then null else Bound(filed, ip)[|Bound(filed, ip)| - 1]
      ensures !allowAll ==> ok == (Bound(filed, ip) != [])
      ensures !allowAll ==> client == if ok then Pick(Bound(filed, ip), now) else null
    {
      hide Tables, ListsAgree, Ids, OnFile, Tokens, Uuids, Bound, Pick, FirstActive;
      AtAddress(ipMap, ipClients, filed, ip);
      if allowAll {
        return if ip in ipMap then ipMap[ip] else null, true;
      }
      if ip !in ipMap { return null, false; }
      var last := ipMap[ip];
      var list := ipClients[ip];
      if last.record.enabled && (last.record.expiresAt == 0 || now < last.record.expiresAt) {
        PickLast(list, now);
        return last, true;
      }
      for i := 0 to |list|
        invariant forall j :: 0 <= j < i ==> !Active(list[j].record, now)
      {
        var alt := list[i];
        if alt.record.enabled && (alt.record.expiresAt == 0 || now < alt.record.expiresAt) {
          PickFirst(list, i, now);
          return alt, true;
        }
      }
      PickLast(list, now);
      return last, true;
    }
  }

  function Records(filed: seq<Filing>): seq<Record> {
    seq(|filed|, i requires 0 <= i < |filed| => filed[i].client.record)
  }

  function NonBlank(clients: seq<Record>): seq<Record> {
    if clients == [] then []
    else NonBlank(clients[..|clients| - 1])
         + (if clients[|clients| - 1].id != "" then [clients[|clients| - 1]] else [])
  }

  /** Every filed account's token and UUID lead to some account. */
  ghost predicate Resolves(tokenMap: map<string, Client>, uuidMap: map<string, Client>, filed: seq<Filing>) {
    forall f :: f in filed ==>
      && (f.client.record.token != "" ==> f.client.record.token in tokenMap)
      && (f.client.record.uuid != "" ==> f.client.record.uuid in uuidMap)
  }

  lemma EmptyTables()
    ensures Ids(map[], []) && Tables(map[], map[]) && ListsAgree(map[], [])
    ensures OnFile(map[], map[]) && Tokens(map[]) && Uuids(map[]) && Resolves(map[], map[], []) && Records([]) == []
  {
  }

  lemma ResolvesAppend(tokenMap: map<string, Client>, uuidMap: map<string, Client>, filed: seq<Filing>, f: Filing)
    requires Resolves(tokenMap, uuidMap, filed)
    ensures var r := f.client.record;
            Resolves(Credited(tokenMap, r.token, f.client), Credited(uuidMap, r.uuid, f.client), filed + [f])
  {
    assert forall g :: g in filed + [f] ==> g in filed || g == f;
  }

  lemma RecordsAppend(filed: seq<Filing>, f: Filing)
    ensures Records(filed + [f]) == Records(filed) + [f.client.record]
  {
  }

  lemma IdsNameTheirRecord(idMap: map<string, Client>, filed: seq<Filing>, id: string)
    requires Ids(idMap, filed) && id in idMap
    ensures idMap[id].record.id == id
  {
  }

  lemma UnfiledAbsent(idMap: map<string, Client>, filed: seq<Filing>, id: string)
    requires Ids(idMap, filed) && id !in idMap
    ensures Unfiled(filed, id) == filed
  {
    UnfiledNothing(filed, id);
  }

  lemma {:induction false} UnfiledNothing(filed: seq<Filing>, id: string)
    requires forall f :: f in filed ==> f.client.record.id != id
    ensures Unfiled(filed, id) == filed
  {
    if filed != [] {
      InitMembers(filed);
      UnfiledNothing(filed[..|filed| - 1], id);
      assert filed == filed[..|filed| - 1] + [filed[|filed| - 1]];
    }
  }

  /** The two address tables, at one address, against the lists filing order gives. */
  lemma AtAddress(ipMap: map<string, Client>, ipClients: map<string, seq<Client>>, filed: seq<Filing>, ip: string)
    requires Tables(ipMap, ipClients) && ListsAgree(ipClients, filed)
    ensures ip in ipMap <==> ip in ipClients
    ensures Bound(filed, ip) == if ip in ipMap then ipClients[ip] else []
    ensures ip in ipMap ==> ipClients[ip] != [] && ipMap[ip] == ipClients[ip][|ipClients[ip]| - 1]
  {
    hide Bound;
    assert Lookup(ipClients, ip) == Bound(filed, ip);
    assert ipMap.Keys == ipClients.Keys;
  }

  lemma PickLast(list: seq<Client>, now: Time)
    requires list != []
    requires Active(list[|list| - 1].record, now) || forall j :: 0 <= j < |list| ==> !Active(list[j].record, now)
    ensures Pick(list, now) == list[|list| - 1]
  {
  }

  lemma PickFirst(list: seq<Client>, i: nat, now: Time)
    requires i < |list| && Active(list[i].record, now) && !Active(list[|list| - 1].record, now)
    requires forall j :: 0 <= j < i ==> !Active(list[j].record, now)
    ensures Pick(list, now) == list[i]
  {
    FirstActiveAt(list, i, now);
  }

  lemma {:induction false} FirstActiveAt(list: seq<Client>, i: nat, now: Time)
    requires i < |list| && Active(list[i].record, now)
    requires forall j :: 0 <= j < i ==> !Active(list[j].record, now)
    ensures exists c :: c in list && Active(c.record, now)
    ensures FirstActive(list, now) == list[i]
  {
    assert list[i] in list;
    if i > 0 { FirstActiveAt(list[1..], i - 1, now); }
  }

  // ----- the scan the index replaces

  predicate ScanMatches(r: Record, ip: string, now: Time) {
    Servable(r, now) && ip in r.allowedIPs
  }

  predicate FirstMatch(clients: seq<Record>, i: int, ip: string, now: Time) {
    && 0 <= i < |clients| && ScanMatches(clients[i], ip, now)
    && forall j :: 0 <= j < i ==> !ScanMatches(clients[j], ip, now)
  }

  /** The first account that lists the address, is enabled and is not past its expiry. */
  method FindClientByIP(clients: seq<Record>, ip: string, now: Time) returns (found: Option<Record>)
    ensures found.None? <==>
            forall i :: 0 <= i < |clients| && ip in clients[i].allowedIPs && clients[i].enabled ==>
              clients[i].expiresAt != 0 && clients[i].expiresAt < now
    ensures found.Some? ==>
              && found.value.enabled && (found.value.expiresAt == 0 || now <= found.value.expiresAt)
              && ip in found.value.allowedIPs
              && exists i :: FirstMatch(clients, i, ip, now) && found.value == clients[i]
  {
    for i := 0 to |clients|
      invariant forall j :: 0 <= j < i ==> !ScanMatches(clients[j], ip, now)
    {
      var c := clients[i];
      if !c.enabled { continue; }
      if c.expiresAt != 0 && now > c.expiresAt { continue; }
      if ip in c.allowedIPs {
        assert FirstMatch(clients, i, ip, now);
        return Some(c);
      }
    }
    return None;
  }

  /** The filed records are the stored ones, and none was filed in the future. */
  ghost predicate InSync(filed: seq<Filing>, stored: seq<Record>, now: Time) {
    && (forall f :: f in filed ==> f.client.record in stored && f.at <= now)
    && (forall r :: r in stored && r.id != "" ==> exists f :: f in filed && f.client.record == r)
  }

  lemma {:induction false} NonBlankMembers(clients: seq<Record>, r: Record)
    ensures r in NonBlank(clients) <==> r in clients && r.id != ""
  {
    if clients != [] {
      NonBlankMembers(clients[..|clients| - 1], r);
      assert r in clients <==> r in clients[..|clients| - 1] || r == clients[|clients| - 1];
    }
  }

  /** A reload puts the index in sync with the list it read. */
  lemma ReloadPutsInSync(filed: seq<Filing>, stored: seq<Record>, now: Time)
    requires Records(filed) == NonBlank(stored) && forall f :: f in filed ==> f.at <= now
    ensures InSync(filed, stored, now)
  {
    hide NonBlank;
    forall f | f in filed ensures f.client.record in stored {
      var i :| 0 <= i < |filed| && filed[i] == f;
      assert Records(filed)[i] == f.client.record;
      NonBlankMembers(stored, f.client.record);
    }
    forall r | r in stored && r.id != "" ensures exists f :: f in filed && f.client.record == r {
      NonBlankMembers(stored, r);
      var i :| 0 <= i < |Records(filed)| && Records(filed)[i] == r;
      assert filed[i] in filed && filed[i].client.record == r;
    }
  }

  /** Refreshing the one account that was saved keeps it there. */
  lemma RefreshKeepsInSync(filed: seq<Filing>, stored: seq<Record>, now: Time, f: Filing, resaved: seq<Record>)
    requires InSync(filed, stored, now) && f.at <= now
    requires forall r :: r in resaved <==> r == f.client.record || (r in stored && r.id != f.client.record.id)
    ensures InSync(Unfiled(filed, f.client.record.id) + [f], resaved, now)
  {
    var id := f.client.record.id;
    var refiled := Unfiled(filed, id) + [f];
    UnfiledMembers(filed, id);
    assert forall g :: g in refiled <==> g in Unfiled(filed, id) || g == f;
    forall r | r in resaved && r.id != "" ensures exists g :: g in refiled && g.client.record == r {
      if r == f.client.record {
        assert f in refiled;
      } else {
        var g :| g in filed && g.client.record == r;
        assert g in refiled;
      }
    }
  }

  /** The fast lookup agrees with the scan: if a stored account is enabled, strictly before
      its expiry and bound to the address, the lookup answers with such an account,
      whichever sharers are disabled or expired; and if no stored account binds the address
      the lookup has nothing to answer with. */
  lemma LookupAgreesWithScan(filed: seq<Filing>, stored: seq<Record>, ip: string, now: Time)
    requires InSync(filed, stored, now) && ip != ""
    ensures (exists r :: r in stored && r.id != "" && ip in r.allowedIPs
                         && r.enabled && (r.expiresAt == 0 || now < r.expiresAt)) ==>
              Bound(filed, ip) != []
              && var r := Pick(Bound(filed, ip), now).record;
                 r in stored && ip in r.allowedIPs && r.enabled && (r.expiresAt == 0 || now < r.expiresAt)
    ensures (forall r :: r in stored ==> ip !in r.allowedIPs) ==> Bound(filed, ip) == []
  {
    hide Pick;
    var list := Bound(filed, ip);
    if r :| r in stored && r.id != "" && ip in r.allowedIPs && r.enabled && (r.expiresAt == 0 || now < r.expiresAt) {
      var f :| f in filed && f.client.record == r;
      BoundMembers(filed, ip, f.client);
      assert f.client in list;
      PickIsActive(list, now);
      BoundMembers(filed, ip, Pick(list, now));
    }
    if list != [] {
      assert list[0] in list;
      BoundMembers(filed, ip, list[0]);
    }
  }

  /** Whoever shares the address, a sharer that is enabled and before its expiry is what a
      lookup finds, if there is one. */
  lemma PickIsActive(list: seq<Client>, now: Time)
    requires list != []
    ensures Pick(list, now) in list
    ensures var r := Pick(list, now).record;
            r.enabled && (r.expiresAt == 0 || now < r.expiresAt) <==>
            exists c :: c in list && c.record.enabled && (c.record.expiresAt == 0 || now < c.record.expiresAt)
  {
    var last := list[|list| - 1];
    assert last in list;
    if !Active(last.record, now) && exists c :: c in list && Active(c.record, now) {
      FirstActiveIsActive(list, now);
    }
  }

  /** The account filed last answers for an address it lists, from the moment it is filed and
      until its expiry. */
  lemma NewestSharerAnswers(filed: seq<Filing>, f: Filing, ip: string, now: Time)
    requires ip != "" && ip in f.client.record.allowedIPs && f.client.record.enabled && f.at <= now
    requires f.client.record.expiresAt == 0 || now < f.client.record.expiresAt
    ensures Bound(filed + [f], ip) != [] && Pick(Bound(filed + [f], ip), now) == f.client
  {
    hide Copies, Bound;
    BoundAppend(filed, f, ip);
    CopiesMembers(f.client, f.client.record.allowedIPs, ip);
    var copies := Copies(f.client, f.client.record.allowedIPs, ip);
    assert f.client in copies && copies[|copies| - 1] in copies;
    PickLast(Bound(filed + [f], ip), now);
  }
}
