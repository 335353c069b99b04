/** Client records at rest (internal/database/client_repo.go): packing, unpacking,
    validation, lookup by token, and the migration that seals tokens an older version stored
    in the clear. A record's JSON is its parsed form. */
module SealedClients {
  import opened Prelude
  import opened Sealing

  /** A parsed JSON text: malformed, the literal null, or a value. */
  datatype Json<T> = Malformed | Null | Value(value: T)

  /** The cipher, the JSON forms of the two sealed lists, and the folding of a fingerprint
      into UUID form. */
  datatype Env = Env(
    cipher: Cipher,
    printIPs: seq<string> -> string,
    parseIPs: string -> Json<seq<string>>,
    printDomains: seq<string> -> string,
    parseDomains: string -> Json<seq<string>>,
    fold: string -> string)

  ghost predicate EnvLawful(env: Env) {
    && Lawful(env.cipher)
    && (forall x :: env.printIPs(x) != "" && env.parseIPs(env.printIPs(x)) == Value(x))
    && (forall x :: env.printDomains(x) != "" && env.parseDomains(env.printDomains(x)) == Value(x))
    && (forall x :: env.fold(x) != "")
  }

  /** A list of texts, each character marked and each text ended. */
  function Spell(x: seq<string>): string
    decreases |x|, if x == [] then 0 else |x[0]|
  {
    if x == [] then "" else if x[0] == "" then "." + Spell(x[1..])
    else ['c', x[0][0]] + Spell([x[0][1..]] + x[1..])
  }

  function Unspell(t: string): Option<seq<string>> {
    if t == "" then Some([])
    else if t[0] == '.' then (match Unspell(t[1..]) case None => None case Some(rest) => Some([""] + rest))
    else if |t| == 1 then None
    else match Unspell(t[2..])
         case Some(rest) => if rest == [] then None else Some([[t[1]] + rest[0]] + rest[1..])
         case None => None
  }

  lemma {:induction false} SpellingReadsBack(x: seq<string>)
    ensures Unspell(Spell(x)) == Some(x)
    decreases |x|, if x == [] then 0 else |x[0]|
  {
    if x != [] {
      if x[0] == "" {
        SpellingReadsBack(x[1..]);
        assert ("." + Spell(x[1..]))[1..] == Spell(x[1..]);
        assert [""] + x[1..] == x;
      } else {
        var shorter := [x[0][1..]] + x[1..];
        SpellingReadsBack(shorter);
        assert Spell(x)[2..] == Spell(shorter);
        assert [x[0][0]] + shorter[0] == x[0] && shorter[1..] == x[1..];
        assert [x[0]] + x[1..] == x;
      }
    }
  }

  /** Some environment is lawful. */
  lemma LawfulEnv() returns (env: Env)
    ensures EnvLawful(env)
  {
    var c := LawfulCipher();
    var spell := (x: seq<string>) => "l" + Spell(x);
    var parse := (t: string) => if t == "" then Malformed
                                else match Unspell(t[1..]) { case None => Malformed case Some(x) => Value(x) };
    env := Env(c, spell, parse, spell, parse, x => "u" + x);
    forall x: seq<string> ensures spell(x) != "" && parse(spell(x)) == Value(x) {
      SpellingReadsBack(x);
      assert ("l" + Spell(x))[1..] == Spell(x);
    }
  }

  /** The fields stored in the clear, which no operation here touches. */
  datatype Clear = Clear(
    limitGB: real, used: u64, expiresAt: int, createdAt: int, lastSeen: int, totalQueries: u64,
    enabled: bool, note: string, gameProfiles: seq<string>, preferredNode: string,
    cycle: string, anchor: int, count: nat, prev: u64)

  datatype Client = Client(
    id: string, uuid: string, name: string, token: string, ips: seq<string>, maxDevices: int,
    domains: seq<string>, secret: string, policies: seq<string>, clear: Clear)

  datatype EncClient = EncClient(
    id: string, uuid: string, nameEnc: string, token: string, tokenEnc: string, tokenMAC: string,
    secretEnc: string, ipsEnc: string, domainsEnc: string, maxDevices: int, policies: seq<string>, clear: Clear)

  /** What the lookup reads of a value before it decodes the whole of it. */
  datatype Probe = Probe(token: string, tokenMAC: string)

  /** A stored value: a record, or a text that is none. Parts of the latter may still be read:
      the lookup's probe, and that it seems to hold a token in the clear. */
  datatype Stored = Broken(probe: Option<Probe>, cleartext: bool) | Rec(enc: EncClient)

  /** A row of the bucket, which is kept in key order. */
  datatype Row = Row(key: string, stored: Stored)

  function DeterministicUUID(env: Env, id: string, token: string): string {
    env.fold(BlindIndex(env.cipher, id + ":" + token))
  }

  function AtLeastOne(n: int): int { if n <= 0 then 1 else n }

  /** The UUID a record is packed with. */
  function FilledUUID(env: Env, c: Client, random: string): string {
    if c.uuid != "" then c.uuid
    else if c.id != "" && c.token != "" then DeterministicUUID(env, c.id, c.token)
    else random
  }

  /** packClient: None when no key is loaded or a field could not be sealed. draw(k) is the
      nonce drawn for the k-th sealed field. */
  function PackClient(env: Option<Env>, c: Client, draw: nat -> Option<nat>, random: string): Option<EncClient> {
    if env.None? then None
    else
      var e := env.value;
      var name := EncryptString(e.cipher, draw(0), c.name);
      var ips := EncryptString(e.cipher, draw(1), e.printIPs(c.ips));
      var token := EncryptString(e.cipher, draw(2), c.token);
      var secret := EncryptString(e.cipher, draw(3), c.secret);
      var domains := if c.domains == [] then Some("") else EncryptString(e.cipher, draw(4), e.printDomains(c.domains));
      if name.None? || ips.None? || token.None? || secret.None? || domains.None? then None
      else Some(EncClient(c.id, FilledUUID(e, c, random), name.value, "", token.value, BlindIndex(e.cipher, c.token),
                          secret.value, ips.value, domains.value, AtLeastOne(c.maxDevices), c.policies, c.clear))
  }

  function PlainToken(env: Env, e: EncClient): Option<string> {
    if e.tokenEnc == "" then Some(e.token) else DecryptString(env.cipher, e.tokenEnc)
  }

  function OpenIPs(env: Env, e: EncClient): seq<string> {
    if e.ipsEnc == "" then []
    else match DecryptString(env.cipher, e.ipsEnc)
         case None => []
         case Some(text) => match env.parseIPs(text) { case Value(v) => v case _ => [] }
  }

  function OpenDomains(env: Env, e: EncClient): seq<string> {
    if e.domainsEnc == "" then []
    else match DecryptString(env.cipher, e.domainsEnc)
         case None => []
         case Some(text) => match env.parseDomains(text) { case Value(v) => v case _ => [] }
  }

  function OpenOr(env: Env, text: string, otherwise: string): string {
    match DecryptString(env.cipher, text) { case None => otherwise case Some(plain) => plain }
  }

  /** unpackClient: None when the token cannot be opened. */
  function UnpackClient(env: Env, e: EncClient): Option<Client> {
    var token := PlainToken(env, e);
    if token.None? then None
    else Some(Client(
      e.id, if e.uuid == "" then DeterministicUUID(env, e.id, token.value) else e.uuid,
      OpenOr(env, e.nameEnc, "Decryption Failed"), token.value, OpenIPs(env, e), AtLeastOne(e.maxDevices),
      OpenDomains(env, e), if e.secretEnc == "" then "" else OpenOr(env, e.secretEnc, ""), e.policies, e.clear))
  }

  function Decode(env: Env, s: Stored): Option<Client> {
    if s.Broken? then None else UnpackClient(env, s.enc)
  }

  /** Packing and unpacking gives the client back, with its UUID filled in and room for at
      least one device. */
  lemma UnpackInvertsPack(env: Env, c: Client, draw: nat -> Option<nat>, random: string)
    requires EnvLawful(env) && PackClient(Some(env), c, draw, random).Some? && random != ""
    ensures UnpackClient(env, PackClient(Some(env), c, draw, random).value) ==
            Some(c.(uuid := FilledUUID(env, c, random), maxDevices := if c.maxDevices < 1 then 1 else c.maxDevices))
  {
    hide Lawful, EncryptString, DecryptString;
    SealedTextOpens(env.cipher, draw(0), c.name);
    SealedTextOpens(env.cipher, draw(1), env.printIPs(c.ips));
    SealedTextOpens(env.cipher, draw(2), c.token);
    SealedTextOpens(env.cipher, draw(3), c.secret);
    if c.domains != [] { SealedTextOpens(env.cipher, draw(4), env.printDomains(c.domains)); }
  }

  /** A client keeps the UUID it has. One that has none gets the UUID that a record of the same id
      and token decodes to, and a random one only if it has no id or no token. */
  lemma FilledUUIDIs(env: Env, c: Client, random: string, e: EncClient)
    requires e.id == c.id && e.token == c.token && e.tokenEnc == "" && e.uuid == ""
    ensures c.uuid != "" ==> FilledUUID(env, c, random) == c.uuid
    ensures c.uuid == "" && c.id != "" && c.token != "" ==> FilledUUID(env, c, random) == UnpackClient(env, e).value.uuid
    ensures c.uuid == "" && (c.id == "" || c.token == "") ==> FilledUUID(env, c, random) == random
  {
  }

  /** Packing fails exactly without a key, or without randomness for a text that has to be sealed. */
  lemma PackFailsIff(env: Option<Env>, c: Client, draw: nat -> Option<nat>, random: string)
    requires env.Some? ==> EnvLawful(env.value)
    ensures PackClient(env, c, draw, random).None? <==>
            || env.None?
            || (draw(0).None? && c.name != "") || draw(1).None? || (draw(2).None? && c.token != "")
            || (draw(3).None? && c.secret != "") || (draw(4).None? && c.domains != [])
  {
    hide FilledUUID, BlindIndex;
  }

  // ----- validation

  predicate OpensTo(env: Env, text: string, ok: string -> bool) {
    text == "" || match env.cipher.open(text) { case None => false case Some(plain) => ok(plain) }
  }

  /** validateClient. */
  predicate Validates(env: Env, r: Row) {
    && r.stored.Rec?
    && var e := r.stored.enc;
       && e.id != "" && e.id == r.key && e.nameEnc != ""
       && (e.token != "" <==> e.tokenEnc == "") && (e.tokenEnc != "" <==> e.tokenMAC != "")
       && OpensTo(env, e.nameEnc, plain => plain != "")
       && OpensTo(env, e.tokenEnc, plain => MatchesBlindIndex(env.cipher, e.tokenMAC, plain))
       && OpensTo(env, e.ipsEnc, plain => env.parseIPs(plain).Value?)
       && OpensTo(env, e.secretEnc, plain => true)
       && OpensTo(env, e.domainsEnc, plain => env.parseDomains(plain) != Malformed)
  }

  /** What SaveClient writes validates exactly if the client has an id, a name and a token. */
  lemma SavedRecordValidatesIff(env: Env, c: Client, draw: nat -> Option<nat>, random: string)
    requires EnvLawful(env) && PackClient(Some(env), c, draw, random).Some?
    ensures Validates(env, Row(c.id, Rec(PackClient(Some(env), c, draw, random).value))) <==>
            c.id != "" && c.name != "" && c.token != ""
  {
    hide FilledUUID;
    SealedTextOpens(env.cipher, draw(0), c.name);
    SealedTextOpens(env.cipher, draw(1), env.printIPs(c.ips));
    SealedTextOpens(env.cipher, draw(2), c.token);
    SealedTextOpens(env.cipher, draw(3), c.secret);
    if c.domains != [] { SealedTextOpens(env.cipher, draw(4), env.printDomains(c.domains)); }
  }

  // ----- lookup

  datatype Lookup = NotFound | Unreadable | Found(client: Client)

  function ProbeOf(s: Stored): Option<Probe> {
    if s.Rec? then Some(Probe(s.enc.token, s.enc.tokenMAC)) else s.probe
  }

  predicate Matches(env: Env, s: Stored, token: string) {
    ProbeOf(s).Some? &&
    var p := ProbeOf(s).value;
    if p.tokenMAC != "" && BlindIndex(env.cipher, token) != "" then
      p.tokenMAC == BlindIndex(env.cipher, token) || p.tokenMAC == BlindIndexNew(env.cipher, token)
    else p.token != "" && p.token == token
  }

  /** The scan of FindClientByToken over the first rows: the last match is the answer. */
  function Scan(env: Env, rows: seq<Row>, token: string): Lookup {
    if rows == [] then NotFound
    else
      var before, s := Scan(env, rows[..|rows| - 1], token), rows[|rows| - 1].stored;
      if before.Unreadable? || !Matches(env, s, token) then before
      else match Decode(env, s) { case None => Unreadable case Some(c) => Found(c) }
  }

  function Find(env: Env, rows: seq<Row>, token: string): Lookup {
    if token == "" then NotFound else Scan(env, rows, token)
  }

  method FindClientByToken(env: Env, rows: seq<Row>, token: string) returns (r: Lookup)
    ensures r == Find(env, rows, token)
  {
    hide Matches, Decode;
    if token == "" { return NotFound; }
    r := NotFound;
    for i := 0 to |rows|
      invariant r == Scan(env, rows[..i], token) && !r.Unreadable?
    {
      assert rows[..i + 1][..i] == rows[..i];
      if Matches(env, rows[i].stored, token) {
        var c := Decode(env, rows[i].stored);
        if c.None? {
          ScanStaysUnreadable(env, rows, token, i + 1);
          return Unreadable;
        }
        r := Found(c.value);
      }
    }
    assert rows[..|rows|] == rows;
  }

  lemma {:induction false} ScanStaysUnreadable(env: Env, rows: seq<Row>, token: string, i: nat)
    requires i <= |rows| && Scan(env, rows[..i], token) == Unreadable
    ensures Scan(env, rows, token) == Unreadable
    decreases |rows| - i
  {
    hide Matches, Decode;
    if i == |rows| {
      assert rows[..i] == rows;
    } else {
      assert rows[..i + 1][..i] == rows[..i];
      ScanStaysUnreadable(env, rows, token, i + 1);
    }
  }

  // ----- whose answer it is

  /** What a validated row promises a reader: it decodes, under its own key, to a client with a
      name and a token, and every field that is there opens. */
  lemma ValidatedRowsDecode(env: Env, r: Row)
    requires EnvLawful(env) && Validates(env, r)
    ensures var c := Decode(env, r.stored);
            && c.Some? && c.value.id == r.key != "" && c.value.name != "" && c.value.token != ""
            && env.cipher.open(r.stored.enc.nameEnc) == Some(c.value.name)
            && (r.stored.enc.ipsEnc != "" ==>
                  env.cipher.open(r.stored.enc.ipsEnc).Some?
                  && env.parseIPs(env.cipher.open(r.stored.enc.ipsEnc).value) == Value(c.value.ips))
            && (r.stored.enc.secretEnc != "" ==> env.cipher.open(r.stored.enc.secretEnc) == Some(c.value.secret))
            && (r.stored.enc.domainsEnc != "" ==>
                  env.cipher.open(r.stored.enc.domainsEnc).Some?
                  && var domains := env.parseDomains(env.cipher.open(r.stored.enc.domainsEnc).value);
                     domains == Value(c.value.domains) || (domains == Null && c.value.domains == []))
  {
    hide DeterministicUUID;
  }

  /** What validation refuses: a text that is no record, a record without an id or filed under
      another, without a name, with its token both ways or neither, with a fingerprint and no sealed
      token or the other way round, or with a fingerprint of some other token. */
  lemma ValidationRefuses(env: Env, r: Row)
    ensures r.stored.Broken? ==> !Validates(env, r)
    ensures r.stored.Rec? ==>
              var e := r.stored.enc;
              && (e.id == "" || e.id != r.key || e.nameEnc == "" ==> !Validates(env, r))
              && ((e.token != "" && e.tokenEnc != "") || (e.token == "" && e.tokenEnc == "") ==> !Validates(env, r))
              && ((e.tokenEnc != "" && e.tokenMAC == "") || (e.tokenEnc == "" && e.tokenMAC != "") ==> !Validates(env, r))
              && (e.tokenEnc != "" && env.cipher.open(e.tokenEnc).Some? ==>
                    var plain := env.cipher.open(e.tokenEnc).value;
                    e.tokenMAC != env.cipher.mac(plain) && e.tokenMAC != env.cipher.macNew(plain) ==> !Validates(env, r))
  {
  }

  /** On a validated row the probe's comparison means what it should: the client in it has that
      token. */
  lemma MatchMeansToken(env: Env, r: Row, token: string)
    requires EnvLawful(env) && Validates(env, r) && token != ""
    ensures Decode(env, r.stored).Some?
    ensures Matches(env, r.stored, token) <==> Decode(env, r.stored).value.token == token
  {
    hide DeterministicUUID;
    var e := r.stored.enc;
    if e.tokenEnc != "" {
      FingerprintNamesOneSecret(env.cipher, e.tokenMAC, env.cipher.open(e.tokenEnc).value, token);
    }
  }

  /** Row i is the last whose client has the token. */
  ghost predicate LastOwner(env: Env, rows: seq<Row>, token: string, i: int, c: Client) {
    && 0 <= i < |rows| && Decode(env, rows[i].stored) == Some(c) && c.token == token
    && forall j :: i < j < |rows| ==> !Owns(env, rows[j], token)
  }

  predicate Owns(env: Env, r: Row, token: string) {
    Decode(env, r.stored).Some? && Decode(env, r.stored).value.token == token
  }

  lemma LastRowOwns(env: Env, rows: seq<Row>, token: string)
    requires rows != [] && Owns(env, rows[|rows| - 1], token)
    ensures LastOwner(env, rows, token, |rows| - 1, Decode(env, rows[|rows| - 1].stored).value)
  {
    hide Decode;
  }

  lemma LastOwnerStays(env: Env, rows: seq<Row>, token: string, i: int, c: Client)
    requires rows != [] && !Owns(env, rows[|rows| - 1], token) && LastOwner(env, rows[..|rows| - 1], token, i, c)
    ensures LastOwner(env, rows, token, i, c)
  {
    hide Decode;
    assert forall j :: 0 <= j < |rows| - 1 ==> rows[j] == rows[..|rows| - 1][j];
  }

  lemma NobodyOwns(env: Env, init: seq<Row>, last: Row, token: string)
    requires !Owns(env, last, token) && forall i :: 0 <= i < |init| ==> !Owns(env, init[i], token)
    ensures forall i :: 0 <= i < |init + [last]| ==> !Owns(env, (init + [last])[i], token)
  {
    hide Owns;
  }

  lemma {:induction false} ScanFindsTheOwner(env: Env, rows: seq<Row>, token: string)
    requires EnvLawful(env) && token != "" && forall i :: 0 <= i < |rows| ==> Validates(env, rows[i])
    ensures !Scan(env, rows, token).Unreadable?
    ensures Scan(env, rows, token).Found? ==> exists i :: LastOwner(env, rows, token, i, Scan(env, rows, token).client)
    ensures Scan(env, rows, token).NotFound? ==> forall i :: 0 <= i < |rows| ==> !Owns(env, rows[i], token)
  {
    hide EnvLawful, Validates, Decode, Matches, LastOwner;
    if rows != [] {
      var n := |rows| - 1;
      var init, before := rows[..n], Scan(env, rows[..n], token);
      ScanFindsTheOwner(env, init, token);
      MatchMeansToken(env, rows[n], token);
      if Owns(env, rows[n], token) {
        LastRowOwns(env, rows, token);
      } else if before.Found? {
        var i :| LastOwner(env, init, token, i, before.client);
        LastOwnerStays(env, rows, token, i, before.client);
      } else {
        NobodyOwns(env, init, rows[n], token);
        assert init + [rows[n]] == rows;
      }
    }
  }

  /** Over a store that validates, a token answers with a client that has that token, the last
      of them, and with none exactly if nobody has it. */
  lemma LookupFindsTheOwner(env: Env, rows: seq<Row>, token: string)
    requires EnvLawful(env) && token != "" && forall i :: 0 <= i < |rows| ==> Validates(env, rows[i])
    ensures var answer := Find(env, rows, token);
            && !answer.Unreadable?
            && (answer.Found? ==> answer.client.token == token
                                  && exists i :: LastOwner(env, rows, token, i, answer.client))
            && (answer.NotFound? <==> forall i :: 0 <= i < |rows| ==> !Owns(env, rows[i], token))
  {
    hide EnvLawful, Validates, Decode, Scan;
    ScanFindsTheOwner(env, rows, token);
    if Find(env, rows, token).Found? {
      var i :| LastOwner(env, rows, token, i, Find(env, rows, token).client);
      assert Owns(env, rows[i], token);
    }
  }

  /** The blank token is nobody's, whatever is stored. */
  lemma BlankTokenFindsNobody(env: Env, rows: seq<Row>)
    ensures Find(env, rows, "") == NotFound
  {
  }

  /** A client that was saved with an id, a name and a token is found by its token, as it was
      saved, if no other row has that token. */
  lemma SavedClientIsFound(env: Env, rows: seq<Row>, k: nat, c: Client, draw: nat -> Option<nat>, random: string)
    requires EnvLawful(env) && PackClient(Some(env), c, draw, random).Some? && random != ""
    requires c.id != "" && c.name != "" && c.token != ""
    requires k < |rows| && rows[k] == Row(c.id, Rec(PackClient(Some(env), c, draw, random).value))
    requires forall i :: 0 <= i < |rows| && i != k ==> Validates(env, rows[i]) && !Owns(env, rows[i], c.token)
    ensures Find(env, rows, c.token) ==
            Found(c.(uuid := FilledUUID(env, c, random), maxDevices := if c.maxDevices < 1 then 1 else c.maxDevices))
  {
    hide EnvLawful, Validates, UnpackClient, PackClient, FilledUUID, Find;
    SavedRecordValidatesIff(env, c, draw, random);
    UnpackInvertsPack(env, c, draw, random);
    assert Owns(env, rows[k], c.token);
    LookupFindsTheOwner(env, rows, c.token);
    var i :| LastOwner(env, rows, c.token, i, Find(env, rows, c.token).client);
    assert Owns(env, rows[i], c.token);
  }

  /** A legacy record belongs to its clear token; a sealed one to the token it was fingerprinted
      with, under the older or the newer domain separator. */
  lemma WhoseRecordItIs(env: Env, r: Row, token: string)
    requires EnvLawful(env) && token != "" && r.stored.Rec?
    ensures Legacy(r.stored) ==> (Owns(env, r, token) <==> r.stored.enc.token == token)
    ensures Validates(env, r) && r.stored.enc.tokenEnc != "" ==>
              var older := r.(stored := Rec(r.stored.enc.(tokenMAC := env.cipher.mac(token))));
              var newer := r.(stored := Rec(r.stored.enc.(tokenMAC := env.cipher.macNew(token))));
              && (Owns(env, r, token) <==>
                    r.stored.enc.tokenMAC == env.cipher.mac(token) || r.stored.enc.tokenMAC == env.cipher.macNew(token))
              && (Owns(env, r, token) ==>
                    && Validates(env, older) && Matches(env, older.stored, token)
                    && Validates(env, newer) && Matches(env, newer.stored, token))
  {
    hide DeterministicUUID;
    if Validates(env, r) && r.stored.enc.tokenEnc != "" { MatchMeansToken(env, r, token); }
  }

  /** What cannot be opened or parsed reads as a default, except the token, without which there is
      no client. */
  lemma DamagedFieldsReadAsDefaults(env: Env, e: EncClient)
    ensures e.tokenEnc != "" && env.cipher.open(e.tokenEnc).None? ==> UnpackClient(env, e) == None
    ensures UnpackClient(env, e).Some? ==>
              var c := UnpackClient(env, e).value;
              && (e.nameEnc != "" && env.cipher.open(e.nameEnc).None? ==> c.name == "Decryption Failed")
              && (e.ipsEnc == "" || !OpensTo(env, e.ipsEnc, plain => env.parseIPs(plain).Value?) ==> c.ips == [])
              && (e.domainsEnc == "" || !OpensTo(env, e.domainsEnc, plain => env.parseDomains(plain).Value?) ==> c.domains == [])
              && (e.secretEnc == "" || env.cipher.open(e.secretEnc).None? ==> c.secret == "")
              && c.id == e.id && c.policies == e.policies && c.clear == e.clear && c.maxDevices >= 1
  {
  }

  /** With a folding that keeps fingerprints apart, accounts of one id are told apart by their
      derived UUIDs exactly as by their tokens. */
  lemma UuidsSeparateTokens(env: Env, id: string, token: string, other: string)
    requires EnvLawful(env) && forall x, y :: env.fold(x) == env.fold(y) ==> x == y
    ensures DeterministicUUID(env, id, token) == DeterministicUUID(env, id, other) <==> token == other
  {
    assert (id + ":" + token)[|id| + 1..] == token && (id + ":" + other)[|id| + 1..] == other;
  }

  // ----- the migration

  predicate Legacy(s: Stored) {
    s.Rec? && s.enc.tokenEnc == "" && s.enc.token != ""
  }

  /** What the collecting pass picks out by its own probe. */
  predicate LooksLegacy(s: Stored) {
    if s.Broken? then s.cleartext else Legacy(s)
  }

  /** One record sealed; a record whose token could not be sealed keeps it in the clear. */
  function SealToken(env: Env, r: Row, nonce: Option<nat>): Row {
    if !Legacy(r.stored) then r
    else
      var e := r.stored.enc;
      match EncryptString(env.cipher, nonce, e.token)
      case None => r
      case Some(text) =>
        r.(stored := Rec(e.(uuid := if e.uuid == "" then DeterministicUUID(env, e.id, e.token) else e.uuid,
                            tokenEnc := text, tokenMAC := BlindIndex(env.cipher, e.token), token := "")))
  }

  function SealAll(env: Env, rows: seq<Row>, draw: nat -> Option<nat>): seq<Row> {
    seq(|rows|, i requires 0 <= i < |rows| => SealToken(env, rows[i], draw(i)))
  }

  /** The collecting pass: the positions of the rows that look legacy, in order. */
  method CollectLegacy(rows: seq<Row>) returns (legacy: seq<nat>)
    ensures forall j :: j in legacy <==> 0 <= j < |rows| && LooksLegacy(rows[j].stored)
    ensures forall a, b :: 0 <= a < b < |legacy| ==> legacy[a] < legacy[b]
  {
    legacy := [];
    for i := 0 to |rows|
      invariant forall j :: j in legacy <==> 0 <= j < i && LooksLegacy(rows[j].stored)
      invariant forall a, b :: 0 <= a < b < |legacy| ==> legacy[a] < legacy[b]
    {
      if LooksLegacy(rows[i].stored) {
        assert forall a :: 0 <= a < |legacy| ==> legacy[a] in legacy;
        legacy := legacy + [i];
      }
    }
  }

  /** encryptLegacyClientTokens: positions are collected first and rewritten second, in one
      transaction that may roll back. */
  method EncryptLegacyClientTokens(env: Option<Env>, rows: seq<Row>, draw: nat -> Option<nat>, rollsBack: bool)
    returns (after: seq<Row>, converted: nat, failed: bool)
    ensures env.None? ==> after == rows && converted == 0 && !failed
    ensures env.Some? ==> after == if failed then rows else SealAll(env.value, rows, draw)
    ensures !failed ==> |after| == |rows| && converted == |Changed(rows, after)|
    ensures failed ==> rollsBack
  {
    hide SealToken, LooksLegacy, Changed;
    after, converted, failed := rows, 0, false;
    NothingChanged(rows);
    if env.None? { return; }
    var legacy := CollectLegacy(rows);
    forall i | 0 <= i < |rows| && !LooksLegacy(rows[i].stored) ensures SealToken(env.value, rows[i], draw(i)) == rows[i] {
      SealedRecordsStay(env.value, rows[i], draw(i));
    }
    if |legacy| == 0 {
      assert SealAll(env.value, rows, draw) == rows;
      return;
    }
    for k := 0 to |legacy|
      invariant |after| == |rows| && converted == |Changed(rows, after)|
      invariant forall j :: 0 <= j < |rows| ==>
        after[j] == if j in legacy[..k] then SealToken(env.value, rows[j], draw(j)) else rows[j]
    {
      var i := legacy[k];
      assert i in legacy && i !in legacy[..k];
      assert forall j :: j in legacy[..k + 1] <==> j in legacy[..k] || j == i;
      var next := SealToken(env.value, after[i], draw(i));
      if next != after[i] {
        converted := converted + 1;
        OneMoreChanged(rows, after, i, next);
        after := after[i := next];
      }
    }
    assert legacy[..|legacy|] == legacy;
    if rollsBack { return rows, converted, true; }
  }

  lemma SealingKeepsTheClient(env: Env, r: Row, nonce: Option<nat>)
    requires EnvLawful(env)
    ensures Decode(env, SealToken(env, r, nonce).stored) == Decode(env, r.stored)
  {
    hide EncryptString, DecryptString, DeterministicUUID;
    if Legacy(r.stored) && EncryptString(env.cipher, nonce, r.stored.enc.token).Some? {
      SealedTextOpens(env.cipher, nonce, r.stored.enc.token);
      FoldedIsNotBlank(env, r.stored.enc.id, r.stored.enc.token);
    }
  }

  lemma FoldedIsNotBlank(env: Env, id: string, token: string)
    requires EnvLawful(env)
    ensures DeterministicUUID(env, id, token) != ""
  {
  }

  lemma SealingKeepsValidity(env: Env, r: Row, nonce: Option<nat>)
    requires EnvLawful(env) && Validates(env, r)
    ensures Validates(env, SealToken(env, r, nonce))
  {
    hide DeterministicUUID;
    if Legacy(r.stored) && nonce.Some? { SealedTextOpens(env.cipher, nonce, r.stored.enc.token); }
  }

  lemma SealingKeepsMatches(env: Env, r: Row, nonce: Option<nat>, token: string)
    requires EnvLawful(env) && Validates(env, r) && token != ""
    ensures Matches(env, SealToken(env, r, nonce).stored, token) <==> Matches(env, r.stored, token)
  {
    hide DeterministicUUID;
    if Legacy(r.stored) && nonce.Some? { FingerprintsSeparate(env.cipher, r.stored.enc.token, token); }
  }

  /** Sealing one validated record changes nothing a reader can see: the decoded client,
      derived UUID included, which tokens find it, and that it validates. */
  lemma SealingIsInvisible(env: Env, r: Row, nonce: Option<nat>, token: string)
    requires EnvLawful(env) && Validates(env, r) && token != ""
    ensures var s := SealToken(env, r, nonce);
            && Validates(env, s)
            && Decode(env, s.stored) == Decode(env, r.stored)
            && (Matches(env, s.stored, token) <==> Matches(env, r.stored, token))
  {
    hide EnvLawful, Validates, Decode, Matches, SealToken;
    SealingKeepsTheClient(env, r, nonce);
    SealingKeepsValidity(env, r, nonce);
    SealingKeepsMatches(env, r, nonce, token);
  }

  /** Migration preserves meaning, for every store that validates: every record decodes to
      the same client, every token finds the same answer, and the store still validates, so
      the check made after the file is rewritten cannot fail because of it. */
  lemma MigrationPreservesMeaning(env: Env, rows: seq<Row>, draw: nat -> Option<nat>, token: string)
    requires EnvLawful(env) && forall i :: 0 <= i < |rows| ==> Validates(env, rows[i])
    ensures var after := SealAll(env, rows, draw);
            && |after| == |rows|
            && (forall i :: 0 <= i < |rows| ==>
                  && after[i].key == rows[i].key && Validates(env, after[i])
                  && Decode(env, after[i].stored) == Decode(env, rows[i].stored))
            && Find(env, after, token) == Find(env, rows, token)
  {
    hide Validates, Decode, Matches, EnvLawful, SealToken;
    var after := SealAll(env, rows, draw);
    forall i | 0 <= i < |rows|
      ensures after[i].key == rows[i].key && Validates(env, after[i])
              && Decode(env, after[i].stored) == Decode(env, rows[i].stored)
    {
      SealingIsInvisible(env, rows[i], draw(i), "any");
      SealingKeepsTheKey(env, rows[i], draw(i));
    }
    if token != "" {
      SameScan(env, rows, draw, token, |rows|);
      assert after[..|rows|] == after && rows[..|rows|] == rows;
    }
  }

  lemma SealingKeepsTheKey(env: Env, r: Row, nonce: Option<nat>)
    ensures SealToken(env, r, nonce).key == r.key
    ensures r.stored.Rec? ==> SealToken(env, r, nonce).stored.Rec?
  {
  }

  lemma {:induction false} SameScan(env: Env, rows: seq<Row>, draw: nat -> Option<nat>, token: string, n: nat)
    requires EnvLawful(env) && token != "" && forall i :: 0 <= i < |rows| ==> Validates(env, rows[i])
    requires n <= |rows|
    ensures Scan(env, SealAll(env, rows, draw)[..n], token) == Scan(env, rows[..n], token)
  {
    hide Validates, Decode, Matches, EnvLawful, SealToken;
    if n > 0 {
      var after := SealAll(env, rows, draw);
      SameScan(env, rows, draw, token, n - 1);
      SealingIsInvisible(env, rows[n - 1], draw(n - 1), token);
      assert after[..n][..n - 1] == after[..n - 1] && rows[..n][..n - 1] == rows[..n - 1];
    }
  }

  /** A run leaves no record's token in the clear exactly if it could seal every legacy token,
      and then a second run changes nothing. */
  lemma SecondRunConvertsNothing(env: Env, rows: seq<Row>, draw: nat -> Option<nat>)
    requires EnvLawful(env)
    ensures var after := SealAll(env, rows, draw);
            && ((forall i :: 0 <= i < |rows| && after[i].stored.Rec? ==>
                   after[i].stored.enc.tokenEnc != "" || after[i].stored.enc.token == "") <==>
                (forall i :: 0 <= i < |rows| && rows[i].stored.Rec? ==>
                   rows[i].stored.enc.tokenEnc != "" || rows[i].stored.enc.token == "" || draw(i).Some?))
            && ((forall i :: 0 <= i < |rows| ==> !Legacy(after[i].stored)) ==>
                forall again: nat -> Option<nat> :: SealAll(env, after, again) == after)
  {
    hide EnvLawful, SealToken;
    var after := SealAll(env, rows, draw);
    forall i | 0 <= i < |rows|
      ensures Legacy(after[i].stored) <==> Legacy(rows[i].stored) && draw(i).None?
    {
      SealingEndsLegacy(env, rows[i], draw(i));
    }
    if forall i :: 0 <= i < |rows| ==> !Legacy(after[i].stored) {
      forall again: nat -> Option<nat> ensures SealAll(env, after, again) == after {
        forall i | 0 <= i < |rows| ensures SealToken(env, after[i], again(i)) == after[i] {
          SealedRecordsStay(env, after[i], again(i));
        }
      }
    }
  }

  lemma SealingEndsLegacy(env: Env, r: Row, nonce: Option<nat>)
    requires EnvLawful(env)
    ensures Legacy(SealToken(env, r, nonce).stored) <==> Legacy(r.stored) && nonce.None?
  {
  }

  lemma SealedRecordsStay(env: Env, r: Row, nonce: Option<nat>)
    requires !Legacy(r.stored) || !LooksLegacy(r.stored)
    ensures SealToken(env, r, nonce) == r
  {
  }
}
