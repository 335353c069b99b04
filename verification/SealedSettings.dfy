/** Settings at rest (internal/database/setting_repo.go): a JSON text, either in the clear or
    behind an envelope prefix and sealed with the master key. */
module SealedSettings {
  import opened Prelude
  import opened Sealing

  const PREFIX := "jmdns:enc:v1:"
  const LEGACY_PREFIX := "hdns:enc:v1:"

  /** What a value is decoded into. Malformed text has a fallback for the first two. */
  datatype Target = RawMessage | Text | Struct(name: string)

  datatype Decoded =
    | Parsed(value: string)
    | Quoted(text: string)       // a raw message that quotes the text
    | Plain(text: string)        // a string target set to the text itself
    | BadJson
    | NoKey
    | WrongKey

  /** JSON, seen through the targets it is read into, and the schemas of known keys. */
  datatype Json = Json(
    marshal: string -> string,
    unmarshal: (Target, string) -> Option<string>,
    schemaOk: (string, Decoded) -> bool,
    authoritative: string -> bool)

  /** JSON text starts like no envelope. */
  ghost predicate JsonLawful(j: Json) {
    forall v :: !HasEnvelopePrefix(j.marshal(v))
  }

  predicate HasEnvelopePrefix(data: string) {
    PREFIX <= data || LEGACY_PREFIX <= data
  }

  /** Some JSON is lawful. */
  lemma LawfulJson() returns (j: Json)
    ensures JsonLawful(j)
  {
    j := Json(v => "{" + v, (t, text) => None, (key, d) => true, key => true);
    forall v: string ensures !HasEnvelopePrefix("{" + v) {
      assert ("{" + v)[0] != PREFIX[0] && ("{" + v)[0] != LEGACY_PREFIX[0];
    }
  }

  function EnvelopeBody(data: string): Option<string> {
    if PREFIX <= data then Some(data[|PREFIX|..])
    else if LEGACY_PREFIX <= data then Some(data[|LEGACY_PREFIX|..])
    else None
  }

  function EncodeSetting(j: Json, cipher: Option<Cipher>, nonce: Option<nat>, value: string): Option<string> {
    var data := j.marshal(value);
    if cipher.None? then Some(data)
    else match EncryptString(cipher.value, nonce, data)
         case None => None
         case Some(text) => Some(PREFIX + text)
  }

  /** Unmarshalling with the fallbacks for text that is not JSON. */
  function Read(j: Json, text: string, t: Target): Decoded {
    match j.unmarshal(t, text)
    case Some(v) => Parsed(v)
    case None => if t.RawMessage? then Quoted(text) else if t.Text? then Plain(text) else BadJson
  }

  function DecodeSetting(j: Json, cipher: Option<Cipher>, data: string, t: Target): Decoded {
    match EnvelopeBody(data)
    case None => Read(j, data, t)
    case Some(body) =>
      if cipher.None? then NoKey
      else match DecryptString(cipher.value, body)
           case None => WrongKey
           case Some(plain) => Read(j, plain, t)
  }

  lemma EnvelopeOpens(body: string)
    ensures EnvelopeBody(PREFIX + body) == Some(body) && HasEnvelopePrefix(PREFIX + body)
  {
    assert (PREFIX + body)[|PREFIX|..] == body;
    assert PREFIX <= PREFIX + body;
  }

  /** A saved setting reads back as the JSON that was saved would, with a key loaded or without
      one; only a key loaded at save time makes reading depend on having it. */
  lemma DecodeInvertsEncode(j: Json, saving: Option<Cipher>, reading: Option<Cipher>, nonce: Option<nat>,
                            value: string, t: Target)
    requires JsonLawful(j) && (saving.Some? ==> Lawful(saving.value))
    requires EncodeSetting(j, saving, nonce, value).Some?
    ensures var data := EncodeSetting(j, saving, nonce, value).value;
            && (saving.None? || reading == saving ==>
                  DecodeSetting(j, reading, data, t) == Read(j, j.marshal(value), t))
            && (saving.Some? && reading.None? ==> DecodeSetting(j, reading, data, t) == NoKey)
  {
    hide Lawful, EncryptString, DecryptString;
    if saving.Some? {
      SealedTextOpens(saving.value, nonce, j.marshal(value));
      EnvelopeOpens(EncryptString(saving.value, nonce, j.marshal(value)).value);
    }
  }

  /** Saving fails only where a key is loaded and no randomness could be read for a text; without a
      key the JSON itself is stored. */
  lemma EncodeFailsIff(j: Json, cipher: Option<Cipher>, nonce: Option<nat>, value: string)
    ensures EncodeSetting(j, cipher, nonce, value).None? <==> cipher.Some? && nonce.None? && j.marshal(value) != ""
    ensures cipher.None? ==> EncodeSetting(j, cipher, nonce, value) == Some(j.marshal(value))
  {
  }

  /** Either prefix opens the same envelope; without the key, or under another one, it is refused. */
  lemma BothEnvelopesOpen(j: Json, c: Cipher, body: string, t: Target)
    ensures DecodeSetting(j, Some(c), PREFIX + body, t) == DecodeSetting(j, Some(c), LEGACY_PREFIX + body, t)
    ensures DecodeSetting(j, None, PREFIX + body, t) == DecodeSetting(j, None, LEGACY_PREFIX + body, t) == NoKey
    ensures body != "" && c.open(body).None? ==> DecodeSetting(j, Some(c), LEGACY_PREFIX + body, t) == WrongKey
    ensures body != "" && c.open(body).Some? ==>
              DecodeSetting(j, Some(c), LEGACY_PREFIX + body, t) == Read(j, c.open(body).value, t)
  {
    assert (PREFIX + body)[|PREFIX|..] == body && (LEGACY_PREFIX + body)[|LEGACY_PREFIX|..] == body;
    assert PREFIX <= PREFIX + body && LEGACY_PREFIX <= LEGACY_PREFIX + body;
    assert (LEGACY_PREFIX + body)[0] != PREFIX[0];
  }

  /** What JSON there is, is parsed. Text that is none is quoted into a raw message, taken as it is
      by a string, and refused by anything else. */
  lemma PlainTextReads(j: Json, text: string, t: Target)
    ensures j.unmarshal(t, text).Some? ==> Read(j, text, t) == Parsed(j.unmarshal(t, text).value)
    ensures j.unmarshal(t, text).None? ==>
              && (t == RawMessage ==> Read(j, text, t) == Quoted(text))
              && (t == Text ==> Read(j, text, t) == Plain(text))
              && (t.Struct? ==> Read(j, text, t) == BadJson)
  {
  }

  /** A value in the clear needs no key. */
  lemma ClearValuesNeedNoKey(j: Json, cipher: Option<Cipher>, data: string, t: Target)
    requires !(PREFIX <= data) && !(LEGACY_PREFIX <= data)
    ensures DecodeSetting(j, cipher, data, t) == Read(j, data, t)
  {
  }

  // ----- validation

  /** What ValidateSettings asks of one row. */
  predicate Validates(j: Json, cipher: Option<Cipher>, r: (string, string)) {
    var raw := DecodeSetting(j, cipher, r.1, RawMessage);
    j.authoritative(r.0) ==> !raw.NoKey? && !raw.WrongKey? && !raw.BadJson? && j.schemaOk(r.0, raw)
  }

  /** What validation refuses of a key it knows, and that it refuses nothing of any other: a value
      sealed and no key at hand, or another key, or a schema that does not fit. */
  lemma ValidationRefuses(j: Json, cipher: Option<Cipher>, key: string, data: string, body: string)
    ensures !j.authoritative(key) ==> Validates(j, cipher, (key, data))
    ensures j.authoritative(key) && cipher.None? ==>
              !Validates(j, cipher, (key, PREFIX + body)) && !Validates(j, cipher, (key, LEGACY_PREFIX + body))
    ensures j.authoritative(key) && cipher.Some? && body != "" && cipher.value.open(body).None? ==>
              !Validates(j, cipher, (key, PREFIX + body)) && !Validates(j, cipher, (key, LEGACY_PREFIX + body))
    ensures j.authoritative(key) && !(PREFIX <= data) && !(LEGACY_PREFIX <= data) ==>
              (Validates(j, cipher, (key, data)) <==> j.schemaOk(key, Read(j, data, RawMessage)))
  {
    assert (PREFIX + body)[|PREFIX|..] == body && (LEGACY_PREFIX + body)[|LEGACY_PREFIX|..] == body;
    assert PREFIX <= PREFIX + body && LEGACY_PREFIX <= LEGACY_PREFIX + body;
    assert (LEGACY_PREFIX + body)[0] != PREFIX[0];
  }

  // ----- the migration

  function SealSetting(c: Cipher, data: string, nonce: Option<nat>): string {
    if HasEnvelopePrefix(data) then data
    else match EncryptString(c, nonce, data)
         case None => data
         case Some(text) => PREFIX + text
  }

  function SealAll(c: Cipher, rows: seq<(string, string)>, draw: nat -> Option<nat>): seq<(string, string)> {
    seq(|rows|, i requires 0 <= i < |rows| => (rows[i].0, SealSetting(c, rows[i].1, draw(i))))
  }

  /** The collecting pass: the positions of the values still in the clear. */
  method CollectLegacy(rows: seq<(string, string)>) returns (legacy: seq<nat>)
    ensures forall i :: i in legacy <==> 0 <= i < |rows| && !HasEnvelopePrefix(rows[i].1)
    ensures forall a, b :: 0 <= a < b < |legacy| ==> legacy[a] < legacy[b]
  {
    legacy := [];
    for i := 0 to |rows|
      invariant forall j :: j in legacy <==> 0 <= j < i && !HasEnvelopePrefix(rows[j].1)
      invariant forall a, b :: 0 <= a < b < |legacy| ==> legacy[a] < legacy[b]
    {
      if !HasEnvelopePrefix(rows[i].1) {
        assert forall a :: 0 <= a < |legacy| ==> legacy[a] in legacy;
        legacy := legacy + [i];
      }
    }
  }

  method EncryptLegacySettings(c: Option<Cipher>, rows: seq<(string, string)>, draw: nat -> Option<nat>, rollsBack: bool)
    returns (after: seq<(string, string)>, converted: nat, failed: bool)
    ensures c.None? ==> after == rows && converted == 0 && !failed
    ensures c.Some? ==> after == if failed then rows else SealAll(c.value, rows, draw)
    ensures !failed ==> |after| == |rows| && converted == |Changed(rows, after)|
    ensures failed ==> rollsBack
  {
    hide HasEnvelopePrefix, EncryptString, Changed;
    after, converted, failed := rows, 0, false;
    NothingChanged(rows);
    if c.None? { return; }
    var legacy := CollectLegacy(rows);
    if |legacy| == 0 {
      forall i | 0 <= i < |rows| ensures (rows[i].0, SealSetting(c.value, rows[i].1, draw(i))) == rows[i] {
        assert i !in legacy;
      }
      assert SealAll(c.value, rows, draw) == rows;
      return;
    }
    for k := 0 to |legacy|
      invariant |after| == |rows| && converted == |Changed(rows, after)|
      invariant forall j :: 0 <= j < |rows| ==>
        after[j] == if j in legacy[..k] then (rows[j].0, SealSetting(c.value, rows[j].1, draw(j))) else rows[j]
    {
      var i := legacy[k];
      assert i in legacy && i !in legacy[..k];
      assert forall j :: j in legacy[..k + 1] <==> j in legacy[..k] || j == i;
      var text := EncryptString(c.value, draw(i), after[i].1);
      if text.Some? {
        EnvelopeOpens(text.value);
        assert (after[i].0, PREFIX + text.value) != rows[i];
        OneMoreChanged(rows, after, i, (after[i].0, PREFIX + text.value));
        after := after[i := (after[i].0, PREFIX + text.value)];
        converted := converted + 1;
      }
    }
    assert legacy[..|legacy|] == legacy;
    forall i | 0 <= i < |rows| && i !in legacy ensures SealSetting(c.value, rows[i].1, draw(i)) == rows[i].1 {}
    assert after == SealAll(c.value, rows, draw);
    if rollsBack { return rows, converted, true; }
  }

  /** Sealing one value changes what no target reads from it. */
  lemma SealingIsInvisible(j: Json, c: Cipher, data: string, nonce: Option<nat>, t: Target)
    requires Lawful(c)
    ensures DecodeSetting(j, Some(c), SealSetting(c, data, nonce), t) == DecodeSetting(j, Some(c), data, t)
  {
    hide Lawful, EncryptString, DecryptString, Read;
    if !HasEnvelopePrefix(data) && EncryptString(c, nonce, data).Some? {
      SealedTextOpens(c, nonce, data);
      EnvelopeOpens(EncryptString(c, nonce, data).value);
    }
  }

  /** Migration preserves meaning, for every store whatever: each value decodes as before
      into every target, so each row validates exactly if it did before. */
  lemma MigrationPreservesMeaning(j: Json, c: Cipher, rows: seq<(string, string)>, draw: nat -> Option<nat>)
    requires Lawful(c)
    ensures var after := SealAll(c, rows, draw);
            |after| == |rows| &&
            forall i :: 0 <= i < |rows| ==>
              && after[i].0 == rows[i].0
              && (forall t :: DecodeSetting(j, Some(c), after[i].1, t) == DecodeSetting(j, Some(c), rows[i].1, t))
              && (Validates(j, Some(c), after[i]) <==> Validates(j, Some(c), rows[i]))
  {
    hide Lawful, DecodeSetting, SealSetting;
    forall i, t | 0 <= i < |rows|
      ensures DecodeSetting(j, Some(c), SealAll(c, rows, draw)[i].1, t) == DecodeSetting(j, Some(c), rows[i].1, t)
    {
      SealingIsInvisible(j, c, rows[i].1, draw(i), t);
    }
  }

  /** A second run leaves every sealed value byte for byte as it is. */
  lemma SecondRunConvertsNothing(c: Cipher, rows: seq<(string, string)>, draw: nat -> Option<nat>, again: nat -> Option<nat>)
    requires forall i :: 0 <= i < |rows| && !(PREFIX <= rows[i].1) && !(LEGACY_PREFIX <= rows[i].1) ==> draw(i).Some?
    ensures SealAll(c, SealAll(c, rows, draw), again) == SealAll(c, rows, draw)
    ensures forall i :: 0 <= i < |rows| ==>
              var data := SealAll(c, rows, draw)[i].1; PREFIX <= data || LEGACY_PREFIX <= data
  {
    forall i | 0 <= i < |rows| ensures HasEnvelopePrefix(rows[i].1) <==> PREFIX <= rows[i].1 || LEGACY_PREFIX <= rows[i].1 {}
    var after := SealAll(c, rows, draw);
    forall i | 0 <= i < |rows| ensures HasEnvelopePrefix(after[i].1) {
      var data := rows[i].1;
      assert after[i].1 == SealSetting(c, data, draw(i));
      if !HasEnvelopePrefix(data) { EnvelopeOpens(EncryptString(c, draw(i), data).value); }
    }
    forall i | 0 <= i < |rows| ensures SealSetting(c, after[i].1, again(i)) == after[i].1 {}
  }
}
