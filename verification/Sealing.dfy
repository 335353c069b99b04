/** What the stored records rely on in internal/crypto/cipher.go: sealing that opens again
    under the same key, and two keyed fingerprints. The primitives themselves are parameters
    and `Lawful` is all that is asked of them. */
module Sealing {
  import opened Prelude

  datatype Cipher = Cipher(
    seal: (nat, string) -> string,      // nonce and plaintext to text
    open: string -> Option<string>,     // None: corrupted text or another key
    mac: string -> string,              // lookup fingerprint
    macNew: string -> string)           // the same under the newer domain separator

  ghost predicate Lawful(c: Cipher) {
    && (forall n, p :: p != "" ==> c.seal(n, p) != "" && c.open(c.seal(n, p)) == Some(p))
    && (forall p :: c.mac(p) != "" && c.macNew(p) != "")
    && (forall p, q :: c.mac(p) == c.mac(q) ==> p == q)
    && (forall p, q :: c.macNew(p) == c.macNew(q) ==> p == q)
    && (forall p, q :: c.mac(p) != c.macNew(q))
  }

  /** Some cipher is lawful, so what is proved of lawful ones is proved of something. */
  lemma LawfulCipher() returns (c: Cipher)
    ensures Lawful(c)
  {
    c := Cipher((n, p) => "s" + p, t => if t != "" && t[0] == 's' then Some(t[1..]) else None, p => "m" + p, p => "n" + p);
    forall p: string, q: string
      ensures ("m" + p == "m" + q ==> p == q) && ("n" + p == "n" + q ==> p == q) && "m" + p != "n" + q
    {
      assert ("m" + p)[1..] == p && ("m" + q)[1..] == q && ("n" + p)[1..] == p && ("n" + q)[1..] == q;
      assert ("m" + p)[0] != ("n" + q)[0];
    }
    forall p: string ensures ("s" + p)[1..] == p {}
  }

  /** EncryptString; `nonce` is None when no randomness could be read. */
  function EncryptString(c: Cipher, nonce: Option<nat>, plain: string): Option<string> {
    if plain == "" then Some("") else if nonce.None? then None else Some(c.seal(nonce.value, plain))
  }

  function DecryptString(c: Cipher, text: string): Option<string> {
    if text == "" then Some("") else c.open(text)
  }

  function BlindIndex(c: Cipher, plain: string): string {
    if plain == "" then "" else c.mac(plain)
  }

  function BlindIndexNew(c: Cipher, plain: string): string {
    if plain == "" then "" else c.macNew(plain)
  }

  predicate MatchesBlindIndex(c: Cipher, stored: string, plain: string) {
    plain != "" && stored != "" && (stored == BlindIndex(c, plain) || stored == BlindIndexNew(c, plain))
  }

  lemma SealedTextOpens(c: Cipher, nonce: Option<nat>, plain: string)
    requires Lawful(c) && EncryptString(c, nonce, plain).Some?
    ensures var text := EncryptString(c, nonce, plain).value;
            DecryptString(c, text) == Some(plain) && (text == "" <==> plain == "")
  {
  }

  /** Two secrets are told apart by their fingerprints, and a fingerprint of one kind is
      never mistaken for the other. */
  lemma FingerprintsSeparate(c: Cipher, p: string, q: string)
    requires Lawful(c) && p != "" && q != ""
    ensures (BlindIndex(c, p) == BlindIndex(c, q) || BlindIndex(c, p) == BlindIndexNew(c, q)) <==> p == q
  {
  }

  /** A stored fingerprint of either kind names one secret. */
  lemma FingerprintNamesOneSecret(c: Cipher, stored: string, p: string, q: string)
    requires Lawful(c) && q != "" && MatchesBlindIndex(c, stored, p)
    ensures MatchesBlindIndex(c, stored, q) <==> p == q
  {
  }

  // ----- counting what a migration rewrote

  function Changed<T(==)>(before: seq<T>, after: seq<T>): set<nat>
    requires |before| == |after|
  {
    set i | 0 <= i < |before| && before[i] != after[i]
  }

  lemma NothingChanged<T>(rows: seq<T>)
    ensures |Changed(rows, rows)| == 0
  {
    assert Changed(rows, rows) == {};
  }

  lemma OneMoreChanged<T>(before: seq<T>, after: seq<T>, i: nat, value: T)
    requires i < |before| == |after| && after[i] == before[i] && value != before[i]
    ensures |Changed(before, after[i := value])| == |Changed(before, after)| + 1
  {
    assert Changed(before, after[i := value]) == Changed(before, after) + {i};
  }
}
