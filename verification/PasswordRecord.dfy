/** The administrator's password record, "pbkdf2-sha256$<iterations>$<salt>$<hash>"
    (internal/crypto/password.go): how it is printed, and that it parses back. The key
    derivation is a parameter. Base64 is RFC 4648 section 4 without the padding of
    section 3.2. */
module PasswordRecord {
  import opened Prelude
  import opened Text

  type byte = n: int | 0 <= n < 256

  // ----- base64

  /** The character for a 6-bit value. */
  function Letter(v: int): (c: char)
    requires 0 <= v < 64
    ensures c != '$' && c != '\n' && c != '\r'
  {
    if v < 26 then 'A' + v as char
    else if v < 52 then 'a' + (v - 26) as char
    else if v < 62 then '0' + (v - 52) as char
    else if v == 62 then '+' else '/'
  }

  function Digit(c: char): (v: int)
    ensures v == -1 || 0 <= v < 64
  {
    if 'A' <= c <= 'Z' then (c - 'A') as int
    else if 'a' <= c <= 'z' then (c - 'a') as int + 26
    else if '0' <= c <= '9' then (c - '0') as int + 52
    else if c == '+' then 62 else if c == '/' then 63 else -1
  }

  lemma DigitOfLetter(v: int)
    requires 0 <= v < 64
    ensures Digit(Letter(v)) == v
  {
  }

  function Encode(b: seq<byte>): string {
    if |b| == 0 then ""
    else if |b| == 1 then [Letter(b[0] / 4), Letter(b[0] % 4 * 16)]
    else if |b| == 2 then [Letter(b[0] / 4), Letter(b[0] % 4 * 16 + b[1] / 16), Letter(b[1] % 16 * 4)]
    else [Letter(b[0] / 4), Letter(b[0] % 4 * 16 + b[1] / 16), Letter(b[1] % 16 * 4 + b[2] / 64), Letter(b[2] % 64)]
         + Encode(b[3..])
  }

  /** Decoding skips line breaks wherever they stand. */
  function StripLineBreaks(s: string): string {
    if s == "" then ""
    else (if s[0] == '\n' || s[0] == '\r' then [] else [s[0]]) + StripLineBreaks(s[1..])
  }

  predicate AllDigits(s: string) {
    forall i :: 0 <= i < |s| ==> Digit(s[i]) >= 0
  }

  /** A lone last character is an error; the spare bits of a short last group are ignored. */
  function DecodeGroups(s: string): Option<seq<byte>>
    requires AllDigits(s)
  {
    if |s| == 0 then Some([])
    else if |s| == 1 then None
    else
      var b0 := Digit(s[0]) * 4 + Digit(s[1]) / 16;
      if |s| == 2 then Some([b0])
      else
        var b1 := Digit(s[1]) % 16 * 16 + Digit(s[2]) / 4;
        if |s| == 3 then Some([b0, b1])
        else
          var b2 := Digit(s[2]) % 4 * 64 + Digit(s[3]);
          assert AllDigits(s[4..]);
          match DecodeGroups(s[4..])
          case None => None
          case Some(rest) => Some([b0, b1, b2] + rest)
  }

  function Decode(s: string): Option<seq<byte>> {
    var t := StripLineBreaks(s);
    if AllDigits(t) then DecodeGroups(t) else None
  }

  lemma {:induction false} StripNothing(s: string)
    requires forall i :: 0 <= i < |s| ==> s[i] != '\n' && s[i] != '\r'
    ensures StripLineBreaks(s) == s
  {
    if s != "" { StripNothing(s[1..]); }
  }

  lemma {:induction false} EncodedLetters(b: seq<byte>)
    ensures forall i :: 0 <= i < |Encode(b)| ==>
              Encode(b)[i] != '$' && Encode(b)[i] != '\n' && Encode(b)[i] != '\r' && Digit(Encode(b)[i]) >= 0
    ensures Encode(b) == "" <==> b == []
    decreases |b|
  {
    hide Letter, Digit;
    if |b| == 1 {
      DigitOfLetter(b[0] / 4); DigitOfLetter(b[0] % 4 * 16);
    } else if |b| == 2 {
      DigitOfLetter(b[0] / 4); DigitOfLetter(b[0] % 4 * 16 + b[1] / 16); DigitOfLetter(b[1] % 16 * 4);
    } else if |b| >= 3 {
      DigitOfLetter(b[0] / 4); DigitOfLetter(b[0] % 4 * 16 + b[1] / 16);
      DigitOfLetter(b[1] % 16 * 4 + b[2] / 64); DigitOfLetter(b[2] % 64);
      EncodedLetters(b[3..]);
    }
  }

  /** The bits of three bytes, regrouped by six and back. */
  lemma Regroup(b0: byte, b1: byte, b2: byte)
    ensures b0 / 4 * 4 + (b0 % 4 * 16 + b1 / 16) / 16 == b0
    ensures (b0 % 4 * 16 + b1 / 16) % 16 * 16 + (b1 % 16 * 4 + b2 / 64) / 4 == b1
    ensures (b1 % 16 * 4 + b2 / 64) % 4 * 64 + b2 % 64 == b2
  {
  }

  lemma DecodedGroup(b0: byte, b1: byte, b2: byte, rest: string)
    requires AllDigits(rest)
    ensures var s := [Letter(b0 / 4), Letter(b0 % 4 * 16 + b1 / 16), Letter(b1 % 16 * 4 + b2 / 64), Letter(b2 % 64)];
            && AllDigits(s + rest)
            && DecodeGroups(s + rest) == (match DecodeGroups(rest)
                                          case None => None
                                          case Some(more) => Some([b0, b1, b2] + more))
  {
    hide Letter, Digit;
    DigitOfLetter(b0 / 4); DigitOfLetter(b0 % 4 * 16 + b1 / 16);
    DigitOfLetter(b1 % 16 * 4 + b2 / 64); DigitOfLetter(b2 % 64);
    Regroup(b0, b1, b2);
    var s := [Letter(b0 / 4), Letter(b0 % 4 * 16 + b1 / 16), Letter(b1 % 16 * 4 + b2 / 64), Letter(b2 % 64)] + rest;
    assert s[4..] == rest;
    assert AllDigits(s);
  }

  lemma DecodedPair(b0: byte, b1: byte)
    ensures var s := [Letter(b0 / 4), Letter(b0 % 4 * 16 + b1 / 16), Letter(b1 % 16 * 4)];
            AllDigits(s) && DecodeGroups(s) == Some([b0, b1])
  {
    hide Letter, Digit;
    DigitOfLetter(b0 / 4); DigitOfLetter(b0 % 4 * 16 + b1 / 16); DigitOfLetter(b1 % 16 * 4);
    Regroup(b0, b1, 0);
  }

  lemma DecodedSingle(b0: byte)
    ensures var s := [Letter(b0 / 4), Letter(b0 % 4 * 16)];
            AllDigits(s) && DecodeGroups(s) == Some([b0])
  {
    hide Letter, Digit;
    DigitOfLetter(b0 / 4); DigitOfLetter(b0 % 4 * 16);
    Regroup(b0, 0, 0);
  }

  lemma {:induction false} GroupsRoundTrip(b: seq<byte>)
    ensures AllDigits(Encode(b)) && DecodeGroups(Encode(b)) == Some(b)
    decreases |b|
  {
    hide Letter, Digit, DecodeGroups, AllDigits;
    if |b| == 0 {
      NoGroups();
    } else if |b| == 1 {
      DecodedSingle(b[0]);
      assert b == [b[0]];
    } else if |b| == 2 {
      DecodedPair(b[0], b[1]);
      assert b == [b[0], b[1]];
    } else {
      GroupsRoundTrip(b[3..]);
      DecodedGroup(b[0], b[1], b[2], Encode(b[3..]));
      assert b == [b[0], b[1], b[2]] + b[3..];
    }
  }

  lemma NoGroups()
    ensures AllDigits("") && DecodeGroups("") == Some([])
  {
  }

  /** Every byte string decodes from its encoding. */
  lemma Base64RoundTrip(b: seq<byte>)
    ensures Decode(Encode(b)) == Some(b)
  {
    EncodedLetters(b);
    StripNothing(Encode(b));
    GroupsRoundTrip(b);
  }

  /** The alphabet has 64 characters, each the letter of one value. */
  lemma AlphabetIs(c: char, v: int)
    ensures Digit(c) == v && v >= 0 <==> 0 <= v < 64 && c == Letter(v)
  {
  }

  lemma {:induction false} LineBreakDrops(a: string, c: char, b: string)
    requires c == '\n' || c == '\r'
    ensures StripLineBreaks(a + [c] + b) == StripLineBreaks(a + b)
  {
    var with, without := a + [c] + b, a + b;
    if a == "" {
      assert with[1..] == b && without == b;
    } else {
      LineBreakDrops(a[1..], c, b);
      assert with[1..] == a[1..] + [c] + b && without[1..] == a[1..] + b;
    }
  }

  /** A line break, of either kind and wherever it stands, is as good as absent. */
  lemma LineBreaksAreSkipped(a: string, c: char, b: string)
    requires c == '\n' || c == '\r'
    ensures Decode(a + [c] + b) == Decode(a + b)
  {
    hide StripLineBreaks, DecodeGroups, AllDigits;
    LineBreakDrops(a, c, b);
  }

  /** What decodes: text that, line breaks apart, is of the alphabet and leaves no lone character. */
  lemma DecodesIff(s: string)
    ensures Decode(s).Some? <==> AllDigits(StripLineBreaks(s)) && |StripLineBreaks(s)| % 4 != 1
  {
    if AllDigits(StripLineBreaks(s)) { GroupsDecodeIff(StripLineBreaks(s)); }
  }

  lemma {:induction false} GroupsDecodeIff(t: string)
    requires AllDigits(t)
    ensures DecodeGroups(t).Some? <==> |t| % 4 != 1
    decreases |t|
  {
    hide Digit;
    if |t| >= 4 {
      assert AllDigits(t[4..]);
      GroupsDecodeIff(t[4..]);
    }
  }

  /** The vectors of RFC 4648, section 10, without their padding, and the two last letters. */
  lemma PublishedVectors()
    ensures Encode([102]) == "Zg" && Encode([102, 111]) == "Zm8" && Encode([102, 111, 111]) == "Zm9v"
    ensures Encode([102, 111, 111, 98]) == "Zm9vYg" && Encode([102, 111, 111, 98, 97, 114]) == "Zm9vYmFy"
    ensures Encode([251, 255]) == "+/8"
  {
    hide Encode, Letter;
    FirstVectors();
    EncodedTriple(102, 111, 111, []);
    EncodedTriple(102, 111, 111, [98]);
    EncodedTriple(102, 111, 111, [98, 97, 114]);
    EncodedTriple(98, 97, 114, []);
    VectorLetters();
    var foo, bar: seq<byte> := [102, 111, 111], [98, 97, 114];
    assert foo + [] == foo && bar + [] == bar;
    assert foo + [98] == [102, 111, 111, 98] && foo + bar == [102, 111, 111, 98, 97, 114];
  }

  lemma EncodedTriple(b0: byte, b1: byte, b2: byte, rest: seq<byte>)
    ensures Encode([b0, b1, b2] + rest) ==
            [Letter(b0 / 4), Letter(b0 % 4 * 16 + b1 / 16), Letter(b1 % 16 * 4 + b2 / 64), Letter(b2 % 64)] + Encode(rest)
  {
    hide Letter;
    assert ([b0, b1, b2] + rest)[3..] == rest;
  }

  lemma VectorLetters()
    ensures Letter(25) == 'Z' && Letter(38) == 'm' && Letter(61) == '9' && Letter(47) == 'v'
    ensures Letter(24) == 'Y' && Letter(5) == 'F' && Letter(50) == 'y'
  {
  }

  lemma FirstVectors()
    ensures Encode([]) == "" && Encode([102]) == "Zg" && Encode([102, 111]) == "Zm8"
    ensures Encode([98]) == "Yg" && Encode([251, 255]) == "+/8"
  {
  }

  // ----- decimal

  predicate IsInt64(n: int) { -0x8000_0000_0000_0000 <= n < 0x8000_0000_0000_0000 }

  predicate DecimalDigits(s: string) {
    forall i :: 0 <= i < |s| ==> '0' <= s[i] <= '9'
  }

  function ReadNat(s: string): nat
    requires DecimalDigits(s)
  {
    if s == "" then 0 else ReadNat(s[..|s| - 1]) * 10 + (s[|s| - 1] - '0') as nat
  }

  /** strconv.Atoi: an optional sign, at least one digit, nothing else, within 64 bits. */
  function Atoi(s: string): Option<int> {
    var signed := s != "" && (s[0] == '-' || s[0] == '+');
    var digits := if signed then s[1..] else s;
    if digits == "" || !DecimalDigits(digits) then None
    else
      var magnitude: int := ReadNat(digits);
      var n := if signed && s[0] == '-' then -magnitude else magnitude;
      if IsInt64(n) then Some(n) else None
  }

  lemma {:induction false} PrintedNat(n: nat)
    ensures PrintNat(n) != "" && DecimalDigits(PrintNat(n)) && ReadNat(PrintNat(n)) == n
  {
    if n < 10 {
      assert ReadNat(PrintNat(n)[..0]) == 0;
    } else {
      PrintedNat(n / 10);
      assert PrintNat(n)[..|PrintNat(n)| - 1] == PrintNat(n / 10);
    }
  }

  /** A printed integer parses back if it fits in 64 bits, and is refused if it does not. */
  lemma DecimalRoundTrip(n: int)
    ensures Atoi(PrintInt(n)) == if IsInt64(n) then Some(n) else None
    ensures NoDollar(PrintInt(n))
  {
    hide PrintNat, ReadNat, IsInt64;
    var m: nat := if n < 0 then -n else n;
    PrintedNat(m);
    assert ("-" + PrintNat(m))[1..] == PrintNat(m);
    assert DecimalDigits(PrintNat(m)) && PrintNat(m) != "";
  }

  predicate NoDollar(s: string) { forall i :: 0 <= i < |s| ==> s[i] != '$' }

  // ----- the record

  const SCHEME := "pbkdf2-sha256"
  const DEFAULT_ITERATIONS := 600_000
  const KEY_SIZE := 32
  const MAX_PASSWORD_LENGTH := 256

  datatype Record = Record(scheme: string, iterations: int, salt: seq<byte>, hash: seq<byte>)

  function Print(iterations: int, salt: seq<byte>, key: seq<byte>): string {
    SCHEME + "$" + PrintInt(iterations) + "$" + Encode(salt) + "$" + Encode(key)
  }

  /** strings.Split at every dollar sign. */
  function Split(s: string): seq<string> {
    if s == "" then [""]
    else
      var rest := Split(s[1..]);
      if s[0] == '$' then [""] + rest else [[s[0]] + rest[0]] + rest[1..]
  }

  /** splitPasswordHash. */
  function Parse(stored: string): Option<Record> {
    var parts := Split(stored);
    if |parts| != 4 || parts[0] != SCHEME then None
    else
      var iterations := Atoi(parts[1]);
      if iterations.None? || iterations.value < 1 || iterations.value > 20 * DEFAULT_ITERATIONS then None
      else
        var salt, hash := Decode(parts[2]), Decode(parts[3]);
        if salt.None? || salt.value == [] || hash.None? || hash.value == [] then None
        else Some(Record(parts[0], iterations.value, salt.value, hash.value))
  }

  function IsPasswordHash(stored: string): bool { Parse(stored).Some? }

  function Joined(parts: seq<string>): string
    requires parts != []
  { if |parts| == 1 then parts[0] else parts[0] + "$" + Joined(parts[1..]) }

  /** The fields are what stands between the dollar signs. */
  lemma {:induction false} SplitJoins(s: string)
    ensures Split(s) != [] && Joined(Split(s)) == s
    ensures forall i :: 0 <= i < |Split(s)| ==> NoDollar(Split(s)[i])
  {
    if s != "" {
      var rest := Split(s[1..]);
      SplitJoins(s[1..]);
      assert s == [s[0]] + s[1..];
      if s[0] == '$' {
        assert ([""] + rest)[1..] == rest;
      } else {
        var parts := [[s[0]] + rest[0]] + rest[1..];
        assert parts[1..] == rest[1..];
      }
    }
  }

  /** Whatever parses has four fields of this scheme, a cost this build accepts, and a salt and a
      key that are there. */
  lemma ParsedRecordsAreInBounds(stored: string)
    requires Parse(stored).Some?
    ensures var r := Parse(stored).value;
            && r.scheme == "pbkdf2-sha256" && 1 <= r.iterations <= 12_000_000 && r.salt != [] && r.hash != []
            && |Split(stored)| == 4 && Joined(Split(stored)) == stored
            && Decode(Split(stored)[2]) == Some(r.salt) && Decode(Split(stored)[3]) == Some(r.hash)
            && Atoi(Split(stored)[1]) == Some(r.iterations)
  {
    hide Atoi, Decode, Split;
    SplitJoins(stored);
  }

  lemma {:induction false} SplitField(field: string, rest: string)
    requires NoDollar(field)
    ensures Split(field + "$" + rest) == [field] + Split(rest)
  {
    var s := field + "$" + rest;
    if field == "" {
      assert s[1..] == rest;
    } else {
      assert s[1..] == field[1..] + "$" + rest;
      SplitField(field[1..], rest);
      assert s[0] == field[0] && [field[0]] + field[1..] == field;
    }
  }

  lemma {:induction false} SplitLast(field: string)
    requires NoDollar(field)
    ensures Split(field) == [field]
  {
    if field != "" {
      SplitLast(field[1..]);
      assert [field[0]] + field[1..] == field;
    }
  }

  lemma PrintedFields(iterations: int, salt: seq<byte>, key: seq<byte>)
    requires IsInt64(iterations)
    ensures Split(Print(iterations, salt, key)) == [SCHEME, PrintInt(iterations), Encode(salt), Encode(key)]
  {
    hide PrintInt, Encode, Split;
    DecimalRoundTrip(iterations);
    EncodedLetters(salt);
    EncodedLetters(key);
    var last := Encode(key);
    var tail := Encode(salt) + "$" + last;
    var middle := PrintInt(iterations) + "$" + tail;
    assert Print(iterations, salt, key) == SCHEME + "$" + middle;
    SplitField(SCHEME, middle);
    SplitField(PrintInt(iterations), tail);
    SplitField(Encode(salt), last);
    SplitLast(last);
  }

  /** The record parses back to exactly what was printed, if and only if the cost is one this
      build accepts and neither the salt nor the key is empty; otherwise it is refused. */
  lemma PrintedRecordParsesIff(iterations: int, salt: seq<byte>, key: seq<byte>)
    requires IsInt64(iterations)
    ensures Parse(Print(iterations, salt, key)) ==
            if 1 <= iterations <= 20 * DEFAULT_ITERATIONS && salt != [] && key != []
            then Some(Record(SCHEME, iterations, salt, key)) else None
  {
    hide PrintInt, Atoi, Encode, Decode, Split;
    PrintedFields(iterations, salt, key);
    DecimalRoundTrip(iterations);
    Base64RoundTrip(salt);
    Base64RoundTrip(key);
  }

  // ----- verifying

  type Kdf = (string, seq<byte>, int, nat) -> seq<byte>

  /** VerifyPassword: a record this build cannot parse is compared as a legacy plaintext. */
  function VerifyPassword(kdf: Kdf, stored: string, plaintext: string): bool {
    if stored == "" || plaintext == "" || |plaintext| > MAX_PASSWORD_LENGTH then false
    else match Parse(stored)
         case None => stored == plaintext
         case Some(r) => r.hash == kdf(plaintext, r.salt, r.iterations, |r.hash|)
  }

  /** A hash verifies exactly the submissions that derive the same key; in particular the
      password it was made from, at every cost, and never the empty one. */
  lemma HashVerifiesItsPassword(kdf: Kdf, password: string, attempt: string, iterations: int, salt: seq<byte>)
    requires 1 <= iterations <= 20 * DEFAULT_ITERATIONS && salt != []
    requires |kdf(password, salt, iterations, KEY_SIZE)| == KEY_SIZE
    ensures var stored := Print(iterations, salt, kdf(password, salt, iterations, KEY_SIZE));
            && IsPasswordHash(stored)
            && (VerifyPassword(kdf, stored, attempt) <==>
                attempt != "" && |attempt| <= MAX_PASSWORD_LENGTH
                && kdf(attempt, salt, iterations, KEY_SIZE) == kdf(password, salt, iterations, KEY_SIZE))
  {
    hide Parse, PrintInt, Encode;
    PrintedRecordParsesIff(iterations, salt, kdf(password, salt, iterations, KEY_SIZE));
  }

  /** What is no hash is compared as it is; nothing is verified against an empty record, by an
      empty submission or by one that is too long. */
  lemma LegacyPlaintextVerifies(kdf: Kdf, stored: string, attempt: string)
    ensures !IsPasswordHash(stored) ==>
              (VerifyPassword(kdf, stored, attempt) <==> stored == attempt && attempt != "" && |attempt| <= 256)
    ensures VerifyPassword(kdf, stored, attempt) ==> stored != "" && attempt != "" && |attempt| <= 256
  {
    hide Parse;
  }
}
