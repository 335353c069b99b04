/** The string operations the components share: surrounding white space dropped, letters
    folded to lower case, and integers printed in decimal. */
module Text {

  predicate IsSpace(c: char) {
    c == ' ' || '\t' <= c <= '\r' || c == 0x85 as char || c == 0xA0 as char
  }

  function TrimLeft(s: string): string {
    if s != "" && IsSpace(s[0]) then TrimLeft(s[1..]) else s
  }

  function TrimRight(s: string): string {
    if s != "" && IsSpace(s[|s| - 1]) then TrimRight(s[..|s| - 1]) else s
  }

  function TrimSpace(s: string): string {
    TrimRight(TrimLeft(s))
  }

  function LowerChar(c: char): char {
    if 'A' <= c <= 'Z' then c - 'A' + 'a' else c
  }

  function ToLower(s: string): string {
    seq(|s|, i requires 0 <= i < |s| => LowerChar(s[i]))
  }

  function PrintNat(n: nat): string {
    if n < 10 then ['0' + n as char] else PrintNat(n / 10) + ['0' + (n % 10) as char]
  }

  function PrintInt(n: int): string {
    if n < 0 then "-" + PrintNat(-n) else PrintNat(n)
  }

  // ----- what they promise

  predicate AllSpace(s: string) { forall i :: 0 <= i < |s| ==> IsSpace(s[i]) }

  predicate Trimmed(s: string) { s == "" || (!IsSpace(s[0]) && !IsSpace(s[|s| - 1])) }

  lemma SpacesAre(c: char)
    ensures IsSpace(c) <==> c in {' ', '\t', '\n', 11 as char, 12 as char, '\r', 0x85 as char, 0xA0 as char}
  {
  }

  lemma {:induction false} TrimLeftDrops(pre: string, s: string)
    requires AllSpace(pre) && (s == "" || !IsSpace(s[0]))
    ensures TrimLeft(pre + s) == s
  {
    hide IsSpace;
    if pre == "" {
      assert pre + s == s;
    } else {
      assert (pre + s)[1..] == pre[1..] + s;
      TrimLeftDrops(pre[1..], s);
    }
  }

  lemma {:induction false} TrimRightDrops(s: string, post: string)
    requires AllSpace(post) && (s == "" || !IsSpace(s[|s| - 1]))
    ensures TrimRight(s + post) == s
  {
    hide IsSpace;
    if post == "" {
      assert s + post == s;
    } else {
      assert (s + post)[..|s + post| - 1] == s + post[..|post| - 1];
      TrimRightDrops(s, post[..|post| - 1]);
    }
  }

  /** Whatever surrounds a text that neither starts nor ends with white space is dropped, and
      nothing else. */
  lemma PaddingIsDropped(pre: string, s: string, post: string)
    requires AllSpace(pre) && AllSpace(post) && Trimmed(s)
    ensures TrimSpace(pre + s + post) == s
  {
    hide IsSpace, TrimLeft, TrimRight;
    if s == "" {
      assert pre + s + post == (pre + post) + "";
      TrimLeftDrops(pre + post, "");
      TrimRightDrops("", "");
      assert "" + "" == "";
    } else {
      assert pre + s + post == pre + (s + post);
      TrimLeftDrops(pre, s + post);
      TrimRightDrops(s, post);
    }
  }

  lemma {:induction false} TrimLeftSplits(s: string) returns (pre: string)
    ensures AllSpace(pre) && s == pre + TrimLeft(s) && (TrimLeft(s) == "" || !IsSpace(TrimLeft(s)[0]))
  {
    hide IsSpace;
    if s != "" && IsSpace(s[0]) {
      var rest := TrimLeftSplits(s[1..]);
      pre := [s[0]] + rest;
      assert s == [s[0]] + s[1..];
    } else {
      pre := "";
    }
  }

  lemma {:induction false} TrimRightSplits(s: string) returns (post: string)
    ensures AllSpace(post) && s == TrimRight(s) + post && (TrimRight(s) == "" || !IsSpace(TrimRight(s)[|TrimRight(s)| - 1]))
  {
    hide IsSpace;
    if s != "" && IsSpace(s[|s| - 1]) {
      var rest := TrimRightSplits(s[..|s| - 1]);
      post := rest + [s[|s| - 1]];
      assert s == s[..|s| - 1] + [s[|s| - 1]];
    } else {
      post := "";
    }
  }

  /** Every text is its trimmed form between white space. */
  lemma TrimSpaceSplits(s: string) returns (pre: string, post: string)
    ensures AllSpace(pre) && AllSpace(post) && Trimmed(TrimSpace(s)) && s == pre + TrimSpace(s) + post
  {
    hide IsSpace, TrimLeft, TrimRight;
    pre := TrimLeftSplits(s);
    var left := TrimLeft(s);
    post := TrimRightSplits(left);
    if TrimSpace(s) != "" { assert TrimSpace(s)[0] == left[0]; }
  }

  /** Folding moves the 26 capitals to their small letters and leaves everything else. */
  lemma LowerCaseIs(s: string)
    ensures |ToLower(s)| == |s| && ToLower(ToLower(s)) == ToLower(s)
    ensures forall i :: 0 <= i < |s| ==>
              if 'A' <= s[i] <= 'Z' then 'a' <= ToLower(s)[i] <= 'z' && ToLower(s)[i] - 'a' == s[i] - 'A'
              else ToLower(s)[i] == s[i]
    ensures ToLower("PROXY") == "proxy"
  {
  }

  /** Decimal, most significant digit first, with no leading zero. */
  lemma AppendedDigit(n: nat, d: nat)
    requires d < 10
    ensures PrintNat(10 * n + d) == (if n == 0 then "" else PrintNat(n)) + ["0123456789"[d]]
  {
    assert (10 * n + d) / 10 == n && (10 * n + d) % 10 == d;
    assert ["0123456789"[d]] == ['0' + d as char];
  }

  lemma PrintsDecimal()
    ensures PrintInt(0) == "0" && PrintInt(600) == "600" && PrintInt(-42) == "-42"
  {
    hide PrintNat;
    AppendedDigit(0, 0);
    AppendedDigit(0, 6); AppendedDigit(6, 0); AppendedDigit(60, 0);
    AppendedDigit(0, 4); AppendedDigit(4, 2);
  }
}
