/**
 * `validateClientIDFormat` (internal/sync/google_drive.go): a Google OAuth
 * client ID must match `^[0-9]+-[a-z0-9]+\.apps\.googleusercontent\.com$`.
 * Every class of the pattern is ASCII, so matching the UTF-8 bytes is the
 * same as matching the runes Go's regexp package decodes.
 */
module ClientId {
  import opened Base

  const Suffix := Lit(".apps.googleusercontent.com")
  const Hyphen: byte := 45

  predicate IsLowerAlnum(b: byte) {
    IsDigit(b) || (97 <= b <= 122)
  }

  predicate AllLowerAlnum(s: GoString) {
    forall i :: 0 <= i < |s| ==> IsLowerAlnum(s[i])
  }

  /** The pattern, as the set of strings  digits "-" lower-alnums Suffix. */
  ghost predicate MatchesPattern(s: GoString) {
    exists i, j :: 1 <= i && i + 1 < j && j + |Suffix| == |s|
      && AllDigits(s[..i]) && s[i] == Hyphen && AllLowerAlnum(s[i + 1..j]) && s[j..] == Suffix
  }

  /** The number of leading decimal digits. */
  function LeadingDigits(s: GoString): (n: nat)
    ensures n <= |s| && AllDigits(s[..n])
    ensures n < |s| ==> !IsDigit(s[n])
  {
    if |s| == 0 || !IsDigit(s[0]) then 0
    else
      var n := LeadingDigits(s[1..]) + 1;
      assert s[..n] == [s[0]] + s[1..][..n - 1];
      n
  }

  /** The digit run is determined: it ends at the first non-digit. */
  lemma {:induction false} LeadingDigitsExact(s: GoString, i: nat)
    requires i < |s| && AllDigits(s[..i]) && !IsDigit(s[i])
    ensures LeadingDigits(s) == i
  {
    if i > 0 {
      assert s[1..][..i - 1] == s[1..i];
      assert s[1..][i - 1] == s[i];
      LeadingDigitsExact(s[1..], i - 1);
    }
  }

  /** `validateClientIDFormat(clientID) == nil`. */
  predicate ValidClientId(s: GoString) {
    && |s| > |Suffix|
    && s[|s| - |Suffix|..] == Suffix
    && var body := s[..|s| - |Suffix|];
    && var n := LeadingDigits(body);
    && 1 <= n && n + 1 < |body| && body[n] == Hyphen && AllLowerAlnum(body[n + 1..])
  }

  /** Every accepted string matches the pattern. */
  lemma RecognizerSound(s: GoString)
    requires ValidClientId(s)
    ensures MatchesPattern(s)
  {
    var j := |s| - |Suffix|;
    var body := s[..j];
    var i := LeadingDigits(body);
    assert s[..i] == body[..i];
    assert s[i + 1..j] == body[i + 1..];
    assert s[i] == body[i];
  }

  /** Every string the pattern matches is accepted. */
  lemma RecognizerComplete(s: GoString)
    requires MatchesPattern(s)
    ensures ValidClientId(s)
  {
    var i, j :| 1 <= i && i + 1 < j && j + |Suffix| == |s|
      && AllDigits(s[..i]) && s[i] == Hyphen && AllLowerAlnum(s[i + 1..j]) && s[j..] == Suffix;
    var body := s[..j];
    assert body[..i] == s[..i] && body[i] == s[i];
    LeadingDigitsExact(body, i);
    assert body[i + 1..] == s[i + 1..j];
  }

  /** The recognizer accepts exactly the strings the pattern matches. */
  lemma RecognizerMatchesPattern(s: GoString)
    ensures ValidClientId(s) <==> MatchesPattern(s)
  {
    if ValidClientId(s) {
      RecognizerSound(s);
    }
    if MatchesPattern(s) {
      RecognizerComplete(s);
    }
  }

  /** The documented example is accepted. */
  lemma ExampleAccepted()
    ensures ValidClientId(Lit("123456789012") + [Hyphen] + Lit("abcdefghi") + Suffix)
  {
    var digits, middle := Lit("123456789012"), Lit("abcdefghi");
    ExampleDigits();
    ExampleMiddle();
    var body := digits + [Hyphen] + middle;
    var s := body + Suffix;
    assert s[..|s| - |Suffix|] == body;
    assert s[|s| - |Suffix|..] == Suffix;
    assert body[..12] == digits && body[13..] == middle && body[12] == Hyphen;
    LeadingDigitsExact(body, 12);
  }

  lemma ExampleDigits()
    ensures |Lit("123456789012")| == 12 && AllDigits(Lit("123456789012"))
  {
    var d := Lit("123456789012");
    forall i | 0 <= i < 12
      ensures IsDigit(d[i])
    {
      assert d[i] as int == "123456789012"[i] as int;
    }
  }

  lemma ExampleMiddle()
    ensures |Lit("abcdefghi")| == 9 && AllLowerAlnum(Lit("abcdefghi"))
  {
    var m := Lit("abcdefghi");
    forall i | 0 <= i < 9
      ensures IsLowerAlnum(m[i])
    {
      assert m[i] as int == "abcdefghi"[i] as int;
    }
  }

  /** The literal suffix is lower case: dots and the letters a to z. */
  lemma SuffixIsLowercase()
    ensures forall i :: 0 <= i < |Suffix| ==> !(65 <= Suffix[i] <= 90)
  {
    forall i | 0 <= i < |Suffix|
      ensures !(65 <= Suffix[i] <= 90)
    {
      assert Suffix[i] as int == ".apps.googleusercontent.com"[i] as int;
    }
  }

  /** No accepted ID contains an uppercase ASCII letter. */
  lemma NoUppercase(s: GoString, k: nat)
    requires ValidClientId(s) && k < |s|
    ensures !(65 <= s[k] <= 90)
  {
    var j := |s| - |Suffix|;
    var body := s[..j];
    var n := LeadingDigits(body);
    if k >= j {
      SuffixIsLowercase();
      assert s[k] == Suffix[k - j];
    } else if k < n {
      assert s[k] == body[..n][k];
    } else if k > n {
      assert s[k] == body[n + 1..][k - n - 1];
    }
  }
}
