/**
 * The file name the upload middleware gives a stored document (server.ts):
 * the upload time in milliseconds, written in decimal, then "-", then the
 * client's original file name.
 */
module UploadNaming {
  import opened Wrappers

  /** The destination directory handed to the disk storage. */
  const UploadDir := "uploads/"

  predicate IsDigit(c: char) { '0' <= c <= '9' }

  predicate AllDigits(s: string) { forall i :: 0 <= i < |s| ==> IsDigit(s[i]) }

  function DigitChar(d: nat): (c: char)
    requires d < 10
    ensures IsDigit(c)
  {
    ('0' as int + d) as char
  }

  function DigitValue(c: char): (d: nat)
    requires IsDigit(c)
    ensures d < 10 && DigitChar(d) == c
  {
    c as int - '0' as int
  }

  /**
   * How JavaScript renders a millisecond timestamp: decimal, no leading
   * zeros (exponent notation only starts at 10^21, far beyond any clock).
   */
  function Decimal(n: nat): (s: string)
    ensures |s| >= 1 && AllDigits(s)
    ensures |s| > 1 ==> s[0] != '0'
    decreases n
  {
    if n < 10 then [DigitChar(n)] else Decimal(n / 10) + [DigitChar(n % 10)]
  }

  function ParseDecimal(s: string): nat
    requires AllDigits(s)
  {
    if s == [] then 0 else ParseDecimal(s[..|s| - 1]) * 10 + DigitValue(s[|s| - 1])
  }

  lemma {:induction false} ParseDecimalRoundTrip(n: nat)
    ensures ParseDecimal(Decimal(n)) == n
    decreases n
  {
    if n >= 10 {
      var s := Decimal(n);
      assert s[..|s| - 1] == Decimal(n / 10);
      ParseDecimalRoundTrip(n / 10);
    }
  }

  /** `Date.now() + "-" + file.originalname`. */
  function UploadName(millis: nat, originalName: string): (r: string)
    ensures |r| > |originalName| + 1
    ensures r[|r| - |originalName| - 1..] == "-" + originalName
    ensures AllDigits(r[..|r| - |originalName| - 1])
  {
    var d := Decimal(millis);
    assert (d + "-" + originalName)[..|d|] == d;
    d + "-" + originalName
  }

  /** The path the middleware reports for the stored file. */
  function StoredPath(millis: nat, originalName: string): (path: string)
    ensures |path| == |UploadDir| + |UploadName(millis, originalName)|
    ensures path[..|UploadDir|] == UploadDir
    ensures path[|UploadDir|..] == UploadName(millis, originalName)
  {
    UploadDir + UploadName(millis, originalName)
  }

  /** Number of leading decimal digits of `s`. */
  function DigitPrefixLength(s: string): (k: nat)
    ensures k <= |s| && AllDigits(s[..k])
    ensures k < |s| ==> !IsDigit(s[k])
  {
    if s == [] || !IsDigit(s[0]) then 0
    else
      var k := 1 + DigitPrefixLength(s[1..]);
      assert s[..k] == [s[0]] + s[1..][..k - 1];
      k
  }

  /** Recovers the timestamp and the original name from a stored name. */
  function SplitUploadName(name: string): Option<(nat, string)>
  {
    var k := DigitPrefixLength(name);
    if 0 < k < |name| && name[k] == '-' then Some((ParseDecimal(name[..k]), name[k + 1..]))
    else None
  }

  lemma {:induction false} DigitPrefixOfDigits(d: string, rest: string)
    requires AllDigits(d)
    requires rest != [] && !IsDigit(rest[0])
    ensures DigitPrefixLength(d + rest) == |d|
  {
    if d != [] {
      assert (d + rest)[1..] == d[1..] + rest;
      DigitPrefixOfDigits(d[1..], rest);
    } else {
      assert d + rest == rest;
    }
  }

  /** The stored name determines the timestamp and the original name. */
  lemma SplitUploadNameRoundTrip(millis: nat, originalName: string)
    ensures SplitUploadName(UploadName(millis, originalName)) == Some((millis, originalName))
  {
    var d := Decimal(millis);
    var name := UploadName(millis, originalName);
    assert name == d + ("-" + originalName);
    DigitPrefixOfDigits(d, "-" + originalName);
    assert name[..|d|] == d;
    assert name[|d| + 1..] == originalName;
    ParseDecimalRoundTrip(millis);
  }

  /** Two uploads collide on disk exactly when both the millisecond and the original name agree. */
  lemma UploadNameCollision(m1: nat, n1: string, m2: nat, n2: string)
    ensures UploadName(m1, n1) == UploadName(m2, n2) <==> m1 == m2 && n1 == n2
  {
    SplitUploadNameRoundTrip(m1, n1);
    SplitUploadNameRoundTrip(m2, n2);
  }
}
