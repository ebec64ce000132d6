/** The few java.lang.String operations the transfer engine relies on: trim(), decimal
    rendering of an int, lastIndexOf(char) and contains(".."). */
module Text {

  /** String.trim() treats every char up to U+0020 as white space. */
  predicate IsTrimmed(c: char) { c as int <= 0x20 }

  /** The first index at or after i that holds a char trim() keeps, or |s|. */
  function KeptFrom(s: string, i: nat): (k: nat)
    requires i <= |s|
    ensures i <= k <= |s|
    ensures forall j :: i <= j < k ==> IsTrimmed(s[j])
    ensures k < |s| ==> !IsTrimmed(s[k])
    decreases |s| - i
  {
    if i == |s| || !IsTrimmed(s[i]) then i else KeptFrom(s, i + 1)
  }

  /** The end (exclusive) of the kept region when scanning down from j, never below lo. */
  function KeptUntil(s: string, lo: nat, j: nat): (k: nat)
    requires lo <= j <= |s|
    ensures lo <= k <= j
    ensures forall m :: k <= m < j ==> IsTrimmed(s[m])
    ensures k > lo ==> !IsTrimmed(s[k - 1])
    decreases j
  {
    if j == lo || !IsTrimmed(s[j - 1]) then j else KeptUntil(s, lo, j - 1)
  }

  /** String.trim(): s without its leading and trailing white space. */
  function Trim(s: string): (r: string)
    ensures |r| <= |s|
    ensures r != [] ==> !IsTrimmed(r[0]) && !IsTrimmed(r[|r| - 1])
    ensures forall c :: c in r && IsTrimmed(c) ==> c in s
    ensures exists i, k ::
              && 0 <= i <= k <= |s| && r == s[i..k]
              && (forall j :: 0 <= j < i ==> IsTrimmed(s[j]))
              && (forall j :: k <= j < |s| ==> IsTrimmed(s[j]))
  {
    var i := KeptFrom(s, 0);
    s[i..KeptUntil(s, i, |s|)]
  }

  /** A string is blank for trim() exactly when every char of it is white space. */
  lemma TrimEmpty(s: string)
    ensures Trim(s) == [] <==> forall j :: 0 <= j < |s| ==> IsTrimmed(s[j])
  {
    var i := KeptFrom(s, 0);
    if i < |s| {
      assert !IsTrimmed(s[i]);
    }
  }

  /** Trimming text without surrounding white space returns it unchanged. */
  lemma TrimKeeps(s: string)
    requires s != [] ==> !IsTrimmed(s[0]) && !IsTrimmed(s[|s| - 1])
    ensures Trim(s) == s
  {
  }

  /** Removing trailing white space (a line terminator, say) does not change the trimmed text. */
  lemma TrimDropsTrailing(s: string, tail: string)
    requires forall j :: 0 <= j < |tail| ==> IsTrimmed(tail[j])
    ensures Trim(s + tail) == Trim(s)
  {
    var t := s + tail;
    var i := KeptFrom(s, 0);
    var i' := KeptFrom(t, 0);
    KeptFromPrefix(s, tail, 0);
    assert i' == (if i < |s| then i else |t|);
    if i < |s| {
      var k := KeptUntil(s, i, |s|);
      KeptUntilSuffix(s, tail, i);
      assert Trim(t) == t[i..k];
      assert t[i..k] == s[i..k];
    }
  }

  lemma {:induction false} KeptFromPrefix(s: string, tail: string, i: nat)
    requires i <= |s|
    requires forall j :: 0 <= j < |tail| ==> IsTrimmed(tail[j])
    ensures KeptFrom(s + tail, i) == if KeptFrom(s, i) < |s| then KeptFrom(s, i) else |s + tail|
    decreases |s| - i
  {
    var t := s + tail;
    if i < |s| {
      assert t[i] == s[i];
      if IsTrimmed(s[i]) {
        KeptFromPrefix(s, tail, i + 1);
      }
    } else {
      AllTrimmedFrom(t, i, |s|);
    }
  }

  lemma {:induction false} AllTrimmedFrom(t: string, i: nat, n: nat)
    requires n <= i <= |t|
    requires forall j :: n <= j < |t| ==> IsTrimmed(t[j])
    ensures KeptFrom(t, i) == |t|
    decreases |t| - i
  {
    if i < |t| {
      AllTrimmedFrom(t, i + 1, n);
    }
  }

  lemma KeptUntilSuffix(s: string, tail: string, lo: nat)
    requires lo < |s|
    requires !IsTrimmed(s[lo])
    requires forall j :: 0 <= j < |tail| ==> IsTrimmed(tail[j])
    ensures KeptUntil(s + tail, lo, |s + tail|) == KeptUntil(s, lo, |s|)
  {
    var t := s + tail;
    KeptUntilDown(t, lo, |t|, |s|);
    KeptUntilSame(s, tail, lo, |s|);
  }

  lemma {:induction false} KeptUntilDown(t: string, lo: nat, j: nat, n: nat)
    requires lo <= n <= j <= |t|
    requires forall m :: n <= m < |t| ==> IsTrimmed(t[m])
    ensures KeptUntil(t, lo, j) == KeptUntil(t, lo, n)
    decreases j
  {
    if j > n {
      KeptUntilDown(t, lo, j - 1, n);
    }
  }

  lemma {:induction false} KeptUntilSame(s: string, tail: string, lo: nat, j: nat)
    requires lo <= j <= |s|
    ensures KeptUntil(s + tail, lo, j) == KeptUntil(s, lo, j)
    decreases j
  {
    if j > lo {
      assert (s + tail)[j - 1] == s[j - 1];
      KeptUntilSame(s, tail, lo, j - 1);
    }
  }

  function DigitChar(d: nat): (c: char)
    requires d < 10
    ensures '0' <= c <= '9'
  {
    (d + '0' as int) as char
  }

  predicate IsDigits(s: string) { forall j :: 0 <= j < |s| ==> '0' <= s[j] <= '9' }

  /** The decimal rendering Java gives a non-negative int in string concatenation. */
  function Decimal(n: nat): (r: string)
    ensures |r| >= 1 && IsDigits(r)
  {
    if n < 10 then [DigitChar(n)] else Decimal(n / 10) + [DigitChar(n % 10)]
  }

  function DecimalValue(s: string): nat
    requires IsDigits(s)
  {
    if s == [] then 0 else DecimalValue(s[..|s| - 1]) * 10 + (s[|s| - 1] as int - '0' as int)
  }

  lemma {:induction false} DecimalValueOfDecimal(n: nat)
    ensures DecimalValue(Decimal(n)) == n
  {
    if n >= 10 {
      var d := Decimal(n);
      assert d[..|d| - 1] == Decimal(n / 10);
      DecimalValueOfDecimal(n / 10);
    }
  }

  /** Distinct numbers have distinct renderings. */
  lemma DecimalInjective(a: nat, b: nat)
    requires Decimal(a) == Decimal(b)
    ensures a == b
  {
    DecimalValueOfDecimal(a);
    DecimalValueOfDecimal(b);
  }

  /** String.lastIndexOf(c): the last index holding c, or -1. */
  function LastIndexOf(s: string, c: char): (k: int)
    ensures -1 <= k < |s|
    ensures k >= 0 ==> s[k] == c
    ensures forall j :: k < j < |s| ==> s[j] != c
  {
    if s == [] then -1
    else if s[|s| - 1] == c then |s| - 1
    else LastIndexOf(s[..|s| - 1], c)
  }

  /** s.contains(".."). */
  predicate HasDotDot(s: string)
  {
    exists j :: 0 <= j < |s| - 1 && s[j] == '.' && s[j + 1] == '.'
  }
}
