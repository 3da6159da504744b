/** Character-level string helpers shared by the scraper and the web layer:
    deleting a set of characters, and writing a natural number in decimal. */
module Text {

  /** `s` with every character that belongs to `bad` deleted (Python's
      `s.replace(c, '')` for one character, `re.sub('[...]', '', s)` for a class). */
  function Without(s: string, bad: set<char>): (r: string)
    ensures |r| <= |s|
    ensures forall c :: c in r <==> c in s && c !in bad
  {
    if s == [] then []
    else if s[0] in bad then Without(s[1..], bad)
    else [s[0]] + Without(s[1..], bad)
  }

  /** Deleting characters commutes with concatenation: what is kept stays in order. */
  lemma {:induction false} WithoutConcat(a: string, b: string, bad: set<char>)
    ensures Without(a + b, bad) == Without(a, bad) + Without(b, bad)
  {
    if a == [] {
      assert a + b == b;
    } else {
      assert (a + b)[0] == a[0];
      assert (a + b)[1..] == a[1..] + b;
      WithoutConcat(a[1..], b, bad);
    }
  }

  /** A string with no character of `bad` is left exactly as it is. */
  lemma {:induction false} WithoutKeepsClean(s: string, bad: set<char>)
    requires forall c :: c in s ==> c !in bad
    ensures Without(s, bad) == s
  {
    if s != [] {
      assert s[0] in s;
      WithoutKeepsClean(s[1..], bad);
      assert [s[0]] + s[1..] == s;
    }
  }

  /** Deleting twice deletes nothing more. */
  lemma WithoutIdempotent(s: string, bad: set<char>)
    ensures Without(Without(s, bad), bad) == Without(s, bad)
  {
    WithoutKeepsClean(Without(s, bad), bad);
  }

  /** Every kept character keeps its number of occurrences; deleted ones have none. */
  lemma {:induction false} WithoutCounts(s: string, bad: set<char>, c: char)
    ensures multiset(Without(s, bad))[c] == if c in bad then 0 else multiset(s)[c]
  {
    if s != [] {
      WithoutCounts(s[1..], bad, c);
      assert s == [s[0]] + s[1..];
      assert multiset(s) == multiset{s[0]} + multiset(s[1..]);
    }
  }

  /** Characters '0'..'9'. */
  predicate IsDigits(s: string) {
    forall i :: 0 <= i < |s| ==> '0' <= s[i] <= '9'
  }

  function Digit(d: nat): char
    requires d < 10
  {
    (48 + d) as char
  }

  /** The decimal notation of `n`, as Python's `f"{n}"` writes an int:
      at least one digit, and no leading zero unless `n` is zero. */
  function NatToString(n: nat): (s: string)
    ensures |s| >= 1 && IsDigits(s)
    ensures s[0] == '0' ==> n == 0
    decreases n
  {
    if n < 10 then [Digit(n)] else NatToString(n / 10) + [Digit(n % 10)]
  }

  /** The number a string of decimal digits denotes. */
  function DigitsValue(s: string): nat
    requires IsDigits(s)
  {
    if s == [] then 0 else 10 * DigitsValue(s[..|s| - 1]) + (s[|s| - 1] as int - 48)
  }

  /** Reading back the decimal notation gives the number again. */
  lemma {:induction false} NatToStringRoundTrip(n: nat)
    ensures DigitsValue(NatToString(n)) == n
  {
    if n >= 10 {
      var s := NatToString(n / 10);
      NatToStringRoundTrip(n / 10);
      assert (s + [Digit(n % 10)])[..|s|] == s;
    }
  }

  /** Different numbers are written differently. */
  lemma NatToStringInjective(m: nat, n: nat)
    requires NatToString(m) == NatToString(n)
    ensures m == n
  {
    NatToStringRoundTrip(m);
    NatToStringRoundTrip(n);
  }
}
