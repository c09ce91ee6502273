/**
 * The fixed alphabets of the four character classes, the set of characters
 * that look alike, and the filter that removes those characters from a pool.
 */
module CharSets {

  /** The character classes, in the order the generator visits them. */
  datatype CharClass = Upper | Lower | Digit | Special

  const Uppercase: string := "ABCDEFGHIJKLMNOPQRSTUVWXYZ"
  const Lowercase: string := "abcdefghijklmnopqrstuvwxyz"
  const Digits: string := "0123456789"
  const SpecialChars: string := "!@#$%^&*()_+-=[]{}|;:,.<>?"

  /** Characters that look alike. Upper-case `I` is not among them. */
  const SimilarChars: string := "il1Lo0O"

  /** Position of a class in the visiting order upper, lower, digits, special. */
  function Rank(k: CharClass): nat
  {
    match k
    case Upper => 0
    case Lower => 1
    case Digit => 2
    case Special => 3
  }

  /** The alphabet a class draws from. */
  function Alphabet(k: CharClass): (a: string)
    ensures |a| > 0
  {
    match k
    case Upper => Uppercase
    case Lower => Lowercase
    case Digit => Digits
    case Special => SpecialChars
  }

  /** A character of each alphabet that is not a similar-looking one. */
  function Unambiguous(k: CharClass): (c: char)
    ensures c in Alphabet(k) && c !in SimilarChars
  {
    match k
    case Upper => 'A'
    case Lower => 'a'
    case Digit => '2'
    case Special => '!'
  }

  /**
   * A character of each alphabet that is a similar-looking one where the
   * alphabet has any: upper case, lower case and digits do, special does not.
   */
  function Lookalike(k: CharClass): (c: char)
    ensures c in Alphabet(k)
    ensures c in SimilarChars <==> k != Special
  {
    match k
    case Upper => 'O'
    case Lower => 'o'
    case Digit => '0'
    case Special => '!'
  }

  /** No special character is a similar-looking one. */
  lemma SpecialNotSimilar()
    ensures forall c :: c in SpecialChars ==> c !in SimilarChars
  {
    SimilarAlphanumeric();
    SpecialNotAlphanumeric();
  }

  lemma SimilarAlphanumeric()
    ensures forall c :: c in SimilarChars ==> IsAlphanumeric(c)
  {
  }

  lemma SpecialNotAlphanumeric()
    ensures forall i :: 0 <= i < |SpecialChars| ==> !IsAlphanumeric(SpecialChars[i])
  {
  }

  /** A letter or a digit, as every similar-looking character is. */
  predicate IsAlphanumeric(c: char)
  {
    '0' <= c <= '9' || 'A' <= c <= 'Z' || 'a' <= c <= 'z'
  }

  /**
   * `s` with every character of `excluded` dropped, the others kept in
   * order: the comprehension that filters the pool.
   */
  function Without(s: string, excluded: string): (r: string)
    ensures forall c :: c in r <==> c in s && c !in excluded
    ensures |r| <= |s|
  {
    if s == [] then []
    else if s[0] in excluded then Without(s[1..], excluded)
    else [s[0]] + Without(s[1..], excluded)
  }

  /** Filtering a concatenation filters each part and keeps their order. */
  lemma {:induction false} WithoutAppend(a: string, b: string, excluded: string)
    ensures Without(a + b, excluded) == Without(a, excluded) + Without(b, excluded)
  {
    if a != [] {
      assert (a + b)[0] == a[0];
      assert (a + b)[1..] == a[1..] + b;
      WithoutAppend(a[1..], b, excluded);
    } else {
      assert a + b == b;
    }
  }

  /** When every character from position `k` on comes from `pool`, which avoids `cs`, none of them is in `cs`. */
  lemma SuffixAvoids(s: string, k: nat, pool: string, cs: string)
    requires k <= |s|
    requires forall i :: k <= i < |s| ==> s[i] in pool
    requires forall c :: c in pool ==> c !in cs
    ensures forall c :: c in s[k..] ==> c !in cs
  {
    forall c | c in s[k..] ensures c !in cs {
      var i :| 0 <= i < |s[k..]| && s[k..][i] == c;
      assert s[k + i] == c;
    }
  }

  /** How many positions of `s` hold a character of `cs`. */
  function CountIn(s: string, cs: string): (n: nat)
    ensures n <= |s|
  {
    if s == [] then 0
    else (if s[0] in cs then 1 else 0) + CountIn(s[1..], cs)
  }

  /** Counts add up over a concatenation. */
  lemma {:induction false} CountInAppend(a: string, b: string, cs: string)
    ensures CountIn(a + b, cs) == CountIn(a, cs) + CountIn(b, cs)
  {
    if a != [] {
      assert (a + b)[0] == a[0];
      assert (a + b)[1..] == a[1..] + b;
      CountInAppend(a[1..], b, cs);
    } else {
      assert a + b == b;
    }
  }

  /** A last character outside `cs` adds nothing to the count. */
  lemma CountInDropLast(s: string, cs: string)
    requires |s| > 0 && s[|s| - 1] !in cs
    ensures CountIn(s, cs) == CountIn(s[..|s| - 1], cs)
  {
    var n := |s| - 1;
    assert s == s[..n] + [s[n]];
    CountInAppend(s[..n], [s[n]], cs);
  }

  /** A string with no character of `cs` counts none. */
  lemma {:induction false} CountInNone(s: string, cs: string)
    requires forall c :: c in s ==> c !in cs
    ensures CountIn(s, cs) == 0
  {
    if s != [] {
      assert s[0] in s;
      forall c | c in s[1..] ensures c !in cs {
        assert c in s;
      }
      CountInNone(s[1..], cs);
    }
  }

  /** How many elements of `m` are among the characters of `cs`. */
  function Occurrences(m: multiset<char>, cs: string): nat
  {
    if cs == [] then 0 else m[cs[0]] + Occurrences(m, cs[1..])
  }

  predicate Distinct(cs: string)
  {
    forall i, j :: 0 <= i < j < |cs| ==> cs[i] != cs[j]
  }

  /** Adding one element raises the tally by one exactly when it is listed. */
  lemma {:induction false} OccurrencesAdd(m: multiset<char>, x: char, cs: string)
    requires Distinct(cs)
    ensures Occurrences(m + multiset{x}, cs) == Occurrences(m, cs) + (if x in cs then 1 else 0)
  {
    if cs != [] {
      assert Distinct(cs[1..]) by {
        forall i, j | 0 <= i < j < |cs[1..]| ensures cs[1..][i] != cs[1..][j] {
          assert cs[1..][i] == cs[i + 1] && cs[1..][j] == cs[j + 1];
        }
      }
      OccurrencesAdd(m, x, cs[1..]);
      assert x in cs <==> x == cs[0] || x in cs[1..];
    }
  }

  /** For distinct `cs`, the count depends only on the multiset of `s`. */
  lemma {:induction false} CountInByMultiset(s: string, cs: string)
    requires Distinct(cs)
    ensures CountIn(s, cs) == Occurrences(multiset(s), cs)
  {
    if s == [] {
      assert Occurrences(multiset{}, cs) == 0 by {
        ZeroOccurrences(cs);
      }
    } else {
      assert s == [s[0]] + s[1..];
      assert multiset(s) == multiset(s[1..]) + multiset{s[0]};
      CountInByMultiset(s[1..], cs);
      OccurrencesAdd(multiset(s[1..]), s[0], cs);
    }
  }

  lemma {:induction false} ZeroOccurrences(cs: string)
    ensures Occurrences(multiset{}, cs) == 0
  {
    if cs != [] {
      ZeroOccurrences(cs[1..]);
    }
  }

  /**
   * When only the `picks` part of `picks + fill` can hold characters of
   * `cs`, every reordering of it holds exactly as many of them as `picks`,
   * so at most `|picks|`.
   */
  lemma CountInReorderedBound(picks: string, fill: string, pw: string, cs: string)
    requires Distinct(cs)
    requires forall c :: c in fill ==> c !in cs
    requires multiset(pw) == multiset(picks + fill)
    ensures CountIn(pw, cs) == CountIn(picks, cs)
    ensures CountIn(pw, cs) <= |picks|
  {
    CountInNone(fill, cs);
    CountInAppend(picks, fill, cs);
    CountInByMultiset(pw, cs);
    CountInByMultiset(picks + fill, cs);
  }

  /**
   * When only the first `k` characters of `buffer` can be similar-looking
   * ones, every reordering of `buffer` holds as many of them as those `k`
   * characters do, so at most `k`.
   */
  lemma SimilarReorderedBound(buffer: string, k: nat, pw: string)
    requires k <= |buffer|
    requires forall c :: c in buffer[k..] ==> c !in SimilarChars
    requires multiset(pw) == multiset(buffer)
    ensures CountIn(pw, SimilarChars) == CountIn(buffer[..k], SimilarChars)
    ensures CountIn(pw, SimilarChars) <= k
  {
    assert buffer == buffer[..k] + buffer[k..];
    assert Distinct(SimilarChars);
    CountInReorderedBound(buffer[..k], buffer[k..], pw, SimilarChars);
  }
}
