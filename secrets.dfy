/**
 * The randomness the generator consumes: `secrets.choice` and
 * `secrets.SystemRandom().shuffle`. The entropy source itself is outside the
 * model; every draw is a nondeterministic choice whose only guarantee is the
 * range it falls in, so every property proved about a caller holds for every
 * outcome of the draws.
 */
module Secrets {

  /** One draw of the secure source: some index below `n`. */
  method RandBelow(n: nat) returns (j: nat)
    requires n > 0
    ensures j < n
  {
    j :| 0 <= j < n;
  }

  /** `secrets.choice(s)`: some element of the non-empty sequence `s`. */
  method Choice<T>(s: seq<T>) returns (x: T)
    requires |s| > 0
    ensures x in s
  {
    var i := RandBelow(|s|);
    x := s[i];
  }

  /**
   * `SystemRandom().shuffle(a)`: the Fisher-Yates pass of the library, which
   * walks from the last slot down to the second and swaps each slot with a
   * randomly drawn slot at or below it. The array ends up holding the same
   * elements, each as often as before.
   */
  method Shuffle<T>(a: array<T>)
    modifies a
    ensures multiset(a[..]) == multiset(old(a[..]))
  {
    var i := a.Length;
    while i > 1
      invariant 0 <= i <= a.Length
      invariant multiset(a[..]) == multiset(old(a[..]))
    {
      i := i - 1;
      var j := RandBelow(i + 1);
      a[i], a[j] := a[j], a[i];
    }
  }
}
