/**
 * `generate_password`: build the pool of enabled alphabets, optionally drop
 * similar-looking characters, validate, append one guaranteed character per
 * enabled class, fill from the pool up to the requested length and shuffle.
 */
module Generator {
  import opened CharSets
  import Secrets

  /** The keyword arguments of `generate_password`, with their defaults. */
  datatype Options = Options(
    length: int := 32,
    useUppercase: bool := true,
    useLowercase: bool := true,
    useDigits: bool := true,
    useSpecial: bool := true,
    excludeSimilar: bool := false)

  /** The two `ValueError`s the generator raises. */
  datatype Error =
    | NoCharacterSet            // the pool is empty
    | TooShort(minLength: nat)  // fewer positions than enabled classes

  datatype Result<T, E> = Success(value: T) | Failure(error: E)

  /** Whether the flag of class `k` is set. */
  function IsEnabled(opts: Options, k: CharClass): bool
  {
    match k
    case Upper => opts.useUppercase
    case Lower => opts.useLowercase
    case Digit => opts.useDigits
    case Special => opts.useSpecial
  }

  /** The enabled classes, each once, in the order upper, lower, digits, special. */
  function EnabledClasses(opts: Options): (ks: seq<CharClass>)
    ensures forall k :: k in ks <==> IsEnabled(opts, k)
    ensures forall i, j :: 0 <= i < j < |ks| ==> Rank(ks[i]) < Rank(ks[j])
  {
    (if opts.useUppercase then [Upper] else [])
    + (if opts.useLowercase then [Lower] else [])
    + (if opts.useDigits then [Digit] else [])
    + (if opts.useSpecial then [Special] else [])
  }

  /** The shortest password that can hold one character of every enabled class. */
  function MinLength(opts: Options): (n: nat)
    ensures n == |EnabledClasses(opts)|
  {
    (if opts.useUppercase then 1 else 0)
    + (if opts.useLowercase then 1 else 0)
    + (if opts.useDigits then 1 else 0)
    + (if opts.useSpecial then 1 else 0)
  }

  /**
   * How many enabled classes have similar-looking characters in their
   * alphabet: every enabled class but special.
   */
  function SimilarProneClasses(opts: Options): (n: nat)
    ensures n <= MinLength(opts)
  {
    (if opts.useUppercase then 1 else 0)
    + (if opts.useLowercase then 1 else 0)
    + (if opts.useDigits then 1 else 0)
  }

  /** The enabled alphabets laid end to end in class order, before filtering. */
  function Unfiltered(opts: Options): string
  {
    (if opts.useUppercase then Uppercase else "")
    + (if opts.useLowercase then Lowercase else "")
    + (if opts.useDigits then Digits else "")
    + (if opts.useSpecial then SpecialChars else "")
  }

  /** The pool the fill draws from: enabled alphabets, filtered on request. */
  function Pool(opts: Options): string
  {
    if opts.excludeSimilar then Without(Unfiltered(opts), SimilarChars) else Unfiltered(opts)
  }

  /** `c` belongs to the alphabet of some enabled class. */
  ghost predicate InEnabledAlphabet(opts: Options, c: char)
  {
    exists k :: IsEnabled(opts, k) && c in Alphabet(k)
  }

  /** Every enabled class has a character in `pw`. */
  ghost predicate CoversEnabledClasses(opts: Options, pw: string)
  {
    forall k :: IsEnabled(opts, k) ==> exists c :: c in pw && c in Alphabet(k)
  }

  /** Every character of `pw` belongs to the alphabet of an enabled class. */
  ghost predicate DrawnFromEnabledClasses(opts: Options, pw: string)
  {
    forall c :: c in pw ==> InEnabledAlphabet(opts, c)
  }

  /** `picks` holds one character of each class of `ks`, in the same order. */
  predicate GuaranteedPicks(ks: seq<CharClass>, picks: string)
  {
    |picks| == |ks| && forall i :: 0 <= i < |ks| ==> picks[i] in Alphabet(ks[i])
  }

  /**
   * The buffer before the shuffle: exactly `length` characters, the
   * guaranteed picks (drawn from the unfiltered alphabets) followed by
   * characters of the pool.
   */
  predicate PreShuffle(opts: Options, buffer: string)
  {
    var ks := EnabledClasses(opts);
    && |buffer| == opts.length
    && |ks| <= |buffer|
    && GuaranteedPicks(ks, buffer[..|ks|])
    && forall i :: |ks| <= i < |buffer| ==> buffer[i] in Pool(opts)
  }

  /** The unfiltered pool holds exactly the characters of the enabled alphabets. */
  lemma UnfilteredMembership(opts: Options, c: char)
    ensures c in Unfiltered(opts) <==> InEnabledAlphabet(opts, c)
  {
    if c in Unfiltered(opts) {
      if opts.useUppercase && c in Uppercase {
        assert IsEnabled(opts, Upper) && c in Alphabet(Upper);
      } else if opts.useLowercase && c in Lowercase {
        assert IsEnabled(opts, Lower) && c in Alphabet(Lower);
      } else if opts.useDigits && c in Digits {
        assert IsEnabled(opts, Digit) && c in Alphabet(Digit);
      } else {
        assert IsEnabled(opts, Special) && c in Alphabet(Special);
      }
    }
  }

  lemma PicksSnoc(ks: seq<CharClass>, picks: string, k: CharClass, c: char)
    requires GuaranteedPicks(ks, picks)
    requires c in Alphabet(k)
    ensures GuaranteedPicks(ks + [k], picks + [c])
  {
  }

  /**
   * A character is in the pool exactly when some enabled class has it and it
   * is not a similar-looking one that the options exclude.
   */
  lemma PoolMembership(opts: Options, c: char)
    ensures c in Pool(opts) <==>
      InEnabledAlphabet(opts, c) && !(opts.excludeSimilar && c in SimilarChars)
  {
    UnfilteredMembership(opts, c);
  }

  /**
   * The pool is empty exactly when no class is enabled: every alphabet keeps
   * a character outside the similar-looking set, so filtering never empties
   * a non-empty pool.
   */
  lemma PoolEmptyIff(opts: Options)
    ensures |Pool(opts)| == 0 <==> MinLength(opts) == 0
  {
    var ks := EnabledClasses(opts);
    if |ks| > 0 {
      var c := Unambiguous(ks[0]);
      assert IsEnabled(opts, ks[0]);
      PoolMembership(opts, c);
    } else {
      assert Pool(opts) == "";
    }
  }

  /**
   * Filtering the concatenated alphabets is the same as concatenating each
   * enabled alphabet filtered on its own, in class order.
   */
  lemma FilteredPoolByClass(opts: Options)
    requires opts.excludeSimilar
    ensures Pool(opts) ==
      (if opts.useUppercase then Without(Uppercase, SimilarChars) else "")
      + (if opts.useLowercase then Without(Lowercase, SimilarChars) else "")
      + (if opts.useDigits then Without(Digits, SimilarChars) else "")
      + (if opts.useSpecial then Without(SpecialChars, SimilarChars) else "")
  {
    var u := if opts.useUppercase then Uppercase else "";
    var l := if opts.useLowercase then Lowercase else "";
    var d := if opts.useDigits then Digits else "";
    var p := if opts.useSpecial then SpecialChars else "";
    assert Unfiltered(opts) == u + l + d + p;
    WithoutAppend(u + l + d, p, SimilarChars);
    WithoutAppend(u + l, d, SimilarChars);
    WithoutAppend(u, l, SimilarChars);
  }

  /** With the exclusion on, no character of the pool is a similar-looking one. */
  lemma PoolExcludesSimilar(opts: Options)
    requires opts.excludeSimilar
    ensures forall c :: c in Pool(opts) ==> c !in SimilarChars
  {
    forall c | c in Pool(opts) ensures c !in SimilarChars {
      PoolMembership(opts, c);
    }
  }

  /** A shuffle of the buffer still has a character of every enabled class. */
  lemma ShuffleCoversEnabledClasses(opts: Options, buffer: string, pw: string)
    requires PreShuffle(opts, buffer)
    requires multiset(pw) == multiset(buffer)
    ensures CoversEnabledClasses(opts, pw)
  {
    var ks := EnabledClasses(opts);
    forall k | IsEnabled(opts, k) ensures exists c :: c in pw && c in Alphabet(k) {
      var i :| 0 <= i < |ks| && ks[i] == k;
      var c := buffer[i];
      assert buffer[..|ks|][i] == c;
      assert c in multiset(buffer);
      assert c in pw;
    }
  }

  /** A shuffle of the buffer uses only the alphabets of enabled classes. */
  lemma ShuffleDrawnFromEnabledClasses(opts: Options, buffer: string, pw: string)
    requires PreShuffle(opts, buffer)
    requires multiset(pw) == multiset(buffer)
    ensures DrawnFromEnabledClasses(opts, pw)
  {
    var ks := EnabledClasses(opts);
    forall c | c in pw ensures InEnabledAlphabet(opts, c) {
      assert c in multiset(pw);
      var i :| 0 <= i < |buffer| && buffer[i] == c;
      if i < |ks| {
        assert buffer[..|ks|][i] == c;
        assert IsEnabled(opts, ks[i]);
      } else {
        PoolMembership(opts, c);
      }
    }
  }

  /**
   * The guaranteed picks hold at most one similar-looking character per
   * enabled upper-case, lower-case or digit class: the special pick, which
   * comes last, never is one.
   */
  lemma PicksSimilarBound(opts: Options, picks: string)
    requires GuaranteedPicks(EnabledClasses(opts), picks)
    ensures CountIn(picks, SimilarChars) <= SimilarProneClasses(opts)
  {
    var ks := EnabledClasses(opts);
    if opts.useSpecial {
      var n := |picks| - 1;
      assert ks[n] == Special;
      SpecialNotSimilar();
      CountInDropLast(picks, SimilarChars);
    }
  }

  /**
   * With the exclusion on, only the guaranteed picks can be similar-looking
   * characters, so a shuffle of the buffer holds at most one per enabled
   * upper-case, lower-case or digit class, and never more than there are
   * enabled classes.
   */
  lemma ShuffleSimilarBound(opts: Options, buffer: string, pw: string)
    requires PreShuffle(opts, buffer)
    requires multiset(pw) == multiset(buffer)
    requires opts.excludeSimilar
    ensures CountIn(pw, SimilarChars) <= SimilarProneClasses(opts)
    ensures CountIn(pw, SimilarChars) <= MinLength(opts)
  {
    FillAvoidsSimilar(opts, buffer);
    SimilarReorderedBound(buffer, MinLength(opts), pw);
    PicksSimilarBound(opts, buffer[..MinLength(opts)]);
  }

  /** With the exclusion on, the fill part of the buffer has no similar-looking character. */
  lemma FillAvoidsSimilar(opts: Options, buffer: string)
    requires PreShuffle(opts, buffer)
    requires opts.excludeSimilar
    ensures forall c :: c in buffer[MinLength(opts)..] ==> c !in SimilarChars
  {
    PoolExcludesSimilar(opts);
    SuffixAvoids(buffer, MinLength(opts), Pool(opts), SimilarChars);
  }

  /**
   * The exclusion does not reach the guaranteed picks: with only upper-case
   * letters enabled and similar-looking characters excluded, the buffer "O"
   * is a possible buffer and its one character is a similar-looking one.
   */
  lemma SimilarPickAllowed()
    ensures PreShuffle(Options(1, true, false, false, false, true), "O")
    ensures CountIn("O", SimilarChars) == 1
  {
    var opts := Options(1, true, false, false, false, true);
    assert EnabledClasses(opts) == [Upper];
    assert "O"[..1] == "O";
  }

  /** Appending a class and its lookalike character keeps the picks valid and counts it. */
  lemma LookalikeSnoc(ks: seq<CharClass>, picks: string, k: CharClass)
    requires GuaranteedPicks(ks, picks)
    ensures GuaranteedPicks(ks + [k], picks + [Lookalike(k)])
    ensures CountIn(picks + [Lookalike(k)], SimilarChars) ==
      CountIn(picks, SimilarChars) + (if k == Special then 0 else 1)
  {
    PicksSnoc(ks, picks, k, Lookalike(k));
    CountInAppend(picks, [Lookalike(k)], SimilarChars);
  }

  /**
   * Guaranteed picks that are similar-looking wherever the class allows it:
   * one per enabled upper-case, lower-case or digit class.
   */
  lemma LookalikePicks(opts: Options) returns (picks: string)
    ensures GuaranteedPicks(EnabledClasses(opts), picks)
    ensures CountIn(picks, SimilarChars) == SimilarProneClasses(opts)
  {
    var ks: seq<CharClass> := [];
    picks := [];
    if opts.useUppercase {
      LookalikeSnoc(ks, picks, Upper);
      ks, picks := ks + [Upper], picks + [Lookalike(Upper)];
    }
    assert ks == (if opts.useUppercase then [Upper] else []);
    assert CountIn(picks, SimilarChars) == (if opts.useUppercase then 1 else 0);
    if opts.useLowercase {
      LookalikeSnoc(ks, picks, Lower);
      ks, picks := ks + [Lower], picks + [Lookalike(Lower)];
    }
    assert ks == (if opts.useUppercase then [Upper] else [])
      + (if opts.useLowercase then [Lower] else []);
    assert CountIn(picks, SimilarChars) ==
      (if opts.useUppercase then 1 else 0) + (if opts.useLowercase then 1 else 0);
    if opts.useDigits {
      LookalikeSnoc(ks, picks, Digit);
      ks, picks := ks + [Digit], picks + [Lookalike(Digit)];
    }
    assert ks == (if opts.useUppercase then [Upper] else [])
      + (if opts.useLowercase then [Lower] else [])
      + (if opts.useDigits then [Digit] else []);
    assert CountIn(picks, SimilarChars) == SimilarProneClasses(opts);
    if opts.useSpecial {
      LookalikeSnoc(ks, picks, Special);
      ks, picks := ks + [Special], picks + [Lookalike(Special)];
    }
    assert ks == EnabledClasses(opts);
  }

  /**
   * The bound of `ShuffleSimilarBound` is reached: whenever the generator
   * succeeds with the exclusion on, some possible buffer holds one
   * similar-looking character per enabled upper-case, lower-case or digit
   * class, namely its guaranteed pick.
   */
  lemma SimilarBoundReached(opts: Options) returns (buffer: string)
    requires opts.excludeSimilar
    requires MinLength(opts) > 0 && opts.length >= MinLength(opts)
    ensures PreShuffle(opts, buffer)
    ensures CountIn(buffer, SimilarChars) == SimilarProneClasses(opts)
  {
    var picks := LookalikePicks(opts);
    var ks := EnabledClasses(opts);
    var c := Unambiguous(ks[0]);
    assert IsEnabled(opts, ks[0]);
    PoolMembership(opts, c);
    var fill := seq(opts.length - |ks|, _ => c);
    CountInNone(fill, SimilarChars);
    CountInAppend(picks, fill, SimilarChars);
    buffer := picks + fill;
    assert buffer[..|ks|] == picks;
    forall i | |ks| <= i < |buffer| ensures buffer[i] in Pool(opts) {
      assert buffer[i] == fill[i - |ks|] == c;
    }
  }

  /** The pool of the first lines: enabled alphabets in class order, then the filter. */
  method BuildPool(opts: Options) returns (chars: string)
    ensures chars == Pool(opts)
  {
    chars := "";
    if opts.useUppercase {
      chars := chars + Uppercase;
    }
    assert chars == (if opts.useUppercase then Uppercase else "");
    if opts.useLowercase {
      chars := chars + Lowercase;
    }
    assert chars == (if opts.useUppercase then Uppercase else "")
      + (if opts.useLowercase then Lowercase else "");
    if opts.useDigits {
      chars := chars + Digits;
    }
    assert chars == (if opts.useUppercase then Uppercase else "")
      + (if opts.useLowercase then Lowercase else "")
      + (if opts.useDigits then Digits else "");
    if opts.useSpecial {
      chars := chars + SpecialChars;
    }
    assert chars == Unfiltered(opts);
    if opts.excludeSimilar {
      chars := Without(chars, SimilarChars);
    }
  }

  /**
   * One character of every enabled class, in class order, each drawn from the
   * class's whole alphabet whether or not similar-looking characters are
   * excluded.
   */
  method PickOnePerClass(opts: Options) returns (picks: string)
    ensures GuaranteedPicks(EnabledClasses(opts), picks)
  {
    picks := [];
    ghost var classes: seq<CharClass> := [];
    if opts.useUppercase {
      var c := Secrets.Choice(Uppercase);
      PicksSnoc(classes, picks, Upper, c);
      picks, classes := picks + [c], classes + [Upper];
    }
    if opts.useLowercase {
      var c := Secrets.Choice(Lowercase);
      PicksSnoc(classes, picks, Lower, c);
      picks, classes := picks + [c], classes + [Lower];
    }
    if opts.useDigits {
      var c := Secrets.Choice(Digits);
      PicksSnoc(classes, picks, Digit, c);
      picks, classes := picks + [c], classes + [Digit];
    }
    if opts.useSpecial {
      var c := Secrets.Choice(SpecialChars);
      PicksSnoc(classes, picks, Special, c);
      picks, classes := picks + [c], classes + [Special];
    }
    assert classes == EnabledClasses(opts);
  }

  /**
   * The fill loop: append pool characters until the list has `length`
   * entries. The `continue` that skips a similar-looking draw is never
   * taken, because the pool holds none, so every pass appends one character.
   */
  method FillFromPool(opts: Options, chars: string, password: string) returns (filled: string)
    requires chars == Pool(opts) && |chars| > 0
    requires |password| <= opts.length
    ensures |filled| == opts.length
    ensures filled[..|password|] == password
    ensures forall i :: |password| <= i < |filled| ==> filled[i] in Pool(opts)
  {
    filled := password;
    while |filled| < opts.length
      invariant |password| <= |filled| <= opts.length
      invariant filled[..|password|] == password
      invariant forall i :: |password| <= i < |filled| ==> filled[i] in chars
      decreases opts.length - |filled|
    {
      var c := Secrets.Choice(chars);
      if opts.excludeSimilar && c in SimilarChars {
        assert false;
        continue;
      }
      filled := filled + [c];
    }
  }

  /**
   * `generate_password(length, use_uppercase, use_lowercase, use_digits,
   * use_special, exclude_similar)`. The ghost `buffer` is the list just
   * before the shuffle.
   */
  method GeneratePassword(opts: Options) returns (r: Result<string, Error>, ghost buffer: string)
    ensures MinLength(opts) == 0 ==> r == Failure(NoCharacterSet)
    ensures MinLength(opts) > 0 && opts.length < MinLength(opts) ==>
      r == Failure(TooShort(MinLength(opts)))
    ensures r.Success? <==> MinLength(opts) > 0 && opts.length >= MinLength(opts)
    ensures r.Success? ==> PreShuffle(opts, buffer) && multiset(r.value) == multiset(buffer)
    ensures r.Success? ==> |r.value| == opts.length
    ensures r.Success? ==> CoversEnabledClasses(opts, r.value)
    ensures r.Success? ==> DrawnFromEnabledClasses(opts, r.value)
    ensures r.Success? && opts.excludeSimilar ==> CountIn(r.value, SimilarChars) <= MinLength(opts)
    ensures r.Success? && opts.excludeSimilar ==>
      CountIn(r.value, SimilarChars) <= SimilarProneClasses(opts)
  {
    buffer := "";
    var chars := BuildPool(opts);
    PoolEmptyIff(opts);
    if |chars| == 0 {
      return Failure(NoCharacterSet), buffer;
    }

    var minLength := MinLength(opts);
    if opts.length < minLength {
      return Failure(TooShort(minLength)), buffer;
    }

    var password := PickOnePerClass(opts);
    password := FillFromPool(opts, chars, password);
    buffer := password;

    // Shuffle the list in place, then join it.
    var a := new char[|password|](i requires 0 <= i < |password| => password[i]);
    assert a[..] == password;
    Secrets.Shuffle(a);
    r := Success(a[..]);

    ShuffleCoversEnabledClasses(opts, buffer, r.value);
    ShuffleDrawnFromEnabledClasses(opts, buffer, r.value);
    if opts.excludeSimilar {
      ShuffleSimilarBound(opts, buffer, r.value);
    }
  }
}
