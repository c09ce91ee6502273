# Secure password generator: a Dafny model

This project models `generate_password` from `generate_password.py`. It builds
a password from up to four character classes: upper-case letters,
lower-case letters, digits and a fixed set of special characters. It can
optionally leave out the characters that look alike (`i l 1 L o 0 O`).

The routine runs in these steps, and the model keeps them in this order:

1. Concatenate the enabled alphabets in the order upper, lower, digits,
   special. If similar-looking characters are excluded, filter them out.
2. Fail if that pool is empty.
3. Fail if the requested length is below the number of enabled classes.
4. Append one randomly chosen character per enabled class. These picks come
   from the class's whole alphabet, not from the filtered one.
5. Append random characters of the pool until the list reaches the length.
6. Shuffle the list in place and join it into a string.

Files:

- `secrets.dfy` (module `Secrets`) models the library calls the routine makes.
  `secrets.choice` becomes `Choice`. `SystemRandom().shuffle` becomes
  `Shuffle`, the library's Fisher-Yates pass over an array. Every random
  draw goes through `RandBelow`, which is a nondeterministic choice below a
  bound. So every property below holds for every outcome of the draws.
- `charsets.dfy` (module `CharSets`) holds the four alphabets and the set of
  similar-looking characters. It also holds the filter of line 64
  (`Without`) and a count of the characters from a given set (`CountIn`).
- `generator.dfy` (module `Generator`) holds the options with the defaults
  of generate_password.py:26-27 (length 32, every class on, no exclusion), the two errors
  as a `Result`, the pool as a specification function, the three steps as
  methods (`BuildPool`, `PickOnePerClass`, `FillFromPool`) and
  `GeneratePassword`. It also holds the lemmas that carry the guarantees
  through the shuffle.

The docstring at generate_password.py:37 says that similar-looking characters
are excluded. The code keeps them out of the pool only. The guaranteed picks
at lines 79-86 draw from the unfiltered alphabets. So with the exclusion on, a
password may still hold one similar-looking character per enabled upper-case,
lower-case or digit class. No special character looks similar, so the special
pick never adds one, and the count never exceeds the number of enabled classes.
The model follows the code. `ShuffleSimilarBound` proves that bound, and
`SimilarBoundReached` shows that for every configuration the generator accepts
some possible pre-shuffle list reaches it. The code also has no check that
filtering leaves each class's alphabet non-empty. The model adds none. With
these four alphabets such a check could never fail anyway (`Unambiguous`).

## Model

| member | source | states |
|---|---|---|
| `CharSets.Alphabet` | generate_password.py:43-46 | the alphabet of each class, as written at those lines; none is empty |
| `CharSets.Unambiguous` | generate_password.py:43-49 | every class's alphabet has a character outside the similar-looking set `il1Lo0O` |
| `CharSets.Lookalike` | generate_password.py:43-49 | the upper-case, lower-case and digit alphabets each have a similar-looking character; the character named for special is not one |
| `CharSets.SpecialNotSimilar` | generate_password.py:46-49 | no special character is one of the similar-looking characters |
| `CharSets.Without` | generate_password.py:63-64 | a character survives the filter exactly when it was in the pool and is not one of the excluded characters; the result is never longer |
| `CharSets.WithoutAppend` | generate_password.py:64 | filtering a concatenation filters each part and keeps their order |
| `CharSets.CountInByMultiset` | generate_password.py:96 | for a set of distinct characters, how many positions of a string hold one of them depends only on the string's multiset, so a shuffle keeps it |
| `CharSets.CountInReorderedBound` | generate_password.py:79-96 | when only the first part of a list can hold characters of a set, any reordering of the list holds exactly as many of them as that part, so at most its length |
| `Generator.EnabledClasses` | generate_password.py:52-60 | holds exactly the classes whose flag is set, each once, in the order upper, lower, digits, special |
| `Generator.MinLength` | generate_password.py:71 | the sum of the four flags equals the number of enabled classes |
| `Generator.UnfilteredMembership` | generate_password.py:52-60 | the concatenated alphabets hold exactly the characters of the enabled classes' alphabets |
| `Generator.PoolMembership` | generate_password.py:52-64 | a character is in the pool exactly when an enabled class's alphabet has it and the exclusion does not remove it |
| `Generator.PoolEmptyIff` | generate_password.py:43-68 | the pool is empty exactly when no class is enabled, so filtering never empties it |
| `Generator.FilteredPoolByClass` | generate_password.py:52-64 | with the exclusion on, the filtered pool is each enabled alphabet filtered on its own, concatenated in class order |
| `Generator.PoolExcludesSimilar` | generate_password.py:63-64 | with the exclusion on, the pool holds no similar-looking character |
| `Generator.BuildPool` | generate_password.py:52-64 | the pool built by appending the enabled alphabets in class order, then filtering, is the pool that the lemmas above describe |
| `Generator.PickOnePerClass` | generate_password.py:79-86 | one character per enabled class, in class order, each from that class's unfiltered alphabet |
| `Generator.FillFromPool` | generate_password.py:89-93 | the loop stops at exactly `length` characters, keeps the guaranteed picks as a prefix and appends only pool characters; the `continue` branch is never taken |
| `Generator.ShuffleCoversEnabledClasses` | generate_password.py:79-96 | any reordering of the pre-shuffle list has a character of every enabled class |
| `Generator.ShuffleDrawnFromEnabledClasses` | generate_password.py:52-96 | any reordering of the pre-shuffle list uses only characters of enabled classes |
| `Generator.FillAvoidsSimilar` | generate_password.py:63-64 | with the exclusion on, no character after the guaranteed picks is a similar-looking one |
| `Generator.PicksSimilarBound` | generate_password.py:79-86 | the guaranteed picks hold at most one similar-looking character per enabled upper-case, lower-case or digit class |
| `Generator.ShuffleSimilarBound` | generate_password.py:63-96 | with the exclusion on, any reordering of the pre-shuffle list holds at most one similar-looking character per enabled upper-case, lower-case or digit class, hence at most as many as there are enabled classes |
| `Generator.SimilarBoundReached` | generate_password.py:79-93 | with the exclusion on and any length the generator accepts, some valid pre-shuffle list holds exactly one similar-looking character per enabled upper-case, lower-case or digit class, so that bound is exact |
| `Generator.SimilarPickAllowed` | generate_password.py:79-86 | with only upper case enabled and the exclusion on, the pre-shuffle predicate admits the list `O`, whose one character is similar-looking |
| `Generator.GeneratePassword` | generate_password.py:26-98 | no class enabled fails with the empty-pool error whatever the length; otherwise a length below the class count fails with the minimum-length error carrying that count; otherwise it succeeds with a reordering of a valid pre-shuffle list, of exactly `length` characters, covering every enabled class, drawn only from enabled classes, and with the exclusion on holding at most one similar-looking character per enabled upper-case, lower-case or digit class, hence at most as many as there are enabled classes |
| `Secrets.Choice` | generate_password.py:80-90 | `secrets.choice` returns an element of its non-empty argument |
| `Secrets.Shuffle` | generate_password.py:96 | the shuffled array holds the same multiset of characters as before |

## Left out

- `ssm_manager.py`: a wrapper over a remote parameter store and its interactive menus. It is network I/O and UI with no algorithmic content.
- `main` (generate_password.py:101-200): argument parsing, printing, the `--count` loop, the clipboard copy and the exit codes.
- The text of the two error messages. They are modelled as the error kinds `NoCharacterSet` and `TooShort(minLength)`.
- Secrets.Choice: states only that the draw lies in its argument, not that it is uniform or cryptographically strong, because those are probabilistic properties.
- Secrets.Shuffle: states only that the result is a permutation, not that every permutation is equally likely or even reachable.
- Secrets.RandBelow: a nondeterministic choice stands in for the operating system's entropy source. Failure of that source is not modelled.
- The Python list is modelled as a sequence. It is copied into an array for the in-place shuffle, so aliasing of the list is not modelled.
- Python's dynamic typing (a non-integer `length`, non-boolean flags) is not modelled. `length` is an unbounded integer.
