/**
 * Test-name allocation of CodegenTestsOnAndroidGenerator.generateTestName: the base name of a
 * fixture file and the first free candidate in the run-wide list of names already handed out.
 */
module Naming {
  import opened Strings

  /** Capitalise, drop the extension, then sanitise to a Java identifier (in that order). */
  function BaseName(fileName: string): (r: string)
    ensures AllIdentifierChars(r)
    ensures |r| <= |fileName|
  {
    var stem := NameWithoutExtension(Capitalize(fileName));
    SanitizeIsIdentifier(stem);
    Sanitize(stem)
  }

  /**
   * The text appended after k collisions when the counter starts at i:
   * "_i", then "_(i+1)", ... one piece per pass of the loop.
   */
  function Suffixes(i: nat, k: nat): string
    decreases k
  {
    if k == 0 then "" else "_" + NatToString(i) + Suffixes(i + 1, k - 1)
  }

  /** The candidate after k passes of the loop. */
  function Candidate(base: string, i: nat, k: nat): string {
    base + Suffixes(i, k)
  }

  /** Every candidate before the k-th one was already taken. */
  predicate TakenBefore(names: seq<string>, base: string, i: nat, k: nat) {
    forall j: nat :: j < k ==> Candidate(base, i, j) in names
  }

  /** The names in the list at least as long as the candidate: finite, and it shrinks as the candidate grows. */
  function Longer(names: seq<string>, candidate: string): set<string> {
    set n | n in names && |n| >= |candidate|
  }

  lemma LongerShrinks(names: seq<string>, candidate: string, next: string)
    requires candidate in names && |next| > |candidate|
    ensures Longer(names, next) < Longer(names, candidate)
  {
    assert candidate in Longer(names, candidate) - Longer(names, next);
  }

  /**
   * The name the allocation loop settles on when it starts from `candidate` with counter `i`:
   * while the candidate is taken, append "_" and the counter, then bump the counter.
   */
  function FreeName(names: seq<string>, candidate: string, i: nat): string
    decreases Longer(names, candidate)
  {
    if candidate in names then
      var next := candidate + "_" + NatToString(i);
      LongerShrinks(names, candidate, next);
      FreeName(names, next, i + 1)
    else candidate
  }

  /** One pass of the loop: the j-th candidate from `base` is the (j-1)-th from the extended base. */
  lemma CandidateStep(base: string, i: nat, j: nat)
    requires j > 0
    ensures Candidate(base, i, j) == Candidate(base + "_" + NatToString(i), i + 1, j - 1)
  {
    assert Suffixes(i, j) == "_" + NatToString(i) + Suffixes(i + 1, j - 1);
  }

  /**
   * The allocated name is the k-th candidate, where every earlier candidate was taken
   * and the k-th is not: the first free one.
   */
  lemma {:induction false} FreeNameIsFirstFree(names: seq<string>, candidate: string, i: nat)
    ensures exists k: nat :: FreeName(names, candidate, i) == Candidate(candidate, i, k)
                             && TakenBefore(names, candidate, i, k)
                             && Candidate(candidate, i, k) !in names
    decreases Longer(names, candidate)
  {
    var r := FreeName(names, candidate, i);
    if candidate !in names {
      assert r == Candidate(candidate, i, 0);
      assert TakenBefore(names, candidate, i, 0);
    } else {
      var next := candidate + "_" + NatToString(i);
      LongerShrinks(names, candidate, next);
      assert r == FreeName(names, next, i + 1);
      FreeNameIsFirstFree(names, next, i + 1);
      var k: nat :| r == Candidate(next, i + 1, k) && TakenBefore(names, next, i + 1, k)
                    && Candidate(next, i + 1, k) !in names;
      CandidateStep(candidate, i, k + 1);
      TakenBeforeStep(names, candidate, i, k);
    }
  }

  /** A taken candidate followed by k taken candidates from its extension: k + 1 taken candidates. */
  lemma TakenBeforeStep(names: seq<string>, candidate: string, i: nat, k: nat)
    requires candidate in names
    requires TakenBefore(names, candidate + "_" + NatToString(i), i + 1, k)
    ensures TakenBefore(names, candidate, i, k + 1)
  {
    forall j: nat | j < k + 1 ensures Candidate(candidate, i, j) in names {
      if j > 0 {
        CandidateStep(candidate, i, j);
      } else {
        assert Candidate(candidate, i, 0) == candidate;
      }
    }
  }


  /**
   * The allocated name is not yet in the list, has the candidate as a prefix, and equals the
   * candidate exactly when the candidate was free.
   */
  lemma FreeNameIsFresh(names: seq<string>, candidate: string, i: nat)
    ensures FreeName(names, candidate, i) !in names
    ensures candidate <= FreeName(names, candidate, i)
    ensures (FreeName(names, candidate, i) == candidate) <==> candidate !in names
  {
    FreeNameIsFirstFree(names, candidate, i);
    var k: nat :| FreeName(names, candidate, i) == Candidate(candidate, i, k)
                  && TakenBefore(names, candidate, i, k) && Candidate(candidate, i, k) !in names;
    if k > 0 {
      assert Candidate(candidate, i, 0) in names;
      assert |Suffixes(i, k)| > 0;
    }
  }

  /** Suffixes only add identifier characters. */
  lemma {:induction false} SuffixesAreIdentifierChars(i: nat, k: nat)
    ensures AllIdentifierChars(Suffixes(i, k))
    decreases k
  {
    if k > 0 {
      NatToStringDigits(i);
      SuffixesAreIdentifierChars(i + 1, k - 1);
    }
  }

  /** A name allocated from a base of identifier characters is still made of identifier characters. */
  lemma FreeNameIsIdentifier(names: seq<string>, base: string)
    requires AllIdentifierChars(base)
    ensures AllIdentifierChars(FreeName(names, base, 0))
  {
    FreeNameIsFirstFree(names, base, 0);
    var k: nat :| FreeName(names, base, 0) == Candidate(base, 0, k)
                  && TakenBefore(names, base, 0, k) && Candidate(base, 0, k) !in names;
    SuffixesAreIdentifierChars(0, k);
  }

  /**
   * Suffixes accumulate: with "Case" and "Case_0" taken, the next name is "Case_0_1",
   * not "Case_1".
   */
  lemma SuffixesAccumulate(names: seq<string>)
    requires "Case" in names && "Case_0" in names && "Case_0_1" !in names
    ensures FreeName(names, "Case", 0) == "Case_0_1"
    ensures FreeName(names, "Case", 0) != "Case_1"
  {
    assert "Case" + "_" + NatToString(0) == "Case_0";
    assert "Case_0" + "_" + NatToString(1) == "Case_0_1";
    assert FreeName(names, "Case", 0) == FreeName(names, "Case_0", 1);
    assert FreeName(names, "Case_0", 1) == FreeName(names, "Case_0_1", 2);
  }

  /** No element occurs twice. */
  predicate Distinct<T(==)>(s: seq<T>) {
    forall i, j :: 0 <= i < j < |s| ==> s[i] != s[j]
  }

  /** Appending an allocated name keeps the run-wide list free of duplicates. */
  lemma AllocationKeepsNamesDistinct(names: seq<string>, base: string)
    requires Distinct(names)
    ensures Distinct(names + [FreeName(names, base, 0)])
  {
    FreeNameIsFresh(names, base, 0);
  }
}
