/** The "first unused name" loop that both the new-story form
    (src/pages/NewStory.tsx) and the story store (src/context/StoryContext.tsx)
    run: try `name`, then `name_1`, `name_2`, ... until the candidate is not
    among the names already taken. */
module Naming {
  import opened Strings

  /** The `k`-th name the loop tries: the base itself, then `base_k`. */
  function Candidate(base: string, k: nat): string
  {
    if k == 0 then base else base + "_" + NatToString(k)
  }

  /** Distinct counters give distinct candidates. */
  lemma CandidateInjective(base: string, j: nat, k: nat)
    requires Candidate(base, j) == Candidate(base, k)
    ensures j == k
  {
    if j != 0 && k != 0 {
      assert NatToString(j) == Candidate(base, j)[|base| + 1..];
      assert NatToString(k) == Candidate(base, k)[|base| + 1..];
      NatToStringInjective(j, k);
    }
  }

  /** The first `n` candidates. */
  ghost function Candidates(base: string, n: nat): set<string>
  {
    set k | 0 <= k < n :: Candidate(base, k)
  }

  /** Adding the next candidate grows the set by a fresh element. */
  lemma CandidatesStep(base: string, n: nat)
    ensures Candidates(base, n + 1) == Candidates(base, n) + {Candidate(base, n)}
    ensures Candidate(base, n) !in Candidates(base, n)
  {
    forall k | 0 <= k < n ensures Candidate(base, k) != Candidate(base, n) {
      if Candidate(base, k) == Candidate(base, n) { CandidateInjective(base, k, n); }
    }
  }

  lemma {:induction false} CandidatesCard(base: string, n: nat)
    ensures |Candidates(base, n)| == n
  {
    if n > 0 {
      CandidatesCard(base, n - 1);
      CandidatesStep(base, n - 1);
    }
  }

  ghost function Elements(s: seq<string>): set<string>
  {
    set x | x in s
  }

  lemma {:induction false} ElementsCard(s: seq<string>)
    ensures |Elements(s)| <= |s|
  {
    if s != [] {
      var p := s[..|s| - 1];
      ElementsCard(p);
      assert s == p + [s[|s| - 1]];
      assert Elements(s) == Elements(p) + {s[|s| - 1]};
    }
  }

  lemma SubsetCard(a: set<string>, b: set<string>)
    requires a <= b
    ensures |a| <= |b|
  {
    assert b == a + (b - a);
  }

  /** Pigeonhole: among the first `|used| + 1` candidates one is unused, so
      the loop stops after at most `|used|` retries. */
  lemma UnusedExists(base: string, used: seq<string>)
    ensures exists k :: 0 <= k <= |used| && Candidate(base, k) !in used
  {
    if forall k :: 0 <= k <= |used| ==> Candidate(base, k) in used {
      CandidatesCard(base, |used| + 1);
      ElementsCard(used);
      assert Candidates(base, |used| + 1) <= Elements(used);
      SubsetCard(Candidates(base, |used| + 1), Elements(used));
      assert false;
    }
  }

  /** The loop itself. `k` is the counter's last value (0 when the base was
      free); the result is the least unused candidate, and it is found after
      at most `|used|` retries. */
  method FirstUnused(base: string, used: seq<string>) returns (name: string, k: nat)
    ensures name == Candidate(base, k)
    ensures name !in used
    ensures forall j :: 0 <= j < k ==> Candidate(base, j) in used
    ensures k <= |used|
  {
    UnusedExists(base, used);
    ghost var bound :| 0 <= bound <= |used| && Candidate(base, bound) !in used;
    name := base;
    k := 0;
    while name in used
      invariant name == Candidate(base, k)
      invariant k <= bound
      invariant forall j :: 0 <= j < k ==> Candidate(base, j) in used
      decreases bound - k
    {
      k := k + 1;
      name := base + "_" + NatToString(k);
    }
  }

  /** A base that contains no underscore is never equal to a retried
      candidate, since those all contain one. */
  lemma RetryHasUnderscore(base: string, k: nat)
    requires k > 0
    ensures '_' in Candidate(base, k)
  {
    assert Candidate(base, k)[|base|] == '_';
  }
}
