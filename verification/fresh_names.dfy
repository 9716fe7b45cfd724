/** The search for a name nobody uses: the wanted one, or that with -2, -3 and so on. */
module FreshNames {
  import opened PythonText

  function Suffixed(desired: string, k: nat): string { desired + "-" + Decimal(k) }

  /** The k-th name the search tries. */
  function Candidate(desired: string, k: nat): string { if k < 2 then desired else Suffixed(desired, k) }

  lemma CandidatesDistinct(desired: string, j: nat, k: nat)
    requires 1 <= j < k
    ensures Candidate(desired, j) != Candidate(desired, k)
  {
    var n := |desired| + 1;
    assert Suffixed(desired, j)[n..] == Decimal(j) && Suffixed(desired, k)[n..] == Decimal(k);
    if Decimal(j) == Decimal(k) { DecimalInjective(j, k); }
    assert |Suffixed(desired, k)| > |desired|;
  }

  /** The candidates before the k-th are all used. */
  predicate Tried(desired: string, used: set<string>, k: nat) {
    forall j: nat | 1 <= j < k :: Candidate(desired, j) in used
  }

  function Candidates(desired: string, k: nat): set<string> {
    if k <= 1 then {} else Candidates(desired, k - 1) + {Candidate(desired, k - 1)}
  }

  lemma {:induction false} CandidatesCount(desired: string, k: nat)
    requires k >= 1
    ensures |Candidates(desired, k)| == k - 1
    ensures forall c | c in Candidates(desired, k) :: exists j: nat :: 1 <= j < k && c == Candidate(desired, j)
  {
    if k > 1 {
      CandidatesCount(desired, k - 1);
      var last := Candidate(desired, k - 1);
      if last in Candidates(desired, k - 1) {
        var j: nat :| 1 <= j < k - 1 && last == Candidate(desired, j);
        CandidatesDistinct(desired, j, k - 1);
      }
    }
  }

  /** Candidates are pairwise distinct, so not more of them are used than there are used names. */
  lemma TriedBound(desired: string, used: set<string>, k: nat)
    requires k >= 1 && Tried(desired, used, k)
    ensures k <= |used| + 1
  {
    CandidatesCount(desired, k);
    SubsetSize(Candidates(desired, k), used);
  }

  lemma {:induction false} SubsetSize(a: set<string>, b: set<string>)
    requires a <= b
    ensures |a| <= |b|
  {
    if a != {} {
      var x :| x in a;
      SubsetSize(a - {x}, b - {x});
    }
  }

  function FirstFree(desired: string, used: set<string>, k: nat): string
    requires k >= 1 && Tried(desired, used, k)
    decreases |used| + 1 - k
  {
    TriedBound(desired, used, k);
    if Candidate(desired, k) !in used then Candidate(desired, k)
    else
      assert Tried(desired, used, k + 1);
      TriedBound(desired, used, k + 1);
      FirstFree(desired, used, k + 1)
  }

  /** The first candidate nobody uses: one of the first |used| + 1, so the search ends. */
  method FreshName(desired: string, used: set<string>) returns (name: string, ghost k: nat)
    ensures name == FirstFree(desired, used, 1)
    ensures name !in used && 1 <= k <= |used| + 1 && name == Candidate(desired, k) && Tried(desired, used, k)
  {
    name := desired;
    var suffix: nat := 2;
    while name in used
      invariant suffix >= 2 && name == Candidate(desired, suffix - 1) && Tried(desired, used, suffix - 1)
      invariant FirstFree(desired, used, 1) == FirstFree(desired, used, suffix - 1)
      decreases |used| + 2 - suffix
    {
      assert Tried(desired, used, suffix);
      TriedBound(desired, used, suffix);
      name := Suffixed(desired, suffix);
      suffix := suffix + 1;
    }
    k := suffix - 1;
    TriedBound(desired, used, k);
  }
}
