/** The name of the report file: `base + ext` if no such file exists,
    otherwise `base_1 + ext`, `base_2 + ext`, ... up to the first free one.
    The file system's "does this path exist" is a finite set of names. */
module ReportName {
  import opened Digits

  /** The k-th name `get_unique_filename` tries: `base + ext` first, then
      `base + "_" + str(k) + ext`. */
  function Candidate(base: string, ext: string, k: nat): string
  {
    if k == 0 then base + ext else base + "_" + Decimal(k) + ext
  }

  /** The candidates are pairwise distinct, so the search cannot revisit a name. */
  lemma CandidateInjective(base: string, ext: string, i: nat, j: nat)
    requires Candidate(base, ext, i) == Candidate(base, ext, j)
    ensures i == j
  {
    var ci, cj := Candidate(base, ext, i), Candidate(base, ext, j);
    if i != 0 && j != 0 {
      assert |Decimal(i)| == |Decimal(j)|;
      var lo, hi := |base| + 1, |ci| - |ext|;
      assert ci[lo..hi] == Decimal(i);
      assert cj[lo..hi] == Decimal(j);
      DecimalInjective(i, j);
    } else {
      assert |ci| == |cj|;
    }
  }

  /** The set of the first n candidates. */
  ghost function CandidatesBelow(base: string, ext: string, n: nat): set<string>
  {
    if n == 0 then {} else CandidatesBelow(base, ext, n - 1) + {Candidate(base, ext, n - 1)}
  }

  /** The first n candidates are n different names, and a later candidate is not among them. */
  lemma {:induction false} CandidatesBelowShape(base: string, ext: string, n: nat)
    ensures |CandidatesBelow(base, ext, n)| == n
    ensures forall m: nat :: m >= n ==> Candidate(base, ext, m) !in CandidatesBelow(base, ext, n)
  {
    if n > 0 {
      CandidatesBelowShape(base, ext, n - 1);
      forall m: nat | m >= n
        ensures Candidate(base, ext, m) !in CandidatesBelow(base, ext, n)
      {
        if Candidate(base, ext, m) == Candidate(base, ext, n - 1) {
          CandidateInjective(base, ext, m, n - 1);
        }
      }
    }
  }

  lemma {:induction false} SubsetSize<T>(a: set<T>, b: set<T>)
    requires a <= b
    ensures |a| <= |b|
  {
    if a != {} {
      var x :| x in a;
      SubsetSize(a - {x}, b - {x});
    }
  }

  /** `get_unique_filename(base, ext)` against the set of existing names:
      the result is the first candidate that does not exist, and the search
      stops after at most `|existing|` collisions. */
  method UniqueFilename(base: string, ext: string, existing: set<string>) returns (name: string)
    ensures name !in existing
    ensures exists k: nat :: k <= |existing| && name == Candidate(base, ext, k)
                            && forall j: nat :: j < k ==> Candidate(base, ext, j) in existing
  {
    name := base + ext;
    var counter: nat := 0;
    ghost var tried: set<string> := {};
    while name in existing
      invariant name == Candidate(base, ext, counter)
      invariant tried == CandidatesBelow(base, ext, counter) && tried <= existing
      invariant counter <= |existing|
      invariant forall j: nat :: j < counter ==> Candidate(base, ext, j) in existing
      decreases |existing| - counter
    {
      CandidatesBelowShape(base, ext, counter + 1);
      tried := tried + {name};
      SubsetSize(tried, existing);
      counter := counter + 1;
      name := base + "_" + Decimal(counter) + ext;
    }
  }

  /** When `base + ext` is free it is the answer; otherwise the answer is
      `base + "_" + str(k) + ext` for the least free k >= 1. */
  lemma UniqueFilenameCases(base: string, ext: string, existing: set<string>, k: nat)
    requires Candidate(base, ext, k) !in existing
    requires forall j: nat :: j < k ==> Candidate(base, ext, j) in existing
    ensures base + ext !in existing <==> Candidate(base, ext, k) == base + ext
    ensures base + ext in existing ==> k >= 1 && Candidate(base, ext, k) == base + "_" + Decimal(k) + ext
  {
    if k != 0 {
      assert Candidate(base, ext, 0) in existing;
      if Candidate(base, ext, k) == base + ext {
        CandidateInjective(base, ext, k, 0);
      }
    }
  }
}
