/** Booking references: a fresh well-formed reference exists for every ledger
    that fits the cabin. The draws are identified by number so that they can be
    counted; which one the engine picks is left open. */
module References {
  import opened Cabin

  /** The decimal digit d. */
  function Digit(d: int): (ch: char)
    requires 0 <= d < 10
    ensures IsReferenceChar(ch)
  {
    ('0' as int + d) as char
  }

  /** The i-th of a hundred well-formed references: AAAAAA00 .. AAAAAA99. */
  function Candidate(i: int): (s: string)
    requires 0 <= i < 100
    ensures IsReference(s)
  {
    "AAAAAA" + [Digit(i / 10), Digit(i % 10)]
  }

  lemma CandidateInjective(i: int, j: int)
    requires 0 <= i < 100 && 0 <= j < 100
    requires Candidate(i) == Candidate(j)
    ensures i == j
  {
    assert Candidate(i)[6] == Candidate(j)[6] && Candidate(i)[7] == Candidate(j)[7];
  }

  /** A set with fewer than n elements misses one of the first n candidates. */
  lemma {:induction false} MissedCandidate(keys: set<string>, n: int)
    requires 0 <= n <= 100
    requires |keys| < n
    ensures exists i :: 0 <= i < n && Candidate(i) !in keys
  {
    if Candidate(n - 1) !in keys {
      return;
    }
    MissedCandidate(keys - {Candidate(n - 1)}, n - 1);
    var i :| 0 <= i < n - 1 && Candidate(i) !in keys - {Candidate(n - 1)};
    if Candidate(i) == Candidate(n - 1) {
      CandidateInjective(i, n - 1);
    }
  }

  /** However the ledger of a cabin of 28 cells is filled, some well-formed
      reference is not among its keys. */
  lemma FreshReferenceExists(keys: set<string>)
    requires |keys| <= Rows * Columns
    ensures exists s :: IsReference(s) && s !in keys
  {
    MissedCandidate(keys, Rows * Columns + 1);
    var i :| 0 <= i < Rows * Columns + 1 && Candidate(i) !in keys;
    assert IsReference(Candidate(i));
  }
}
