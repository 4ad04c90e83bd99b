/**
 * Collision resolution: a moved file never replaces a name already present
 * in its target folder.  The original name is used when it is free;
 * otherwise `base_k.ext` for the smallest `k >= 1` not taken.
 */
module Collision {
  import opened Text

  /**
   * `f"{base}_{k}{extension}"` with base and extension from `splitext`: the
   * name with `_k` inserted before its extension, so never the name itself.
   */
  function Candidate(filename: string, k: nat): (r: string)
    ensures |r| == |filename| + 1 + |Decimal(k)|
  {
    SplitExt(filename).0 + "_" + Decimal(k) + SplitExt(filename).1
  }

  /** A candidate keeps the file's extension: `splitext` finds the same one in it. */
  lemma CandidateExtension(filename: string, k: nat)
    ensures SplitExt(Candidate(filename, k)).1 == SplitExt(filename).1
  {
    SplitExtTagged(filename, Decimal(k));
  }

  /** Different counters give different candidate names. */
  lemma CandidateInjective(filename: string, j: nat, k: nat)
    requires Candidate(filename, j) == Candidate(filename, k)
    ensures j == k
  {
    var base, ext := SplitExt(filename).0, SplitExt(filename).1;
    var dj, dk := Decimal(j), Decimal(k);
    var cj, ck := Candidate(filename, j), Candidate(filename, k);
    assert |dj| == |dk|;
    assert cj[|base| + 1..|base| + 1 + |dj|] == dj;
    assert ck[|base| + 1..|base| + 1 + |dk|] == dk;
    DecimalInjective(j, k);
  }

  /** The candidates for counters 1..k. */
  function CandidateSet(filename: string, k: nat): (s: set<string>)
    ensures forall x :: x in s <==> exists j :: 1 <= j <= k && x == Candidate(filename, j)
  {
    if k == 0 then {} else CandidateSet(filename, k - 1) + {Candidate(filename, k)}
  }

  lemma {:induction false} CandidateSetSize(filename: string, k: nat)
    ensures |CandidateSet(filename, k)| == k
  {
    if k > 0 {
      CandidateSetSize(filename, k - 1);
      if Candidate(filename, k) in CandidateSet(filename, k - 1) {
        var j :| 1 <= j <= k - 1 && Candidate(filename, k) == Candidate(filename, j);
        CandidateInjective(filename, j, k);
      }
    }
  }

  /** If counters 1..k all collide, the folder holds at least k names. */
  lemma TakenBound(filename: string, taken: set<string>, k: nat)
    requires forall j :: 1 <= j <= k ==> Candidate(filename, j) in taken
    ensures k <= |taken|
  {
    var c := CandidateSet(filename, k);
    CandidateSetSize(filename, k);
    assert c <= taken;
    assert taken == c + (taken - c);
    assert c * (taken - c) == {};
  }

  /** The first free candidate from counter `k` on. */
  function FirstFree(filename: string, taken: set<string>, k: nat): (r: string)
    requires k >= 1
    requires forall j :: 1 <= j < k ==> Candidate(filename, j) in taken
    ensures r !in taken
    ensures exists m :: m >= k && r == Candidate(filename, m) &&
                        forall j :: 1 <= j < m ==> Candidate(filename, j) in taken
    decreases |taken| + 1 - k
  {
    if Candidate(filename, k) !in taken then Candidate(filename, k)
    else
      TakenBound(filename, taken, k);
      FirstFree(filename, taken, k + 1)
  }

  /**
   * The name under which a file is stored in a folder already holding
   * `taken`: never one of `taken`; the original name when free; otherwise
   * the candidate with the smallest counter that is free.
   */
  function FreeName(filename: string, taken: set<string>): (r: string)
    ensures r !in taken
    ensures filename !in taken ==> r == filename
    ensures filename in taken ==>
      exists k :: k >= 1 && r == Candidate(filename, k) &&
                  forall j :: 1 <= j < k ==> Candidate(filename, j) in taken
  {
    if filename !in taken then filename else FirstFree(filename, taken, 1)
  }

  /** The probing loop of `organize_files`, counting up from 1. */
  method ResolveCollision(filename: string, taken: set<string>) returns (dest: string)
    ensures dest == FreeName(filename, taken)
  {
    dest := filename;
    if filename in taken {
      var counter := 1;
      while Candidate(filename, counter) in taken
        invariant counter >= 1
        invariant forall j :: 1 <= j < counter ==> Candidate(filename, j) in taken
        invariant FirstFree(filename, taken, counter) == FirstFree(filename, taken, 1)
        decreases |taken| + 1 - counter
      {
        TakenBound(filename, taken, counter);
        counter := counter + 1;
      }
      dest := Candidate(filename, counter);
    }
  }

  /** Moving `a.txt` into a folder that already holds it yields `a_1.txt`. */
  lemma SecondCopyGetsSuffix()
    ensures FreeName("a.txt", {"a.txt"}) == "a_1.txt"
  {
    assert "a.txt"[..4] == "a.tx" && "a.tx"[..3] == "a.t" && "a.t"[..2] == "a.";
    assert RFind("a.txt", '.') == 1;
    assert "a.txt"[..1] == "a" && "a.txt"[1..] == ".txt";
    assert !AllDots("a") by { assert "a"[0] != '.'; }
    assert SplitExt("a.txt") == ("a", ".txt");
    assert Decimal(1) == "1";
    assert Candidate("a.txt", 1) == "a_1.txt";
  }
}
