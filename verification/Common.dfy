/** What several modules share. */
module Common {

  datatype Option<T> = None | Some(value: T)

  /** Statements that are true, false or unknown. With `sure` it is asked whether one is true,
      without it whether one is not false; so a negation asks the opposite question. */
  datatype Truths<!A> = Truths(holds: (A, bool) -> bool, sure: bool)

  predicate Is<A>(t: Truths<A>, a: A) {
    t.holds(a, t.sure)
  }

  function Opposite<A>(t: Truths<A>): Truths<A> {
    t.(sure := !t.sure)
  }

  /** Distinct ids drawn from a set are no more than the set holds. */
  lemma {:induction false} DistinctFits(s: seq<string>, ids: set<string>)
    requires forall i :: 0 <= i < |s| ==> s[i] in ids
    requires forall i, j :: 0 <= i < j < |s| ==> s[i] != s[j]
    ensures |s| <= |ids|
  {
    if s != [] {
      var n := |s| - 1;
      DistinctFits(s[..n], ids - {s[n]});
    }
  }
}
