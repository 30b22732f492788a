/** Least solutions within a window, and what iterating the search for them lists. */
module Search {

  /** `m` is the least of the `limit` integers from `first` that satisfies `f`. */
  ghost predicate Least(f: int -> bool, first: int, limit: int, m: int) {
    first <= m < first + limit && f(m) && forall k :: first <= k < m ==> !f(k)
  }

  /** `runs` lists the least solution after `from`, then the least one after that, ... */
  ghost predicate Iterated(f: int -> bool, from: int, limit: int, runs: seq<int>)
    decreases |runs|
  {
    runs == [] || (Least(f, from + 1, limit, runs[0]) && Iterated(f, runs[0], limit, runs[1..]))
  }

  /** Iterating lists the solutions after `from` in order, none skipped, none repeated. */
  lemma {:induction false} IterationComplete(f: int -> bool, from: int, limit: int, runs: seq<int>)
    requires Iterated(f, from, limit, runs)
    ensures forall i, j :: 0 <= i < j < |runs| ==> runs[i] < runs[j]
    ensures forall i :: 0 <= i < |runs| ==> runs[i] > from && f(runs[i])
    ensures runs != [] ==> forall m :: from < m <= runs[|runs| - 1] && f(m) ==> m in runs
    decreases |runs|
  {
    if runs != [] {
      IterationComplete(f, runs[0], limit, runs[1..]);
      assert runs == [runs[0]] + runs[1..];
      forall m | from < m <= runs[|runs| - 1] && f(m)
        ensures m in runs
      {
        if m <= runs[0] {
          assert m == runs[0];
        } else {
          assert m in runs[1..];
        }
      }
    }
  }
}
