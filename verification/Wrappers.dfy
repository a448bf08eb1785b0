/** Small shared definitions. */
module Wrappers {
  datatype Option<T> = None | Some(value: T)

  function Mapped<A, B>(f: A -> B, s: seq<A>): (r: seq<B>)
    ensures |r| == |s| && forall i | 0 <= i < |r| :: r[i] == f(s[i])
  {
    seq(|s|, i requires 0 <= i < |s| => f(s[i]))
  }

  /** Gives a quantifier something to instantiate on, so that a folded definition unfolds only where asked. */
  ghost predicate Unfold(x: int) {
    true
  }

  lemma {:induction false} LeastExists(s: set<int>) returns (t: int)
    requires s != {}
    ensures t in s && forall u | u in s :: t <= u
    decreases |s|
  {
    assert (forall u :: u !in s) ==> s == {};
    var v :| v in s;
    t := v;
    if s != {v} {
      t := LeastExists(s - {v});
      assert forall u | u in s :: u == v || u in s - {v};
      t := if v < t then v else t;
    }
  }
}
