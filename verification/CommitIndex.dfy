/**
  The commit index a leader derives from what its voters are known to hold:
  sort the matched indexes in descending order and take the one at the quorum position.
 */
module CommitIndex {

  ghost predicate Descending(s: seq<nat>) {
    forall i, j | 0 <= i < j < |s| :: s[i] >= s[j]
  }

  /** How many voters hold everything up to `v`. */
  function CountAtLeast(s: seq<nat>, v: nat): nat {
    if s == [] then 0 else (if s[0] >= v then 1 else 0) + CountAtLeast(s[1..], v)
  }

  function Insert(x: nat, s: seq<nat>): (r: seq<nat>)
    ensures |r| == |s| + 1
  {
    if s == [] || x >= s[0] then [x] + s else [s[0]] + Insert(x, s[1..])
  }

  /** The descending rearrangement of `s`. */
  function SortDesc(s: seq<nat>): (r: seq<nat>)
    ensures |r| == |s|
  {
    if s == [] then [] else Insert(s[0], SortDesc(s[1..]))
  }

  /** `get_quorum_for_commit` with the default quorum: the quorum size without the leader. */
  function Quorum(voters: nat): nat {
    voters / 2
  }

  /** The index `get_expected_committed_log_idx` picks. */
  function Expected(matched: seq<nat>): nat
    requires |matched| > 0
  {
    SortDesc(matched)[Quorum(|matched|)]
  }

  // ---------- Sorting ----------

  lemma {:induction false} InsertDescending(x: nat, s: seq<nat>)
    requires Descending(s)
    ensures Descending(Insert(x, s))
    ensures forall y :: y in Insert(x, s) ==> y == x || y in s
  {
    if s != [] && x < s[0] {
      InsertDescending(x, s[1..]);
      var rest := Insert(x, s[1..]);
      forall k | 0 <= k < |rest| ensures s[0] >= rest[k] {
        assert rest[k] in rest;
      }
    }
  }

  lemma {:induction false} SortDescending(s: seq<nat>)
    ensures Descending(SortDesc(s))
  {
    if s == [] {
    } else {
      SortDescending(s[1..]);
      InsertDescending(s[0], SortDesc(s[1..]));
    }
  }

  lemma {:induction false} InsertCount(x: nat, s: seq<nat>, v: nat)
    ensures CountAtLeast(Insert(x, s), v) == CountAtLeast([x] + s, v)
  {
    assert ([x] + s)[1..] == s;
    if s != [] && x < s[0] {
      InsertCount(x, s[1..], v);
      assert ([s[0]] + Insert(x, s[1..]))[1..] == Insert(x, s[1..]);
      assert ([x] + s[1..])[1..] == s[1..];
    }
  }

  lemma {:induction false} SortCount(s: seq<nat>, v: nat)
    ensures CountAtLeast(SortDesc(s), v) == CountAtLeast(s, v)
  {
    if s == [] {
    } else {
      SortCount(s[1..], v);
      InsertCount(s[0], SortDesc(s[1..]), v);
      assert ([s[0]] + SortDesc(s[1..]))[1..] == SortDesc(s[1..]);
    }
  }

  // ---------- What the picked index means ----------

  /** In a descending sequence the elements that reach `v` come first. */
  lemma {:induction false} DescendingCount(s: seq<nat>, q: nat, v: nat)
    requires Descending(s) && q < |s|
    ensures CountAtLeast(s, v) > q <==> s[q] >= v
  {
    if q > 0 {
      DescendingCount(s[1..], q - 1, v);
      if s[0] < v { NoneReach(s[1..], v); }
    } else if s[0] < v {
      NoneReach(s[1..], v);
    }
  }

  lemma {:induction false} NoneReach(s: seq<nat>, v: nat)
    requires forall i | 0 <= i < |s| :: s[i] < v
    ensures CountAtLeast(s, v) == 0
  {
    if s == [] {
    } else {
      NoneReach(s[1..], v);
    }
  }

  /** The index at position q is the greatest one that more than q voters hold. */
  lemma PickMeaning(matched: seq<nat>, q: nat, v: nat)
    requires q < |matched|
    ensures CountAtLeast(matched, v) > q <==> v <= SortDesc(matched)[q]
  {
    SortDescending(matched);
    SortCount(matched, v);
    DescendingCount(SortDesc(matched), q, v);
  }

  /** With the default quorum it is the greatest index a strict majority holds. */
  lemma ExpectedIsMajority(matched: seq<nat>, v: nat)
    requires |matched| > 0
    ensures 2 * CountAtLeast(matched, v) > |matched| <==> v <= Expected(matched)
  {
    PickMeaning(matched, Quorum(|matched|), v);
  }

  // ---------- Full consensus among healthy members ----------

  /** The quorum position when every responding member must agree. */
  function HealthyQuorum(voters: nat, quorum: nat, notResponding: nat): (q: nat)
    requires quorum < voters
    ensures quorum <= q < voters
    ensures notResponding + quorum < voters ==> q + 1 == voters - notResponding
  {
    if notResponding < voters - quorum then voters - notResponding - 1 else quorum
  }

  // ---------- The computation ----------

  /** A peer as the leader sees it; `regular` is false for learners and leaving servers. */
  datatype Peer = Peer(matched: nat, regular: bool)

  /** The matched indexes of the regular peers, in order. */
  function Regulars(peers: seq<Peer>): seq<nat> {
    if peers == [] then []
    else
      var last := peers[|peers| - 1];
      Regulars(peers[..|peers| - 1]) + (if last.regular then [last.matched] else [])
  }

  /** Any index up to the result is held by more voters than the quorum position, and no index above it is. */
  method ExpectedCommittedLogIdx(leaderIndex: nat, peers: seq<Peer>, fullConsensus: bool, notResponding: nat)
    returns (idx: nat)
    ensures var matched := [leaderIndex] + Regulars(peers);
            var q := if fullConsensus then HealthyQuorum(|matched|, Quorum(|matched|), notResponding)
                     else Quorum(|matched|);
            forall v: nat :: v <= idx <==> CountAtLeast(matched, v) > q
    ensures var matched := [leaderIndex] + Regulars(peers);
            forall v: nat :: v <= idx ==> 2 * CountAtLeast(matched, v) > |matched|
  {
    var matched := [leaderIndex];
    var i := 0;
    while i < |peers|
      invariant 0 <= i <= |peers|
      invariant matched == [leaderIndex] + Regulars(peers[..i])
    {
      assert peers[..i + 1][..i] == peers[..i];
      if peers[i].regular {
        matched := matched + [peers[i].matched];
      }
      i := i + 1;
    }
    assert peers[..i] == peers;
    var sorted := SortDesc(matched);
    var q := Quorum(|matched|);
    if fullConsensus {
      q := HealthyQuorum(|matched|, q, notResponding);
    }
    idx := sorted[q];
    forall v: nat ensures v <= idx <==> CountAtLeast(matched, v) > q {
      PickMeaning(matched, q, v);
    }
  }

  // ---------- Counting as sets ----------

  function Reaching(s: seq<nat>, v: nat): (r: set<nat>)
    ensures forall i: nat :: i in r <==> i < |s| && s[i] >= v
  {
    set i: nat | i < |s| && s[i] >= v
  }

  function Shift(a: set<nat>): (r: set<nat>)
    ensures forall i: nat :: i in r <==> i > 0 && i - 1 in a
  {
    var r := set i | i in a :: i + 1;
    assert forall j: nat :: j in a ==> j + 1 in r;
    r
  }

  lemma {:induction false} ShiftSize(a: set<nat>)
    ensures |Shift(a)| == |a|
  {
    if a == {} {
      assert Shift(a) == {};
    } else {
      var x :| x in a;
      ShiftSize(a - {x});
      assert Shift(a) == Shift(a - {x}) + {x + 1};
    }
  }

  /** The count is the size of the set of positions that reach `v`. */
  lemma {:induction false} ReachingSize(s: seq<nat>, v: nat)
    ensures |Reaching(s, v)| == CountAtLeast(s, v)
  {
    if s == [] {
    } else {
      ReachingSize(s[1..], v);
      ShiftSize(Reaching(s[1..], v));
      assert Reaching(s, v) == Shift(Reaching(s[1..], v)) + (if s[0] >= v then {0} else {});
    }
  }

  lemma {:induction false} CountConcat(a: seq<nat>, b: seq<nat>, v: nat)
    ensures CountAtLeast(a + b, v) == CountAtLeast(a, v) + CountAtLeast(b, v)
  {
    if a == [] {
      assert a + b == b;
    } else {
      assert (a + b)[1..] == a[1..] + b;
      CountConcat(a[1..], b, v);
    }
  }

  /** The leader's own index may stand first or at the leader's place. */
  lemma CountMoved(s: seq<nat>, i: nat, x: nat, v: nat)
    requires i < |s|
    ensures CountAtLeast([x] + s[..i] + s[i + 1..], v) == CountAtLeast(s[i := x], v)
  {
    CountConcat([x] + s[..i], s[i + 1..], v);
    CountConcat([x], s[..i], v);
    assert s[i := x] == (s[..i] + [x]) + s[i + 1..];
    CountConcat(s[..i] + [x], s[i + 1..], v);
    CountConcat(s[..i], [x], v);
  }
}
