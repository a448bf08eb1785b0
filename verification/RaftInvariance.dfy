/**
  Every event keeps the invariants. A handler is broken into small changes (a term update,
  an opened campaign, a cast vote, a counted vote, an election, a leader's append, an accepted
  append) and each small change keeps them.
 */
module RaftInvariance {
  import opened RaftHandlers
  import opened RaftHistory

  /** Only the last of several changes to one server counts. */
  lemma Overwrite(servers: seq<Server>, i: nat, a: Server, b: Server)
    requires i < |servers|
    ensures servers[i := a][i := b] == servers[i := b]
  {
  }

  // ---------- Logs under growing reigns ----------

  lemma LogOkGrows(r: map<nat, Reign>, r': map<nat, Reign>, log: seq<Entry>)
    requires LogOk(r, log) && ReignsGrow(r, r')
    ensures LogOk(r', log)
  {
    forall k | 0 <= k < |log| ensures Anchored(r', log, k) {
      assert Anchored(r, log, k);
      var t := log[k].term;
      assert ReignGrows(r[t], r'[t]);
      assert r[t].log[..k + 1] == r'[t].log[..k + 1];
    }
  }

  /** A prefix of a leader's log is itself in order. */
  lemma PrefixOk(r: map<nat, Reign>, log: seq<Entry>, n: nat)
    requires LogOk(r, log) && n <= |log|
    ensures LogOk(r, log[..n])
  {
    forall k | 0 <= k < n ensures Anchored(r, log[..n], k) {
      assert Anchored(r, log, k);
      assert log[..n][..k + 1] == log[..k + 1];
    }
  }

  lemma LogSorted(r: map<nat, Reign>, log: seq<Entry>)
    requires ReignLogsOk(r) && LogOk(r, log)
    ensures Sorted(log)
  {
    if log != [] {
      var k := |log| - 1;
      assert Anchored(r, log, k);
      var t := log[k].term;
      assert ReignLogOk(r, t);
      assert log == log[..k + 1];
      assert forall i | 0 <= i < |log| :: log[i] == r[t].log[i];
    }
  }

  /** Two logs with the same term at the same index agree up to it. */
  lemma SamePrefix(r: map<nat, Reign>, a: seq<Entry>, b: seq<Entry>, k: nat)
    requires LogOk(r, a) && LogOk(r, b)
    requires k < |a| && k < |b| && a[k].term == b[k].term
    ensures a[..k + 1] == b[..k + 1]
  {
    assert Anchored(r, a, k) && Anchored(r, b, k);
  }

  // ---------- What was accepted, under growing reigns ----------

  /** A leader log that lacks term t's entries still lacks them after it grows. */
  lemma LackGrows(r: map<nat, Reign>, r': map<nat, Reign>, t: nat, k: nat, t2: nat)
    requires ReignLogsOk(r) && ReignsGrow(r, r') && OwnTerm(r, t, k) && OwnTerm(r', t, k)
    requires t < t2 && t2 in r && !Holds(r, t, k, r[t2].log)
    ensures !Holds(r', t, k, r'[t2].log)
  {
    assert ReignGrows(r[t], r'[t]) && ReignGrows(r[t2], r'[t2]);
    assert ReignLogOk(r, t) && ReignLogOk(r, t2);
    assert r[t].log[..k] == r'[t].log[..k];
    var p := |r[t2].log| - 1;
    if p < k {
      assert r'[t].log[..k][p].term <= t < r'[t2].log[p].term;
    } else {
      assert r'[t2].log[..k] == r[t2].log[..k];
    }
  }

  lemma KeptGrows(r: map<nat, Reign>, r': map<nat, Reign>, t: nat, idx: nat, log: seq<Entry>, bound: nat)
    requires ReignLogsOk(r) && ReignsGrow(r, r')
    requires t in r && idx <= |r[t].log| && KeptUpTo(r, t, idx, log, bound)
    ensures KeptUpTo(r', t, idx, log, bound)
  {
    assert ReignGrows(r[t], r'[t]);
    forall k | 0 <= k <= idx ensures KeptOrLost(r', t, k, log, bound) {
      assert KeptOrLost(r, t, k, log, bound);
      if OwnTerm(r', t, k) {
        assert OwnTerm(r, t, k);
        assert r[t].log[..k] == r'[t].log[..k];
        if !Holds(r, t, k, log) {
          var t2 :| t < t2 < bound && t2 in r && !Holds(r, t, k, r[t2].log);
          LackGrows(r, r', t, k, t2);
        }
      }
    }
  }

  lemma KeptLonger(r: map<nat, Reign>, t: nat, idx: nat, log: seq<Entry>, log': seq<Entry>, bound: nat)
    requires KeptUpTo(r, t, idx, log, bound) && log <= log'
    ensures KeptUpTo(r, t, idx, log', bound)
  {
    forall k | 0 <= k <= idx ensures KeptOrLost(r, t, k, log', bound) {
      assert KeptOrLost(r, t, k, log, bound);
    }
  }

  lemma OwnKept(r: map<nat, Reign>, t: nat, idx: nat, log: seq<Entry>, bound: nat)
    requires t in r && idx <= |log| && idx <= |r[t].log| && log[..idx] == r[t].log[..idx]
    ensures KeptUpTo(r, t, idx, log, bound)
  {
    forall k | 0 <= k <= idx ensures KeptOrLost(r, t, k, log, bound) {
      if OwnTerm(r, t, k) {
        assert r[t].log[..k] == r[t].log[..idx][..k] == log[..idx][..k] == log[..k];
      }
    }
  }

  /** What one server accepted survives when reigns grow and its own log is only extended. */
  lemma AckGrows(servers: seq<Server>, h: History, servers': seq<Server>, h': History, k: Key)
    requires k in h.acked && AckOk(servers, h, k) && ReignLogsOk(h.reigns) && ReignsGrow(h.reigns, h'.reigns)
    requires k in h'.acked && h'.acked[k] == h.acked[k] && |servers'| == |servers|
    requires servers'[k.1].term == servers[k.1].term && servers[k.1].log <= servers'[k.1].log
    ensures AckOk(servers', h', k)
  {
    assert ReignGrows(h.reigns[k.0], h'.reigns[k.0]);
    hide ReignLogsOk, ReignsGrow, KeptUpTo;
    KeptGrows(h.reigns, h'.reigns, k.0, h.acked[k], servers[k.1].log, servers[k.1].term + 1);
    KeptLonger(h'.reigns, k.0, h.acked[k], servers[k.1].log, servers'[k.1].log, servers[k.1].term + 1);
  }
}
