/**
  The in-memory log store: a map with a dummy entry at index 0 and a computed next slot,
  which behaves as a sequence of entries at an offset.
 */
module LogStore {
  import opened Wrappers
  import opened LittleEndian
  import opened RaftHandlers
  import opened Framing

  /** The keys are 0 and a run of consecutive indexes from `start`. */
  ghost predicate Contiguous(logs: map<nat, Entry>, start: nat, n: nat) {
    && start >= 1 && |logs| == n + 1
    && forall k: nat :: k in logs <==> k == 0 || start <= k < start + n
  }

  /** The entries from `start` on. */
  ghost function Entries(logs: map<nat, Entry>, start: nat, n: nat): (r: seq<Entry>)
    requires Contiguous(logs, start, n)
    ensures |r| == n && forall i | 0 <= i < n :: r[i] == logs[start + i]
  {
    seq(n, i requires 0 <= i < n => logs[start + i])
  }

  function Span(lo: nat, hi: nat): (s: set<nat>)
    requires lo <= hi
    ensures forall k: nat :: k in s <==> lo <= k < hi
    ensures |s| == hi - lo
    decreases hi - lo
  {
    if lo == hi then {} else Span(lo, hi - 1) + {hi - 1}
  }

  /** The keys alone fix the number of entries. */
  lemma SizeFromKeys(logs: map<nat, Entry>, start: nat, n: nat)
    requires start >= 1 && forall k: nat :: k in logs <==> k == 0 || start <= k < start + n
    ensures Contiguous(logs, start, n)
  {
    var s := Span(start, start + n);
    assert logs.Keys == {0} + s;
    assert |{0} + s| == |{0}| + |s|;
    assert |logs| == |logs.Keys|;
  }

  function Below(logs: map<nat, Entry>, index: nat): map<nat, Entry> {
    map k | k in logs && k < index :: logs[k]
  }

  /** Writing at an index keeps the run exactly when the index is in it or right after it, or is the dummy's. */
  lemma WriteKeeps(logs: map<nat, Entry>, start: nat, n: nat, index: nat, entry: Entry)
    requires Contiguous(logs, start, n)
    ensures var logs' := Below(logs, index)[index := entry];
            if index == 0 then Contiguous(logs', start, 0)
            else if start <= index <= start + n then
              && Contiguous(logs', start, index - start + 1) && logs'[0] == logs[0]
              && Entries(logs', start, index - start + 1) == Entries(logs, start, n)[..index - start] + [entry]
            else !Contiguous(logs', start, |logs'| - 1)
  {
    var logs' := Below(logs, index)[index := entry];
    if index == 0 {
      SizeFromKeys(logs', start, 0);
    } else if start <= index <= start + n {
      SizeFromKeys(logs', start, index - start + 1);
    } else if index > start {
      assert index in logs' && index - 1 !in logs';
    } else {
      assert index in logs';
    }
  }

  function Outside(logs: map<nat, Entry>, lo: nat, hi: nat): map<nat, Entry> {
    map k | k in logs && !(lo <= k < hi) :: logs[k]
  }

  lemma CompactKeeps(logs: map<nat, Entry>, start: nat, n: nat, first: nat)
    requires Contiguous(logs, start, n) && start <= first
    ensures var left := if start + n > first then start + n - first else 0;
            var logs' := Outside(logs, start, first);
            && Contiguous(logs', first, left) && logs'[0] == logs[0]
            && Entries(logs', first, left) == Entries(logs, start, n)[n - left..]
  {
    SizeFromKeys(Outside(logs, start, first), first, if start + n > first then start + n - first else 0);
  }

  /** Payload bytes of the first k entries. */
  function Bytes(es: seq<Entry>, k: nat): nat
    requires k <= |es|
  {
    if k == 0 then 0 else Bytes(es, k - 1) + |es[k - 1].payload|
  }

  lemma {:induction false} BytesOfPrefix(es: seq<Entry>, m: nat, k: nat)
    requires k <= m <= |es|
    ensures Bytes(es[..m], k) == Bytes(es, k)
  {
    if k == 0 {
    } else {
      BytesOfPrefix(es, m, k - 1);
    }
  }

  /** At most `limit` entries: none for a negative hint, all for 0, else up to the one that reaches the hint. */
  ghost predicate Batched(entries: seq<Entry>, limit: nat, hint: int) {
    && (hint < 0 ==> entries == []) && (hint == 0 ==> |entries| == limit)
    && (hint > 0 ==> |entries| == limit || Bytes(entries, |entries|) >= hint)
    && (hint > 0 && entries != [] ==> Bytes(entries, |entries| - 1) < hint)
  }

  // ---------- Packs ----------

  /** The map after storing entries at consecutive indexes. */
  function Placed(logs: map<nat, Entry>, index: nat, es: seq<Entry>): map<nat, Entry>
    decreases |es|
  {
    if es == [] then logs else Placed(logs[index := es[0]], index + 1, es[1..])
  }

  lemma {:induction false} PlacedAt(logs: map<nat, Entry>, index: nat, es: seq<Entry>, k: nat)
    ensures var logs' := Placed(logs, index, es);
            && (k in logs' <==> k in logs || index <= k < index + |es|)
            && (k in logs' ==> logs'[k] == if index <= k < index + |es| then es[k - index] else logs[k])
    decreases |es|
  {
    if es == [] {
    } else {
      PlacedAt(logs[index := es[0]], index + 1, es[1..], k);
    }
  }

  /** The first index after the dummy's, or 1. */
  ghost predicate IsFirst(logs: map<nat, Entry>, start: nat) {
    if forall k: nat :: k in logs ==> k == 0 then start == 1
    else start in logs && start > 0 && forall k: nat :: k in logs && k > 0 ==> start <= k
  }

  function From(start: nat, n: nat, index: nat): nat {
    if n > 0 && start < index then start else index
  }

  function Until(start: nat, n: nat, index: nat, count: nat): nat {
    if n > 0 && start + n > index + count then start + n else index + count
  }

  /** Entries at an index laid over a run at `start`. */
  ghost function Merged(start: nat, run: seq<Entry>, index: nat, es: seq<Entry>): (r: seq<Entry>)
    requires Touches(start, |run|, index, |es|)
    ensures var lo := From(start, |run|, index);
            && |r| == Until(start, |run|, index, |es|) - lo
            && forall i | 0 <= i < |r| ::
                 r[i] == if index <= lo + i < index + |es| then es[lo + i - index] else run[lo + i - start]
  {
    var lo := From(start, |run|, index);
    seq(Until(start, |run|, index, |es|) - lo, i requires 0 <= i < Until(start, |run|, index, |es|) - lo =>
      if index <= lo + i < index + |es| then es[lo + i - index] else run[lo + i - start])
  }

  ghost predicate Touches(start: nat, n: nat, index: nat, count: nat) {
    n == 0 || (start <= index + count && index <= start + n)
  }

  lemma MergedFresh(start: nat, index: nat, es: seq<Entry>)
    ensures From(start, 0, index) == index && Merged(start, [], index, es) == es
  {
  }

  lemma MappedBack(ser: Entry -> seq<Byte>, de: seq<Byte> -> Entry, es: seq<Entry>)
    requires forall e :: de(ser(e)) == e
    ensures Mapped(de, Mapped(ser, es)) == es
  {
  }

  lemma PackFirst(logs: map<nat, Entry>, start: nat, n: nat, index: nat, es: seq<Entry>, first: nat)
    requires Contiguous(logs, start, n) && index >= 1 && es != [] && IsFirst(Placed(logs, index, es), first)
    ensures first == From(start, n, index)
  {
    PlacedAt(logs, index, es, index);
    PlacedAt(logs, index, es, start);
    PlacedAt(logs, index, es, first);
  }

  lemma PackKeys(logs: map<nat, Entry>, start: nat, n: nat, index: nat, es: seq<Entry>)
    requires Contiguous(logs, start, n) && index >= 1 && Touches(start, n, index, |es|) && es != []
    ensures var lo := From(start, n, index);
            Contiguous(Placed(logs, index, es), lo, Until(start, n, index, |es|) - lo)
  {
    var logs', lo, hi := Placed(logs, index, es), From(start, n, index), Until(start, n, index, |es|);
    forall k: nat ensures k in logs' <==> k == 0 || lo <= k < lo + (hi - lo) { PlacedAt(logs, index, es, k); }
    SizeFromKeys(logs', lo, hi - lo);
  }

  /** A pack that touches or overlaps the run, or meets none, extends it. */
  lemma PackTouches(logs: map<nat, Entry>, start: nat, n: nat, index: nat, es: seq<Entry>, first: nat)
    requires Contiguous(logs, start, n) && index >= 1 && es != [] && IsFirst(Placed(logs, index, es), first)
    requires Touches(start, n, index, |es|)
    ensures first == From(start, n, index)
    ensures var logs', merged := Placed(logs, index, es), Merged(start, Entries(logs, start, n), index, es);
            Contiguous(logs', first, |merged|) && Entries(logs', first, |merged|) == merged && logs'[0] == logs[0]
  {
    PackFirst(logs, start, n, index, es, first);
    PackKeys(logs, start, n, index, es);
    PlacedAt(logs, index, es, 0);
    hide IsFirst, Placed;
    var merged := Merged(start, Entries(logs, start, n), index, es);
    forall i | 0 <= i < |merged| ensures Placed(logs, index, es)[first + i] == merged[i] {
      PlacedAt(logs, index, es, first + i);
    }
  }

  lemma EmptyPack(logs: map<nat, Entry>, start: nat, n: nat, first: nat)
    requires Contiguous(logs, start, n) && IsFirst(logs, first)
    ensures first == if n == 0 then 1 else start
    ensures Contiguous(logs, first, n) && Entries(logs, first, n) == Entries(logs, start, n)
  {
    assert n > 0 ==> start in logs;
  }

  /** A pack that leaves a gap does not. */
  lemma PackLeavesGap(logs: map<nat, Entry>, start: nat, n: nat, index: nat, es: seq<Entry>, first: nat)
    requires Contiguous(logs, start, n) && index >= 1 && es != [] && IsFirst(Placed(logs, index, es), first)
    requires !Touches(start, n, index, |es|)
    ensures !Contiguous(Placed(logs, index, es), first, n + |es|) && |Placed(logs, index, es)| == n + |es| + 1
  {
    PlacedSize(logs, index, es);
    PlacedAt(logs, index, es, index);
    PlacedAt(logs, index, es, start);
    PlacedAt(logs, index, es, first);
    var gap := if index > start then start + n else index + |es|;
    PlacedAt(logs, index, es, gap);
  }

  lemma {:induction false} PlacedSize(logs: map<nat, Entry>, index: nat, es: seq<Entry>)
    requires forall k: nat | index <= k < index + |es| :: k !in logs
    ensures |Placed(logs, index, es)| == |logs| + |es|
    decreases |es|
  {
    if es == [] {
    } else {
      PlacedSize(logs[index := es[0]], index + 1, es[1..]);
    }
  }

  class Store {
    var logs: map<nat, Entry>
    var startIdx: nat

    ghost predicate Valid()
      reads this
    {
      |logs| >= 1 && Contiguous(logs, startIdx, |logs| - 1)
    }

    /** What the store holds, as a sequence whose first entry has log index `startIdx`. */
    ghost function Contents(): seq<Entry>
      reads this
      requires Valid()
    {
      Entries(logs, startIdx, |logs| - 1)
    }

    function NextSlot(): (next: int)
      reads this
      requires Valid()
      ensures next == startIdx + |Contents()|
    {
      startIdx + |logs| - 1
    }

    function Dummy(): Entry
      reads this
      requires Valid()
    {
      logs[0]
    }

    constructor ()
      ensures Valid() && Contents() == [] && startIdx == 1 && Dummy().term == 0
    {
      logs := map[0 := Entry(0, false, "")];
      startIdx := 1;
    }

    method EntryAt(index: nat) returns (e: Entry)
      requires Valid()
      ensures startIdx <= index < NextSlot() ==> e == Contents()[index - startIdx]
      ensures !(startIdx <= index < NextSlot()) ==> e == Dummy()
    {
      e := if index in logs then logs[index] else logs[0];
    }

    method TermAt(index: nat) returns (term: nat)
      requires Valid()
      ensures startIdx <= index < NextSlot() ==> term == Contents()[index - startIdx].term
      ensures !(startIdx <= index < NextSlot()) ==> term == Dummy().term
    {
      term := if index in logs then logs[index].term else logs[0].term;
    }

    /** The last entry, or the dummy when there is none, even if entries were compacted away. */
    method LastEntry() returns (e: Entry)
      requires Valid()
      ensures e == if Contents() == [] then Dummy() else Contents()[|Contents()| - 1]
    {
      var next := NextSlot();
      e := if next - 1 in logs then logs[next - 1] else logs[0];
    }

    method Append(entry: Entry) returns (idx: nat)
      requires Valid()
      modifies this
      ensures Valid() && startIdx == old(startIdx) && Dummy() == old(Dummy())
      ensures idx == old(NextSlot()) && Contents() == old(Contents()) + [entry]
    {
      idx := startIdx + |logs| - 1;
      logs := logs[idx := entry];
    }

    /** Erase all entries from an index on. */
    method EraseFrom(index: nat)
      modifies `logs
      ensures logs == Below(old(logs), index)
    {
      var rest := set k | k in logs && k >= index;
      while rest != {}
        invariant forall k: nat :: k in rest <==> k in logs && k >= index
        invariant Below(logs, index) == Below(old(logs), index)
        decreases rest
      {
        var k :| k in rest;
        rest := rest - {k};
        logs := logs - {k};
      }
    }

    /** Discard everything from the index on, then store the entry there. */
    method WriteAt(index: nat, entry: Entry)
      requires Valid()
      modifies `logs
      ensures Valid() <==> index == 0 || startIdx <= index <= old(NextSlot())
      ensures Valid() && index > 0 ==>
                Dummy() == old(Dummy()) && Contents() == old(Contents())[..index - startIdx] + [entry]
    {
      WriteKeeps(logs, startIdx, |logs| - 1, index, entry);
      EraseFrom(index);
      logs := logs[index := entry];
    }

    method LogEntries(start: nat, end: nat) returns (r: seq<Entry>)
      requires Valid() && startIdx <= start <= end <= NextSlot()
      ensures r == Contents()[start - startIdx..end - startIdx]
    {
      r := [];
      var ii := start;
      while ii < end
        invariant start <= ii <= end && r == Contents()[start - startIdx..ii - startIdx]
      {
        r := r + [logs[ii]];
        ii := ii + 1;
      }
    }

    /** As `LogEntries`, but stopping once the payloads reach a positive size hint; nothing for a negative hint. */
    method LogEntriesExt(start: nat, end: nat, hint: int) returns (r: seq<Entry>)
      requires Valid() && startIdx <= start <= end <= NextSlot()
      ensures var all := Contents()[start - startIdx..end - startIdx];
              |r| <= |all| && r == all[..|r|] && Batched(r, |all|, hint)
    {
      if hint < 0 { return []; }
      ghost var all := Contents()[start - startIdx..end - startIdx];
      r := Batch(start, end, hint, all);
      BytesOfPrefix(all, |r|, |r|);
      if r != [] { BytesOfPrefix(all, |r|, |r| - 1); }
    }

    /** Collect entries until the hint is reached; 0 is no hint. */
    method Batch(start: nat, end: nat, hint: nat, ghost all: seq<Entry>) returns (r: seq<Entry>)
      requires start <= end && |all| == end - start
      requires forall i | start <= i < end :: i in logs && logs[i] == all[i - start]
      ensures |r| <= |all| && r == all[..|r|] && (hint == 0 ==> r == all)
      ensures hint > 0 ==> |r| == |all| || Bytes(all, |r|) >= hint
      ensures hint > 0 && r != [] ==> Bytes(all, |r| - 1) < hint
    {
      r := [];
      var accum, ii := 0, start;
      while ii < end
        invariant start <= ii <= end && |r| == ii - start && r == all[..|r|] && accum == Bytes(all, |r|)
        invariant hint > 0 ==> accum < hint
      {
        r := r + [logs[ii]];
        accum := accum + |logs[ii].payload|;
        ii := ii + 1;
        if hint != 0 && accum >= hint { break; }
      }
    }

    /** Drop everything up to an index; even beyond the last entry the store then starts after it. */
    method Compact(last: nat)
      requires Valid()
      modifies this
      ensures Valid() && Dummy() == old(Dummy())
      ensures startIdx == if old(startIdx) <= last then last + 1 else old(startIdx)
      ensures NextSlot() == if old(NextSlot()) <= startIdx then startIdx else old(NextSlot())
      ensures Contents() == old(Contents())[|old(Contents())| - |Contents()|..]
    {
      EraseUpTo(last);
      if startIdx <= last {
        CompactKeeps(old(logs), startIdx, |old(logs)| - 1, last + 1);
        startIdx := last + 1;
      }
    }

    method EraseUpTo(last: nat)
      modifies `logs
      ensures logs == if startIdx <= last then Outside(old(logs), startIdx, last + 1) else old(logs)
    {
      var ii := startIdx;
      while ii <= last
        invariant startIdx <= ii && (if startIdx <= last then ii <= last + 1 else ii == startIdx)
        invariant logs == if ii == startIdx then old(logs) else Outside(old(logs), startIdx, ii)
      {
        if ii in logs { logs := logs - {ii}; }
        ii := ii + 1;
      }
    }

    /** Serialise a range of entries and frame them. */
    method Pack(index: nat, cnt: nat, w: nat, ser: Entry -> seq<Byte>) returns (out: seq<Byte>)
      requires Valid() && startIdx <= index && index + cnt <= NextSlot()
      ensures out == Frame(w, Mapped(ser, Contents()[index - startIdx..index - startIdx + cnt]))
    {
      ghost var es := Contents()[index - startIdx..index - startIdx + cnt];
      var bufs, ii := [], index;
      while ii < index + cnt
        invariant index <= ii <= index + cnt && |bufs| == ii - index
        invariant forall i | 0 <= i < |bufs| :: bufs[i] == ser(es[i])
      {
        bufs := bufs + [ser(logs[ii])];
        ii := ii + 1;
      }
      assert bufs == Mapped(ser, es);
      out := WriteFrame(w, bufs);
    }

    /** Store the framed entries at consecutive indexes, over what is there. */
    method Place(index: nat, pack: seq<Byte>, w: nat, de: seq<Byte> -> Entry, ghost bufs: seq<seq<Byte>>)
      requires Fits(w, bufs) && pack == Frame(w, bufs)
      modifies `logs
      ensures logs == Placed(old(logs), index, Mapped(de, bufs))
    {
      hide Word, Value, Body, Frame;
      ghost var es := Mapped(de, bufs);
      ReadCount(w, bufs);
      var count := Value(pack[..w]);
      var pos, ii := w, 0;
      assert bufs[0..] == bufs && es[0..] == es;
      while ii < count
        invariant 0 <= ii <= count == |bufs| && w <= pos <= |pack| && pack[pos..] == Body(w, bufs[ii..])
        invariant Placed(logs, index + ii, es[ii..]) == Placed(old(logs), index, es)
      {
        ghost var rest := bufs[ii..];
        assert rest[0] == bufs[ii] && rest[1..] == bufs[ii + 1..] && es[ii..][1..] == es[ii + 1..];
        ReadFirst(w, rest);
        var tail := pack[pos..];
        var size := Value(tail[..w]);
        var buf := tail[w..w + size];
        logs := logs[index + ii := de(buf)];
        assert pack[pos + w + size..] == tail[w + size..];
        pos := pos + w + size;
        ii := ii + 1;
      }
      assert es[count..] == [];
    }

    /** The store then starts at its first index after the dummy's, or at 1. */
    method ApplyPack(index: nat, pack: seq<Byte>, w: nat, de: seq<Byte> -> Entry, ghost bufs: seq<seq<Byte>>)
      requires Valid() && index >= 1 && Fits(w, bufs) && pack == Frame(w, bufs)
      modifies this
      ensures bufs == [] ==>
                Valid() && Contents() == old(Contents()) && startIdx == if Contents() == [] then 1 else old(startIdx)
      ensures bufs != [] ==>
                (Valid() <==> Touches(old(startIdx), |old(Contents())|, index, |bufs|))
      ensures bufs != [] && Valid() ==>
                && startIdx == From(old(startIdx), |old(Contents())|, index) && Dummy() == old(Dummy())
                && Contents() == Merged(old(startIdx), old(Contents()), index, Mapped(de, bufs))
    {
      ghost var before, start, n, es := logs, startIdx, |logs| - 1, Mapped(de, bufs);
      Place(index, pack, w, de, bufs);
      FindFirst();
      if bufs == [] {
        EmptyPack(before, start, n, startIdx);
      } else {
        if Touches(start, n, index, |es|) {
          PackTouches(before, start, n, index, es, startIdx);
        } else {
          PackLeavesGap(before, start, n, index, es, startIdx);
        }
      }
    }

    method FindFirst()
      modifies `startIdx
      ensures IsFirst(logs, startIdx)
    {
      var keys := set k | k in logs && k > 0;
      if keys == {} {
        startIdx := 1;
        assert forall k: nat :: k in logs ==> k == 0 by { assert forall k: nat :: k in logs && k > 0 ==> k in keys; }
      } else {
        ghost var least := LeastExists(keys);
        var first :| first in keys && forall k | k in keys :: first <= k;
        startIdx := first;
        assert first in logs && forall k: nat :: k in logs && k > 0 ==> k in keys;
      }
    }

    /** A pack of everything, applied to an empty store, restores the same entries at the same indexes. */
    method CopyTo(other: Store, w: nat, ser: Entry -> seq<Byte>, de: seq<Byte> -> Entry)
      requires Valid() && Contents() != [] && other != this && other.Valid() && other.Contents() == []
      requires Fits(w, Mapped(ser, Contents())) && forall e :: de(ser(e)) == e
      modifies other
      ensures other.Valid() && other.startIdx == startIdx && other.Contents() == Contents()
    {
      hide Frame, Fits, Mapped, Merged, From;
      var all := |logs| - 1;
      assert Contents()[0..all] == Contents();
      MappedBack(ser, de, Contents());
      MergedFresh(other.startIdx, startIdx, Contents());
      var pack := Pack(startIdx, all, w, ser);
      other.ApplyPack(startIdx, pack, w, de, Mapped(ser, Contents()));
    }
  }
}
