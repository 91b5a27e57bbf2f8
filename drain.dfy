/** What one drain pass of the offline queue (`syncData` in script.js) must leave behind,
    stated on values. `ok[i]` is the outcome of the send for the entry at ORIGINAL position
    `i`: true when the request did not throw. */
module Drain {

  /** The number of sends that did not throw. */
  function CountTrue(ok: seq<bool>): (n: nat)
    ensures n <= |ok|
  {
    if ok == [] then 0 else (if ok[0] then 1 else 0) + CountTrue(ok[1..])
  }

  /** No send succeeded exactly when every send threw; all succeeded exactly when none threw. */
  lemma {:induction false} CountTrueExtremes(ok: seq<bool>)
    ensures CountTrue(ok) == 0 <==> forall i :: 0 <= i < |ok| ==> !ok[i]
    ensures CountTrue(ok) == |ok| <==> forall i :: 0 <= i < |ok| ==> ok[i]
  {
    if ok != [] {
      CountTrueExtremes(ok[1..]);
      assert forall i :: 1 <= i < |ok| ==> ok[i] == ok[1..][i - 1];
    }
  }

  /** The entries a drain keeps: those whose send threw, in their original order. */
  function Survivors<T>(q: seq<T>, ok: seq<bool>): (r: seq<T>)
    requires |ok| == |q|
    ensures |r| + CountTrue(ok) == |q|
  {
    if q == [] then [] else (if ok[0] then [] else [q[0]]) + Survivors(q[1..], ok[1..])
  }

  /** The entries a drain removes: those whose send did not throw, in their original order. */
  function Delivered<T>(q: seq<T>, ok: seq<bool>): (r: seq<T>)
    requires |ok| == |q|
    ensures |r| == CountTrue(ok)
  {
    if q == [] then [] else (if ok[0] then [q[0]] else []) + Delivered(q[1..], ok[1..])
  }

  /** The original positions whose send threw, in increasing order: an independent,
      index-based description of what a drain must keep. */
  function FailedPositions(ok: seq<bool>): (idx: seq<nat>)
    ensures forall j :: 0 <= j < |idx| ==> idx[j] < |ok| && !ok[idx[j]]
    ensures forall j, k :: 0 <= j < k < |idx| ==> idx[j] < idx[k]
    ensures forall i :: 0 <= i < |ok| && !ok[i] ==> i in idx
  {
    if ok == [] then []
    else
      var last := |ok| - 1;
      var front := FailedPositions(ok[..last]);
      assert forall j :: 0 <= j < |front| ==> ok[front[j]] == ok[..last][front[j]];
      assert forall i :: 0 <= i < last ==> ok[i] == ok[..last][i];
      front + (if ok[last] then [] else [last])
  }

  /** The i-th survivor is the original entry at the i-th failed position: the survivors are
      exactly the failed entries, unchanged and in their original relative order. */
  lemma {:induction false} SurvivorsAreFailedEntries<T>(q: seq<T>, ok: seq<bool>)
    requires |ok| == |q|
    ensures |Survivors(q, ok)| == |FailedPositions(ok)|
    ensures forall j :: 0 <= j < |Survivors(q, ok)| ==>
      Survivors(q, ok)[j] == q[FailedPositions(ok)[j]]
  {
    if q != [] {
      var last := |q| - 1;
      var qf, okf := q[..last], ok[..last];
      assert q == qf + [q[last]];
      assert ok == okf + [ok[last]];
      SurvivorsAreFailedEntries(qf, okf);
      DrainOfEnqueued(qf, okf, q[last], ok[last]);
      var front, pos := Survivors(qf, okf), FailedPositions(okf);
      var tail := if ok[last] then [] else [q[last]];
      assert Survivors(q, ok) == front + tail;
      assert FailedPositions(ok) == pos + (if ok[last] then [] else [last]);
      forall j | 0 <= j < |front| ensures (front + tail)[j] == q[pos[j]] {
        assert qf[pos[j]] == q[pos[j]];
      }
    }
  }

  /** A drain neither loses nor duplicates entries: kept and removed together are the queue. */
  lemma {:induction false} DrainPartitionsQueue<T>(q: seq<T>, ok: seq<bool>)
    requires |ok| == |q|
    ensures multiset(Survivors(q, ok)) + multiset(Delivered(q, ok)) == multiset(q)
  {
    if q != [] {
      DrainPartitionsQueue(q[1..], ok[1..]);
      assert q == [q[0]] + q[1..];
    }
  }

  /** When every send throws, the queue is kept as it is. */
  lemma {:induction false} AllFailedKeepsQueue<T>(q: seq<T>, ok: seq<bool>)
    requires |ok| == |q|
    requires forall i :: 0 <= i < |ok| ==> !ok[i]
    ensures Survivors(q, ok) == q
    ensures Delivered(q, ok) == []
  {
    if q != [] {
      assert forall i :: 0 <= i < |ok[1..]| ==> !ok[1..][i] by {
        forall i | 0 <= i < |ok[1..]| ensures !ok[1..][i] { assert ok[1..][i] == ok[i + 1]; }
      }
      AllFailedKeepsQueue(q[1..], ok[1..]);
      assert q == [q[0]] + q[1..];
    }
  }

  /** When every send succeeds, nothing is kept and everything is delivered in queue order. */
  lemma {:induction false} AllDeliveredEmptiesQueue<T>(q: seq<T>, ok: seq<bool>)
    requires |ok| == |q|
    requires forall i :: 0 <= i < |ok| ==> ok[i]
    ensures Survivors(q, ok) == []
    ensures Delivered(q, ok) == q
  {
    if q != [] {
      assert forall i :: 0 <= i < |ok[1..]| ==> ok[1..][i] by {
        forall i | 0 <= i < |ok[1..]| ensures ok[1..][i] { assert ok[1..][i] == ok[i + 1]; }
      }
      AllDeliveredEmptiesQueue(q[1..], ok[1..]);
      assert q == [q[0]] + q[1..];
    }
  }

  /** A drain treats each entry on its own: the outcome for a record enqueued last decides
      only whether that record is kept, and the earlier entries fare as they would without it. */
  lemma {:induction false} DrainOfEnqueued<T>(q: seq<T>, ok: seq<bool>, x: T, sent: bool)
    requires |ok| == |q|
    ensures Survivors(q + [x], ok + [sent]) == Survivors(q, ok) + (if sent then [] else [x])
    ensures Delivered(q + [x], ok + [sent]) == Delivered(q, ok) + (if sent then [x] else [])
  {
    if q == [] {
      assert q + [x] == [x] && ok + [sent] == [sent];
    } else {
      var qs, oks := q[1..], ok[1..];
      assert (q + [x])[1..] == qs + [x];
      assert (ok + [sent])[1..] == oks + [sent];
      DrainOfEnqueued(qs, oks, x, sent);
      var head := if ok[0] then [] else [q[0]];
      assert Survivors(q + [x], ok + [sent]) == head + Survivors(qs + [x], oks + [sent]);
      assert Survivors(q, ok) == head + Survivors(qs, oks);
      var headD := if ok[0] then [q[0]] else [];
      assert Delivered(q + [x], ok + [sent]) == headD + Delivered(qs + [x], oks + [sent]);
      assert Delivered(q, ok) == headD + Delivered(qs, oks);
    }
  }

  /** Draining the suffix starting at `i` decides entry `i` and then drains the rest; this is
      the step a backward loop takes. */
  lemma SurvivorsFrom<T>(q: seq<T>, ok: seq<bool>, i: nat)
    requires |ok| == |q| && i < |q|
    ensures Survivors(q[i..], ok[i..]) ==
      (if ok[i] then [] else [q[i]]) + Survivors(q[i + 1..], ok[i + 1..])
    ensures CountTrue(ok[i..]) == (if ok[i] then 1 else 0) + CountTrue(ok[i + 1..])
  {
    assert q[i..][1..] == q[i + 1..];
    assert ok[i..][1..] == ok[i + 1..];
  }

  /** Once the backward walk has passed position 0, the suffix it has drained is the whole
      queue. */
  lemma SurvivorsFromStart<T>(q: seq<T>, ok: seq<bool>)
    requires |ok| == |q|
    ensures q[..0] + Survivors(q[0..], ok[0..]) == Survivors(q, ok)
    ensures CountTrue(ok[0..]) == CountTrue(ok)
  {
    assert q[0..] == q && ok[0..] == ok;
  }

  /** One step of the backward walk. Before visiting `i` the working copy is the unvisited
      prefix `q[..i + 1]` followed by the survivors of the visited suffix. Entry `i` is still
      at index `i`, since splicing at larger indices never moves it. Splicing it out when its
      send did not throw, or keeping the copy when it threw, leaves the prefix `q[..i]`
      followed by the survivors of the suffix from `i`. */
  lemma SpliceStep<T>(q: seq<T>, ok: seq<bool>, i: nat, data: seq<T>)
    requires |ok| == |q| && i < |q|
    requires data == q[..i + 1] + Survivors(q[i + 1..], ok[i + 1..])
    ensures i < |data| && data[i] == q[i]
    ensures (if ok[i] then data[..i] + data[i + 1..] else data) ==
      q[..i] + Survivors(q[i..], ok[i..])
  {
    var kept := Survivors(q[i + 1..], ok[i + 1..]);
    SurvivorsFrom(q, ok, i);
    assert data[..i] == q[..i];
    assert data[i + 1..] == kept;
    assert q[..i + 1] == q[..i] + [q[i]];
  }
}
