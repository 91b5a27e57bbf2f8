/** The page's persistent state and the three operations of script.js that change it: the
    submit handler, `saveOffline` and `syncData`, plus the pending count `updateSyncUI` shows.
    The network is an oracle: each send is given as "did not throw" (true) or "threw" (false). */
module OfflineSync {
  import opened FormEncoding
  import opened Drain

  datatype Option<T> = None | Some(value: T)

  /** Which receipt the submit handler shows: sent online, or saved for a later sync. */
  datatype Outcome = Delivered | Queued

  /** The form bodies a drain of `q` posts: one per entry, from the last entry to the first. */
  function BackwardAttempts(q: seq<Expense>): (bodies: seq<seq<Field>>)
    ensures |bodies| == |q|
  {
    seq(|q|, k requires 0 <= k < |q| => CreateGoogleFormData(q[|q| - 1 - k]))
  }

  /** Visiting position `i` next adds the body for `q[i]` after the bodies already posted. */
  lemma BackwardAttemptsFrom(q: seq<Expense>, i: nat)
    requires i < |q|
    ensures BackwardAttempts(q[i..]) == BackwardAttempts(q[i + 1..]) + [CreateGoogleFormData(q[i])]
  {
    var a, b := BackwardAttempts(q[i..]), BackwardAttempts(q[i + 1..]);
    forall k | 0 <= k < |b| ensures a[k] == b[k] {
      assert q[i..][|q[i..]| - 1 - k] == q[i + 1..][|q[i + 1..]| - 1 - k];
    }
  }

  /** Once the backward walk has passed position 0, it has posted a body for every entry. */
  lemma BackwardAttemptsFromStart(q: seq<Expense>)
    ensures BackwardAttempts(q[0..]) == BackwardAttempts(q)
  {
    assert q[0..] == q;
  }

  class ExpenseApp {
    /** The `offlineExpenses` slot of local storage: absent, or the list of queued records. */
    var stored: Option<seq<Expense>>
    /** Every form body handed to the network, in call order, whether or not the send threw. */
    var posted: seq<seq<Field>>

    constructor (initial: Option<seq<Expense>>)
      ensures stored == initial && posted == []
    {
      stored := initial;
      posted := [];
    }

    /** The queue as the code reads it: an absent slot reads as the empty list. */
    function Pending(): seq<Expense>
      reads this
    {
      match stored
      case None => []
      case Some(q) => q
    }

    /** The count shown on the sync button; the button is hidden exactly when it is zero,
        that is when the slot is absent or holds an empty list. */
    function PendingCount(): (n: nat)
      reads this
      ensures n == 0 <==> stored == None || stored == Some([])
      ensures stored.Some? ==> n == |stored.value|
    {
      |Pending()|
    }

    /** Appends one record to the stored queue; an absent slot becomes exactly `[data]`. */
    method SaveOffline(data: Expense)
      modifies this`stored
      ensures stored == Some(old(Pending()) + [data])
      ensures old(stored) == None ==> stored == Some([data])
      ensures PendingCount() == old(PendingCount()) + 1
    {
      var existing := Pending();
      assert old(stored) == None ==> existing + [data] == [data];
      existing := existing + [data];
      stored := Some(existing);
    }

    /** The submit handler: one send; if it throws, the record is queued once, otherwise the
        stored queue is left as it was. */
    method Submit(data: Expense, sendOk: bool) returns (outcome: Outcome)
      modifies this
      ensures posted == old(posted) + [CreateGoogleFormData(data)]
      ensures outcome == Delivered <==> sendOk
      ensures sendOk ==> stored == old(stored)
      ensures !sendOk ==> stored == Some(old(Pending()) + [data])
      ensures PendingCount() == old(PendingCount()) + (if sendOk then 0 else 1)
    {
      var formData := CreateGoogleFormData(data);
      posted := posted + [formData];
      if sendOk {
        outcome := Delivered;
      } else {
        SaveOffline(data);
        outcome := Queued;
      }
    }

    /** One drain pass. `outcomes[i]` is the send outcome for the entry at original position
        `i`. An empty queue returns at once: nothing is sent and nothing is written. Otherwise
        every entry is sent once, from the last to the first, the entries whose send did not
        throw are spliced out, and the rest are written back in one write. */
    method SyncData(outcomes: seq<bool>) returns (successCount: nat)
      requires |outcomes| == |Pending()|
      modifies this
      ensures old(Pending()) == [] ==> stored == old(stored) && posted == old(posted)
      ensures old(Pending()) != [] ==> stored == Some(Survivors(old(Pending()), outcomes))
      ensures posted == old(posted) + BackwardAttempts(old(Pending()))
      ensures successCount == CountTrue(outcomes)
      ensures successCount + PendingCount() == old(PendingCount())
    {
      var offlineData := Pending();
      if |offlineData| == 0 {
        assert posted + BackwardAttempts(offlineData) == posted;
        return 0;
      }
      ghost var original := offlineData;
      assert original == old(Pending());
      successCount := 0;
      var i := |offlineData| - 1;
      while i >= 0
        invariant -1 <= i < |original|
        invariant offlineData == original[..i + 1] + Survivors(original[i + 1..], outcomes[i + 1..])
        invariant successCount == CountTrue(outcomes[i + 1..])
        invariant posted == old(posted) + BackwardAttempts(original[i + 1..])
        invariant stored == old(stored)
      {
        SpliceStep(original, outcomes, i, offlineData);
        SurvivorsFrom(original, outcomes, i);
        BackwardAttemptsFrom(original, i);
        var entry := offlineData[i];
        var formData := CreateGoogleFormData(entry);
        posted := posted + [formData];
        assert posted == old(posted) + BackwardAttempts(original[i..]);
        if outcomes[i] {
          offlineData := offlineData[..i] + offlineData[i + 1..];
          successCount := successCount + 1;
        }
        i := i - 1;
      }
      SurvivorsFromStart(original, outcomes);
      BackwardAttemptsFromStart(original);
      stored := Some(offlineData);
    }
  }

  /** The offline-then-sync scenario: a record submitted while the send throws is queued on
      its own in an empty store, and a later sync whose send succeeds delivers it and
      leaves nothing pending. */
  method SubmitOfflineThenSync(lunch: Expense)
  {
    var app := new ExpenseApp(None);
    var outcome := app.Submit(lunch, false);
    assert [] + [lunch] == [lunch];
    assert outcome == Queued && app.Pending() == [lunch] && app.PendingCount() == 1;
    AllDeliveredEmptiesQueue([lunch], [true]);
    assert CountTrue([true]) == 1;
    var delivered := app.SyncData([true]);
    assert delivered == 1 && app.PendingCount() == 0;
  }
}
