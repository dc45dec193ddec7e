// ClientMultiRequestImplementation above ClientCurl: a wrapped request of the coalescer is
// a call of the curl client, and its response callback is what the worker runs.
module ClientStack {
  import C = Coalescer
  import W = CurlWorker
  import opened Options

  datatype State = State(co: C.State, curl: W.State)

  const INIT := State(C.INIT, W.INIT)

  datatype Step =
    | Perform(key: C.Key)       // performRequest of the coalescer, with that of the wrapped client inside
    | Respond                   // the worker runs a response callback: its locked region
    | Deliver                   // one iteration of the loop of that callback
    | Cancel(sub: C.SubId)      // requestTokenDidCancel; stopping a wrapped request does nothing in ClientCurl
    | Work(step: W.Step)        // every other step of the worker, of callers about to notify, and of wake-ups

  /** The wrapped request whose response callback the worker runs. */
  function Running(s: State): Option<C.WrappedId> {
    if s.curl.pc.Calling? then Some(s.curl.pc.call.callback) else None
  }

  predicate Enabled(s: State, step: Step) {
    match step
    case Perform(key) => key in s.co.inFlight || W.Enabled(s.curl, W.Add(key, true))
    case Respond => Running(s).Some? && C.Enabled(s.co, C.Respond(Running(s).value))
    case Deliver => Running(s).Some? && C.Enabled(s.co, C.Deliver(Running(s).value))
    case Cancel(sub) => C.Enabled(s.co, C.Cancel(sub))
    case Work(step) =>
      && W.Enabled(s.curl, step) && !step.Add?
      && (step.Return? ==> var w := Running(s).value; w in s.co.answered && !C.Enabled(s.co, C.Deliver(w)))
  }

  function Apply(s: State, step: Step): State
    requires Enabled(s, step)
  {
    match step
    case Perform(key) =>
      State(C.Apply(s.co, C.Perform(key)),
        if key in s.co.inFlight then s.curl else W.Apply(s.curl, W.Add(key, true)))
    case Respond => s.(co := C.Apply(s.co, C.Respond(Running(s).value)))
    case Deliver => s.(co := C.Apply(s.co, C.Deliver(Running(s).value)))
    case Cancel(sub) => s.(co := C.Apply(s.co, C.Cancel(sub)))
    case Work(step) => s.(curl := W.Apply(s.curl, step))
  }

  predicate Runs(s: State, steps: seq<Step>)
    decreases |steps|
  {
    steps == [] || (Enabled(s, steps[0]) && Runs(Apply(s, steps[0]), steps[1..]))
  }

  function After(s: State, steps: seq<Step>): State
    requires Runs(s, steps)
    decreases |steps|
  {
    if steps == [] then s else After(Apply(s, steps[0]), steps[1..])
  }

  // ----- the invariant

  /** A handle belongs to an unanswered wrapped request of its hash, and has its response callback. */
  predicate HandleOk(s: State, h: W.Hash)
    requires h in s.curl.handles
  {
    var info := s.curl.handles[h];
    info.callback == Some(info.request) && C.Live(s.co, info.request) && s.co.issued[info.request] == h
  }

  predicate HandlesOk(s: State) {
    forall h | h in s.curl.handles :: HandleOk(s, h)
  }

  /** An unanswered wrapped request has a handle, or the worker is running its response callback. */
  ghost predicate LiveOk(s: State) {
    forall w: C.WrappedId | C.Live(s.co, w) :: W.Pending(s.curl, w) || Running(s) == Some(w)
  }

  /** Callbacks are collected only while the worker runs the response callback that collected them. */
  predicate BatchesOk(s: State) {
    forall w | w in s.co.batches && s.co.batches[w] != [] :: Running(s) == Some(w)
  }

  ghost predicate Linked(s: State) {
    && s.curl.calls == |s.co.issued| && s.curl.silent == {}
    && (Running(s).Some? ==> Running(s).value < |s.co.issued|)
    && HandlesOk(s) && LiveOk(s) && BatchesOk(s)
  }

  ghost predicate Inv(s: State) {
    C.Inv(s.co) && W.Inv(s.curl) && Linked(s)
  }

  lemma FreshNotAnswered(s: C.State)
    requires C.Inv(s)
    ensures |s.issued| !in s.answered
  {
    hide C.LogOk, C.EntriesOk, C.BatchesOk, C.AllAccounted;
  }

  /** A request that the coalescer passes on to the curl client: one wrapped request and one handle more. */
  lemma PerformAdds(s: State, key: C.Key)
    requires Inv(s) && Enabled(s, Perform(key)) && key !in s.co.inFlight
    ensures
      var t := Apply(s, Perform(key));
      var n := |s.co.issued|;
      && t.co.issued == s.co.issued + [key] && t.co.answered == s.co.answered && t.co.batches == s.co.batches
      && t.curl.handles == s.curl.handles[key := W.HandleInfo(n, Some(n))] && key !in s.curl.handles
      && t.curl.calls == n + 1 && t.curl.silent == s.curl.silent && t.curl.pc == s.curl.pc && n !in s.co.answered
  {
    FreshNotAnswered(s.co);
    hide C.Inv, W.Inv, C.Subscribe, HandlesOk, LiveOk, BatchesOk;
  }

  lemma PerformKeeps(s: State, key: C.Key)
    requires Inv(s) && Enabled(s, Perform(key)) && key !in s.co.inFlight
    ensures Linked(Apply(s, Perform(key)))
  {
    var t := Apply(s, Perform(key));
    PerformAdds(s, key);
    hide C.Inv, W.Inv, C.Apply, W.Apply, C.Enabled, W.Enabled, Apply, Enabled;
    hide LiveOk;
    PerformLive(s, key);
    forall h | h in t.curl.handles ensures HandleOk(t, h) {
      assert h in s.curl.handles ==> HandleOk(s, h);
    }
  }

  lemma PerformLive(s: State, key: C.Key)
    requires Inv(s) && Enabled(s, Perform(key)) && key !in s.co.inFlight
    ensures LiveOk(Apply(s, Perform(key)))
  {
    var t := Apply(s, Perform(key));
    PerformAdds(s, key);
    hide C.Inv, W.Inv, C.Apply, W.Apply, C.Enabled, W.Enabled, Apply, Enabled, HandlesOk, BatchesOk;
    forall w: C.WrappedId | C.Live(t.co, w) ensures W.Pending(t.curl, w) || Running(t) == Some(w) {
      if w == |s.co.issued| {
        assert t.curl.handles[key].request == w;
      } else {
        assert C.Live(s.co, w);
        if W.Pending(s.curl, w) {
          var h :| h in s.curl.handles && s.curl.handles[h].request == w;
          assert h in t.curl.handles && t.curl.handles[h].request == w;
        }
      }
    }
  }

  /** The request of a handle has not been called back. */
  lemma NotCalledYet(s: W.State, h: W.Hash)
    requires W.Inv(s) && h in s.handles && s.pc.Calling?
    ensures s.handles[h].request != s.pc.call.callback
  {
    hide W.HandlesOk, W.RestOk, W.AllAccounted;
    assert s.log[|s.log| - 1] == s.pc.call;
    assert W.Called(s, s.pc.call.callback);
  }

  lemma RespondKeeps(s: State)
    requires Inv(s) && Enabled(s, Respond)
    ensures Linked(Apply(s, Respond))
  {
    var t := Apply(s, Respond);
    forall h | h in t.curl.handles ensures HandleOk(t, h) {
      assert HandleOk(s, h);
      NotCalledYet(s.curl, h);
    }
    hide C.Inv, W.Inv, C.Subscribers;
    assert forall w: C.WrappedId | C.Live(t.co, w) :: C.Live(s.co, w);
    hide C.Live, W.Pending;
  }

  lemma SameRequests(s: State, t: State)
    requires Linked(s) && t.curl == s.curl && t.co.issued == s.co.issued && t.co.answered == s.co.answered
    requires forall w | w in t.co.batches :: w in s.co.batches && (t.co.batches[w] != [] ==> s.co.batches[w] != [])
    ensures Linked(t)
  {
    hide W.Pending;
    forall h | h in t.curl.handles ensures HandleOk(t, h) {
      assert HandleOk(s, h);
    }
    assert forall w: C.WrappedId | C.Live(t.co, w) :: C.Live(s.co, w);
  }

  /** A finished transfer: its handle is gone and its response callback runs. */
  lemma ReadKeeps(s: State)
    requires Inv(s) && Enabled(s, Work(W.Read)) && s.curl.done[0].Done?
    ensures Linked(Apply(s, Work(W.Read)))
  {
    hide C.Inv, W.Inv;
    var t := Apply(s, Work(W.Read));
    var h0 := s.curl.done[0].hash;
    assert HandleOk(s, h0);
    forall h | h in t.curl.handles ensures HandleOk(t, h) {
      assert HandleOk(s, h);
    }
    forall w: C.WrappedId | C.Live(t.co, w) ensures W.Pending(t.curl, w) || Running(t) == Some(w) {
      assert C.Live(s.co, w);
      var h :| h in s.curl.handles && s.curl.handles[h].request == w;
      assert h != h0 ==> h in t.curl.handles && t.curl.handles[h].request == w;
    }
  }

  /** The other steps of the worker leave handles and calls alone; a callback that returns has responded. */
  lemma WorkKeeps(s: State, step: W.Step)
    requires Inv(s) && Enabled(s, Work(step)) && !(step.Read? && s.curl.done[0].Done?)
    ensures Linked(Apply(s, Work(step)))
  {
    hide C.Inv, W.Inv, W.Finished, W.NoRepeats;
    var t := Apply(s, Work(step));
    assert t.curl.handles == s.curl.handles && t.curl.calls == s.curl.calls && t.curl.silent == s.curl.silent;
    assert Running(t) == if step.Return? then None else Running(s);
    forall h | h in t.curl.handles ensures HandleOk(t, h) {
      assert HandleOk(s, h);
    }
    forall w: C.WrappedId | C.Live(t.co, w) ensures W.Pending(t.curl, w) || Running(t) == Some(w) {
      assert C.Live(s.co, w) && W.Pending(t.curl, w) == W.Pending(s.curl, w);
    }
  }

  lemma LinkedKeeps(s: State, step: Step)
    requires Inv(s) && Enabled(s, step)
    ensures Linked(Apply(s, step))
  {
    match step
    case Perform(key) =>
      if key in s.co.inFlight {
        SameRequests(s, Apply(s, step));
      } else {
        PerformKeeps(s, key);
      }
    case Respond => RespondKeeps(s);
    case Deliver => SameRequests(s, Apply(s, step));
    case Cancel(sub) => SameRequests(s, Apply(s, step));
    case Work(work) =>
      if work.Read? && s.curl.done[0].Done? {
        ReadKeeps(s);
      } else {
        WorkKeeps(s, work);
      }
  }

  lemma PartsKeep(s: State, step: Step)
    requires C.Inv(s.co) && W.Inv(s.curl) && Enabled(s, step)
    ensures C.Inv(Apply(s, step).co) && W.Inv(Apply(s, step).curl)
  {
    hide C.Inv, W.Inv, C.Enabled, C.Apply, W.Enabled, W.Apply;
    match step
    case Perform(key) =>
      CanPerform(s.co, key);
      C.StepKeeps(s.co, C.Perform(key));
      if key !in s.co.inFlight {
        W.StepKeeps(s.curl, W.Add(key, true));
      }
    case Respond => C.StepKeeps(s.co, C.Respond(Running(s).value));
    case Deliver => C.StepKeeps(s.co, C.Deliver(Running(s).value));
    case Cancel(sub) => C.StepKeeps(s.co, C.Cancel(sub));
    case Work(work) => W.StepKeeps(s.curl, work);
  }

  lemma CanPerform(s: C.State, key: C.Key)
    ensures C.Enabled(s, C.Perform(key))
  {
  }

  lemma StepKeeps(s: State, step: Step)
    requires Inv(s) && Enabled(s, step)
    ensures Inv(Apply(s, step))
  {
    PartsKeep(s, step);
    LinkedKeeps(s, step);
    hide *;
  }

  lemma InitInv()
    ensures Inv(INIT)
  {
    C.InitInv();
    W.InitInv();
  }

  lemma {:induction false} ReachableInv(s: State, steps: seq<Step>)
    requires Inv(s) && Runs(s, steps)
    ensures Inv(After(s, steps))
    decreases |steps|
  {
    hide Inv, Apply, Enabled;
    if steps != [] {
      StepKeeps(s, steps[0]);
      ReachableInv(Apply(s, steps[0]), steps[1..]);
    }
  }

  // ----- what holds in every run

  ghost predicate NeverRepeats(s: State, steps: seq<Step>)
    requires Runs(s, steps)
    decreases |steps|
  {
    steps == [] ||
    (&& (steps[0].Perform? ==> !C.RepeatsStopped(s.co, C.Perform(steps[0].key)))
     && NeverRepeats(Apply(s, steps[0]), steps[1..]))
  }

  lemma DistinctStep(s: State, step: Step)
    requires C.LiveKeysDistinct(s.co) && C.LiveHaveEntries(s.co) && Enabled(s, step)
    requires step.Perform? ==> !C.RepeatsStopped(s.co, C.Perform(step.key))
    ensures C.LiveKeysDistinct(Apply(s, step).co) && C.LiveHaveEntries(Apply(s, step).co)
  {
    hide C.LiveKeysDistinct, C.LiveHaveEntries, C.Enabled, C.Apply;
    match step
    case Perform(key) => CanPerform(s.co, key); C.DistinctStep(s.co, C.Perform(key));
    case Respond => C.DistinctStep(s.co, C.Respond(Running(s).value));
    case Deliver => C.DistinctStep(s.co, C.Deliver(Running(s).value));
    case Cancel(sub) => C.DistinctStep(s.co, C.Cancel(sub));
    case Work(_) =>
  }

  lemma {:induction false} DistinctKept(s: State, steps: seq<Step>)
    requires C.LiveKeysDistinct(s.co) && C.LiveHaveEntries(s.co) && Runs(s, steps) && NeverRepeats(s, steps)
    ensures C.LiveKeysDistinct(After(s, steps).co) && C.LiveHaveEntries(After(s, steps).co)
    decreases |steps|
  {
    hide Apply, Enabled, C.LiveKeysDistinct, C.LiveHaveEntries, C.RepeatsStopped;
    if steps != [] {
      DistinctStep(s, steps[0]);
      DistinctKept(Apply(s, steps[0]), steps[1..]);
    }
  }

  /**
   * In a run that never repeats a request told to stop before its answer, nothing but the lock
   * holds up a request of the coalescer: its hash has no handle in the curl client.
   */
  lemma WrappedRequestsAreNew(steps: seq<Step>, key: C.Key)
    requires Runs(INIT, steps) && NeverRepeats(INIT, steps)
    ensures
      var s := After(INIT, steps);
      key !in s.co.inFlight && !C.RepeatsStopped(s.co, C.Perform(key)) ==>
        key !in s.curl.handles && (!W.HoldsLock(s.curl.pc) ==> Enabled(s, Perform(key)))
  {
    InitInv();
    ReachableInv(INIT, steps);
    DistinctKept(INIT, steps);
    var s := After(INIT, steps);
    hide Runs, After, C.Inv, W.Inv, NeverRepeats;
    if key in s.curl.handles {
      assert HandleOk(s, key);
    }
  }

  /** A waiting callback is known below: the curl client has its request, or runs its response callback. */
  lemma WaitingIsKnownBelow(steps: seq<Step>, sub: C.SubId)
    requires Runs(INIT, steps)
    ensures
      var s := After(INIT, steps);
      C.Waiting(s.co, sub) ==>
        sub < |s.co.joined| && (W.Pending(s.curl, s.co.joined[sub]) || Running(s) == Some(s.co.joined[sub]))
  {
    InitInv();
    ReachableInv(INIT, steps);
    var s := After(INIT, steps);
    hide Runs, After, W.Inv, W.Pending, C.LogOk, C.BatchesOk, C.AllAccounted;
    if C.Waiting(s.co, sub) {
      var k :| k in s.co.inFlight && sub in s.co.inFlight[k].multiRequests;
      assert C.EntryOk(s.co, k);
      assert C.Live(s.co, s.co.joined[sub]);
    }
  }

  /** When the worker rests with the flag down, every callback has run or was cancelled. */
  lemma RestMeansDone(steps: seq<Step>, sub: C.SubId)
    requires Runs(INIT, steps)
    ensures
      var s := After(INIT, steps);
      s.curl.pc == W.Parked && !s.curl.newRequest && sub < |s.co.joined| ==>
        C.Delivered(s.co, sub) || sub in s.co.cancelled
  {
    InitInv();
    ReachableInv(INIT, steps);
    WaitingIsKnownBelow(steps, sub);
    var s := After(INIT, steps);
    hide Runs, After, C.LogOk, C.BatchesOk, C.EntriesOk, C.AnswersOk, C.Waiting, C.Delivered;
    hide W.HandlesOk, W.CallsOk, W.AllAccounted;
    if s.curl.pc == W.Parked && !s.curl.newRequest && sub < |s.co.joined| {
      assert s.curl.handles == map[] && Running(s) == None;
      assert C.Accounted(s.co, sub);
      assert forall w | w in s.co.batches :: s.co.batches[w] == [];
    }
  }
}
