// From every reachable state of the client stack, any callback that was not cancelled can still run.
module StackProgress {
  import C = Coalescer
  import W = CurlWorker
  import opened ClientStack
  import opened Options

  /** The hash of the wrapped request that sub joined. */
  function KeyOf(s: State, sub: C.SubId): C.Key
    requires sub < |s.co.joined| && s.co.joined[sub] < |s.co.issued|
  {
    s.co.issued[s.co.joined[sub]]
  }

  predicate Subscribed(s: State, sub: C.SubId) {
    sub < |s.co.joined| && s.co.joined[sub] < |s.co.issued| && sub !in s.co.cancelled
  }

  /** A step that brings sub closer to its callback, without a call of the user. */
  function Next(s: State, sub: C.SubId): Step
    requires Subscribed(s, sub)
  {
    match s.curl.pc
    case Calling(call, _) =>
      if C.Enabled(s.co, C.Respond(call.callback)) then Respond
      else if C.Enabled(s.co, C.Deliver(call.callback)) then Deliver
      else Work(W.Return)
    case Locking(_) => Work(W.Lock)
    case Sleeping => Work(W.SleepEnds)
    case Parked => Work(W.Notify)
    case Launch => Work(W.PerformAll(if KeyOf(s, sub) in s.curl.running then [W.Done(KeyOf(s, sub))] else []))
    case Reading(_) => Work(if s.curl.done != [] then W.Read else W.Decide(false))
  }

  // ----- what these steps use up, the most important first

  /** Whether the transfer goes on. */
  function Transfers(s: State, sub: C.SubId): nat
    requires Subscribed(s, sub)
  {
    if KeyOf(s, sub) in s.curl.running then 1 else 0
  }

  /** How far the worker is from the message loop, or while the transfer goes on, from curl_multi_perform. */
  function Distance(s: State, sub: C.SubId): nat
    requires Subscribed(s, sub)
  {
    match s.curl.pc
    case Calling(_, _) => 5
    case Sleeping => 4
    case Parked => 4
    case Locking(_) => 3
    case Reading(_) => 1 + Transfers(s, sub)
    case Launch => 2 - Transfers(s, sub)
  }

  function Unanswered(s: State): nat {
    if s.curl.pc.Calling? && C.Enabled(s.co, C.Respond(s.curl.pc.call.callback)) then 1 else 0
  }

  function Collected(s: State): nat {
    if s.curl.pc.Calling? && s.curl.pc.call.callback in s.co.batches then |s.co.batches[s.curl.pc.call.callback]| else 0
  }

  predicate Closer(t: State, s: State, sub: C.SubId)
    requires Subscribed(s, sub) && Subscribed(t, sub)
  {
    || Transfers(t, sub) < Transfers(s, sub)
    || (Transfers(t, sub) == Transfers(s, sub)
        && (|| |t.curl.done| < |s.curl.done|
            || (|t.curl.done| == |s.curl.done|
                && (|| Distance(t, sub) < Distance(s, sub)
                    || (Distance(t, sub) == Distance(s, sub)
                        && (|| Unanswered(t) < Unanswered(s)
                            || (Unanswered(t) == Unanswered(s) && Collected(t) < Collected(s))))))))
  }

  lemma CallbackStep(s: State, sub: C.SubId)
    requires Inv(s) && Subscribed(s, sub) && s.curl.pc.Calling?
    ensures
      var step := Next(s, sub);
      && Enabled(s, step) && Subscribed(Apply(s, step), sub) && Closer(Apply(s, step), s, sub)
  {
    hide C.Inv, W.Inv, HandlesOk, LiveOk, BatchesOk, C.Subscribers;
  }

  /** Outside of response callbacks a callback that has not run waits for a request with a handle. */
  lemma StillPending(s: State, sub: C.SubId)
    requires Inv(s) && Subscribed(s, sub) && !C.Delivered(s.co, sub) && !s.curl.pc.Calling?
    ensures KeyOf(s, sub) in s.curl.handles
    ensures KeyOf(s, sub) in s.curl.running + W.Finished(s.curl.done)
  {
    hide C.LogOk, C.BatchesOk, C.AnswersOk, C.Delivered, W.RestOk, W.CallsOk, W.AllAccounted, W.Finished, W.NoRepeats;
    assert C.Accounted(s.co, sub);
    assert forall w | w in s.co.batches :: s.co.batches[w] == [];
    assert C.Waiting(s.co, sub);
    var k :| k in s.co.inFlight && sub in s.co.inFlight[k].multiRequests;
    assert C.EntryOk(s.co, k);
    assert C.Live(s.co, s.co.joined[sub]);
    assert W.Pending(s.curl, s.co.joined[sub]);
    var h :| h in s.curl.handles && s.curl.handles[h].request == s.co.joined[sub];
    assert HandleOk(s, h);
  }

  lemma OneFinished(h: W.Hash)
    ensures W.Finished([W.Done(h)]) == {h} && W.Finished([]) == {} && W.NoRepeats([W.Done(h)]) && W.NoRepeats([])
  {
    assert [W.Done(h)][0].hash in W.Finished([W.Done(h)]);
  }

  lemma MessageHasHandle(s: W.State)
    requires W.HandlesOk(s) && s.done != [] && s.done[0].Done?
    ensures s.done[0].hash in s.handles
  {
    assert s.done[0].hash in W.Finished(s.done);
  }

  /** With a handle present a wake-up is on its way. */
  lemma WillWake(s: State)
    requires Inv(s) && s.curl.handles != map[]
    ensures s.curl.pc == W.Parked ==> s.curl.notifies > 0
    ensures s.curl.pc == W.Locking(W.CheckPredicate) ==> s.curl.newRequest
  {
    hide C.Inv, W.HandlesOk, W.CallsOk, W.AllAccounted, Linked;
  }

  /** The lock is taken, the sleep ends, or a caller notifies. */
  lemma WakingStep(s: State, sub: C.SubId)
    requires Inv(s) && Subscribed(s, sub) && !C.Delivered(s.co, sub)
    requires s.curl.pc.Locking? || s.curl.pc.Sleeping? || s.curl.pc.Parked?
    ensures
      var step := Next(s, sub);
      && Enabled(s, step) && Subscribed(Apply(s, step), sub) && Closer(Apply(s, step), s, sub)
  {
    hide Inv, C.Delivered, C.Enabled, C.Apply;
    StillPending(s, sub);
    WillWake(s);
  }

  /** curl_multi_perform finishes the transfer if it goes on. */
  lemma Performed(s: W.State, key: W.Hash)
    requires s.pc == W.Launch
    ensures
      var step := W.PerformAll(if key in s.running then [W.Done(key)] else []);
      && W.Enabled(s, step)
      && var t := W.Apply(s, step);
      && key !in t.running && t.pc == W.Reading(0) && (key !in s.running ==> t.done == s.done)
  {
    OneFinished(key);
    hide W.Finished, W.NoRepeats;
    if key !in s.running {
      assert s.done + [] == s.done;
    }
  }

  lemma LaunchStep(s: State, sub: C.SubId)
    requires Inv(s) && Subscribed(s, sub) && !C.Delivered(s.co, sub)
    requires s.curl.pc.Launch?
    ensures
      var step := Next(s, sub);
      && Enabled(s, step) && Subscribed(Apply(s, step), sub) && Closer(Apply(s, step), s, sub)
  {
    hide Inv, Closer, W.Enabled, W.Apply, C.Enabled, C.Apply, C.Delivered;
    var key := KeyOf(s, sub);
    var work := W.PerformAll(if key in s.curl.running then [W.Done(key)] else []);
    assert Next(s, sub) == Work(work);
    Performed(s.curl, key);
    hide Next, Subscribed, KeyOf;
    PerformedIsCloser(Apply(s, Work(work)), s, sub);
  }

  lemma PerformedIsCloser(t: State, s: State, sub: C.SubId)
    requires Subscribed(s, sub) && t.co == s.co && s.curl.pc == W.Launch && t.curl.pc == W.Reading(0)
    requires KeyOf(s, sub) !in t.curl.running && (KeyOf(s, sub) !in s.curl.running ==> t.curl.done == s.curl.done)
    ensures Subscribed(t, sub) && Closer(t, s, sub)
  {
    hide C.Enabled;
    assert KeyOf(t, sub) == KeyOf(s, sub);
    hide KeyOf;
  }

  lemma ReadStep(s: State, sub: C.SubId)
    requires Inv(s) && Subscribed(s, sub) && !C.Delivered(s.co, sub)
    requires s.curl.pc.Reading? && s.curl.done != []
    ensures
      var step := Next(s, sub);
      && Enabled(s, step) && Subscribed(Apply(s, step), sub) && Closer(Apply(s, step), s, sub)
  {
    if s.curl.done[0].Done? {
      MessageHasHandle(s.curl);
    }
    hide Inv, W.Finished, W.NoRepeats, C.Delivered, C.Enabled, C.Apply;
  }

  /** No message is left, so the transfer goes on and the worker does not park. */
  lemma DecideStep(s: State, sub: C.SubId)
    requires Inv(s) && Subscribed(s, sub) && !C.Delivered(s.co, sub)
    requires s.curl.pc.Reading? && s.curl.done == []
    ensures
      var step := Next(s, sub);
      && Enabled(s, step) && Subscribed(Apply(s, step), sub) && Closer(Apply(s, step), s, sub)
  {
    hide Inv, W.Finished, C.Delivered, C.Enabled, C.Apply;
    StillPending(s, sub);
    OneFinished(KeyOf(s, sub));
    StillActive(s, KeyOf(s, sub));
  }

  lemma StillActive(s: State, key: W.Hash)
    requires Inv(s) && key in s.curl.running
    ensures s.curl.pc == W.Reading(0) ==> s.curl.active > 0
  {
    hide C.Inv, W.HandlesOk, W.CallsOk, W.AllAccounted, Linked;
  }

  lemma NextStep(s: State, sub: C.SubId)
    requires Inv(s) && Subscribed(s, sub) && !C.Delivered(s.co, sub)
    ensures
      var step := Next(s, sub);
      && Enabled(s, step) && Subscribed(Apply(s, step), sub) && Closer(Apply(s, step), s, sub)
  {
    hide Inv, Enabled, Apply, Closer, Next, Subscribed, C.Delivered;
    match s.curl.pc
    case Calling(_, _) => CallbackStep(s, sub);
    case Launch => LaunchStep(s, sub);
    case Reading(_) =>
      if s.curl.done != [] {
        ReadStep(s, sub);
      } else {
        DecideStep(s, sub);
      }
    case Locking(_) => WakingStep(s, sub);
    case Sleeping => WakingStep(s, sub);
    case Parked => WakingStep(s, sub);
  }

  predicate NoCalls(steps: seq<Step>) {
    forall i | 0 <= i < |steps| :: !steps[i].Perform? && !steps[i].Cancel?
  }

  lemma Prepend(s: State, step: Step, rest: seq<Step>)
    requires Enabled(s, step) && Runs(Apply(s, step), rest)
    ensures Runs(s, [step] + rest) && After(s, [step] + rest) == After(Apply(s, step), rest)
  {
    hide Enabled, Apply;
    assert ([step] + rest)[0] == step && ([step] + rest)[1..] == rest;
  }

  /** Driving the stack until the callback has run. */
  lemma {:induction false} Drive(s: State, sub: C.SubId) returns (steps: seq<Step>)
    requires Inv(s) && Subscribed(s, sub)
    ensures Runs(s, steps) && NoCalls(steps) && C.Delivered(After(s, steps).co, sub)
    decreases Transfers(s, sub), |s.curl.done|, Distance(s, sub), Unanswered(s), Collected(s)
  {
    hide Inv, Enabled, Apply, Transfers, Distance, Unanswered, Collected, C.Delivered, Subscribed;
    if C.Delivered(s.co, sub) {
      steps := [];
    } else {
      var step := Next(s, sub);
      NextStep(s, sub);
      StepKeeps(s, step);
      NextIsNoCall(s, sub);
      hide Next, Runs, After;
      var rest := Drive(Apply(s, step), sub);
      Prepend(s, step, rest);
      steps := [step] + rest;
    }
  }

  lemma NextIsNoCall(s: State, sub: C.SubId)
    requires Subscribed(s, sub)
    ensures !Next(s, sub).Perform? && !Next(s, sub).Cancel?
  {
  }

  /**
   * From every reachable state of the client stack, the callback of a subscription that was
   * not cancelled can still run, without a new call of the user and whatever is pending.
   */
  lemma CallbackCanRun(before: seq<Step>, sub: C.SubId) returns (more: seq<Step>)
    requires Runs(INIT, before)
    requires var s := After(INIT, before); sub < |s.co.joined| && sub !in s.co.cancelled
    ensures Runs(INIT, before + more) && C.Delivered(After(INIT, before + more).co, sub) && NoCalls(more)
  {
    var s := After(INIT, before);
    InitInv();
    ReachableInv(INIT, before);
    JoinedIsIssued(s, sub);
    more := Drive(s, sub);
    RunsInTwoParts(INIT, before, more);
  }

  lemma JoinedIsIssued(s: State, sub: C.SubId)
    requires Inv(s) && sub < |s.co.joined| && sub !in s.co.cancelled
    ensures s.co.joined[sub] < |s.co.issued|
  {
    assert C.Accounted(s.co, sub);
    hide W.Inv, Linked, C.AllAccounted;
    if C.Waiting(s.co, sub) {
      var k :| k in s.co.inFlight && sub in s.co.inFlight[k].multiRequests;
      assert C.EntryOk(s.co, k);
    } else if C.Collected(s.co, sub) {
      var w :| w in s.co.batches && sub in s.co.batches[w];
      assert C.BatchOk(s.co, w);
    } else {
      var i :| 0 <= i < |s.co.log| && s.co.log[i].sub == sub;
      assert s.co.log[i] in s.co.log;
    }
  }

  lemma {:induction false} RunsInTwoParts(s: State, a: seq<Step>, b: seq<Step>)
    requires Runs(s, a) && Runs(After(s, a), b)
    ensures Runs(s, a + b) && After(s, a + b) == After(After(s, a), b)
    decreases |a|
  {
    hide Apply, Enabled;
    if a == [] {
      assert a + b == b;
    } else {
      assert (a + b)[0] == a[0] && (a + b)[1..] == a[1..] + b;
      RunsInTwoParts(Apply(s, a[0]), a[1..], b);
    }
  }
}
