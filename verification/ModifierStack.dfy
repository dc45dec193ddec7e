// ClientModifierImplementation above ClientMultiRequestImplementation: request and
// response modifiers that continue exactly once, retries, and no cancellation. The
// continuations of performRequest are the steps of a call.
module ModifierStack {
  import C = Coalescer

  type CallId = nat      // a call of performRequest made by the user of the client

  /** What the response modifier decided about a response. */
  datatype Verdict = Verdict(response: C.WrappedId, retry: bool)

  datatype Phase =
    | ModifyingRequest                         // with the request modifier
    | Submitted(sub: C.SubId)                  // subscribed in the coalescer
    | ModifyingResponse(response: C.WrappedId) // with the response modifier
    | Finished

  datatype Call = Call(phase: Phase, submissions: nat, verdicts: seq<Verdict>, ran: seq<C.WrappedId>)

  datatype State = State(
    co: C.State,
    calls: seq<Call>,
    owner: seq<CallId>     // for every subscription of the coalescer, the call it continues
  )

  const INIT := State(C.INIT, [], [])

  datatype Step =
    | Start                                   // performRequest, up to the request modifier
    | Continue(c: CallId, key: C.Key)         // the request modifier continues with a request of this key
    | Network(w: C.WrappedId)                 // a response reaches the coalescer
    | Deliver(w: C.WrappedId)                 // the coalescer runs one callback: up to the response modifier
    | Judge(c: CallId, retry: bool)           // the response modifier continues

  predicate Enabled(s: State, step: Step) {
    match step
    case Start => true
    case Continue(c, _) => c < |s.calls| && s.calls[c].phase == ModifyingRequest
    case Network(w) => C.Enabled(s.co, C.Respond(w))
    case Deliver(w) =>
      && C.Enabled(s.co, C.Deliver(w)) && s.co.batches[w][0] < |s.owner| && s.owner[s.co.batches[w][0]] < |s.calls|
    case Judge(c, _) => c < |s.calls| && s.calls[c].phase.ModifyingResponse?
  }

  function Apply(s: State, step: Step): State
    requires Enabled(s, step)
  {
    match step
    case Start => s.(calls := s.calls + [Call(ModifyingRequest, 0, [], [])])
    case Continue(c, key) =>
      var call := s.calls[c];
      s.(co := C.Apply(s.co, C.Perform(key)),
         calls := s.calls[c := call.(phase := Submitted(|s.co.joined|), submissions := call.submissions + 1)],
         owner := s.owner + [c])
    case Network(w) => s.(co := C.Apply(s.co, C.Respond(w)))
    case Deliver(w) =>
      var c := s.owner[s.co.batches[w][0]];
      s.(co := C.Apply(s.co, C.Deliver(w)), calls := s.calls[c := s.calls[c].(phase := ModifyingResponse(w))])
    case Judge(c, retry) =>
      var call := s.calls[c];
      var w := call.phase.response;
      var judged := call.(verdicts := call.verdicts + [Verdict(w, retry)]);
      // a retry is performRequest again, with the same callback; otherwise callback(response)
      s.(calls := s.calls[c := if retry then judged.(phase := ModifyingRequest)
                               else judged.(phase := Finished, ran := call.ran + [w])])
  }

  predicate Runs(s: State, steps: seq<Step>)
    decreases |steps|
  {
    steps == [] || (Enabled(s, steps[0]) && Runs(Apply(s, steps[0]), steps[1..]))
  }

  function After(s: State, steps: seq<Step>): State
    requires Runs(s, steps)
    decreases |steps|
  {
    if steps == [] then s else After(Apply(s, steps[0]), steps[1..])
  }

  // ----- the invariant

  function Retries(v: seq<Verdict>): nat {
    if v == [] then 0 else Retries(v[..|v| - 1]) + (if v[|v| - 1].retry then 1 else 0)
  }

  /** All verdicts but those of a finished call say retry; a finished call ran once, with the first that did not. */
  predicate CallOk(call: Call) {
    var n := |call.verdicts|;
    && (forall i | 0 <= i < n - 1 :: call.verdicts[i].retry)
    && (call.phase == Finished <==> n > 0 && !call.verdicts[n - 1].retry)
    && call.ran == (if call.phase == Finished then [call.verdicts[n - 1].response] else [])
    && call.submissions == Retries(call.verdicts) + (if call.phase == ModifyingRequest then 0 else 1)
  }

  predicate CallsOk(s: State) {
    forall c | 0 <= c < |s.calls| :: CallOk(s.calls[c])
  }

  /** A subscription not yet delivered is the one its call waits for, and a call waits for one of its own. */
  predicate OwnersOk(s: State) {
    && |s.owner| == |s.co.joined|
    && (forall sub: C.SubId | sub < |s.owner| ::
          s.owner[sub] < |s.calls| && (!C.Delivered(s.co, sub) ==> s.calls[s.owner[sub]].phase == Submitted(sub)))
    && (forall c | 0 <= c < |s.calls| && s.calls[c].phase.Submitted? ::
          var sub := s.calls[c].phase.sub;
          sub < |s.owner| && s.owner[sub] == c && !C.Delivered(s.co, sub))
  }

  predicate Inv(s: State) {
    C.Inv(s.co) && s.co.cancelled == {} && CallsOk(s) && OwnersOk(s)
  }

  lemma StartKeeps(s: State)
    requires Inv(s)
    ensures Inv(Apply(s, Start))
  {
    hide C.Inv, C.Delivered;
  }

  lemma FreshNotDelivered(s: C.State)
    requires C.Inv(s)
    ensures !C.Delivered(s, |s.joined|)
  {
    hide C.AllAccounted, C.EntriesOk, C.BatchesOk, C.AnswersOk;
    forall i | 0 <= i < |s.log| ensures s.log[i].sub != |s.joined| {
      assert s.log[i] in s.log;
    }
  }

  /** The call of a step is changed, the others are not. */
  lemma CallChanged(s: State, t: State, c: CallId)
    requires CallsOk(s) && c < |s.calls| == |t.calls| && t.calls == s.calls[c := t.calls[c]] && CallOk(t.calls[c])
    ensures CallsOk(t)
  {
    hide CallOk;
  }

  lemma ContinueOwners(s: State, c: CallId, key: C.Key)
    requires Inv(s) && Enabled(s, Continue(c, key))
    ensures OwnersOk(Apply(s, Continue(c, key)))
  {
    FreshNotDelivered(s.co);
    hide C.Inv, CallsOk;
    var t := Apply(s, Continue(c, key));
    assert t.co.log == s.co.log && |t.co.joined| == |s.co.joined| + 1;
    SameLog(s.co, t.co);
    hide C.Delivered, C.Apply;
  }

  lemma SameLog(s: C.State, t: C.State)
    requires t.log == s.log
    ensures forall sub :: C.Delivered(t, sub) == C.Delivered(s, sub)
  {
  }

  lemma ContinueKeeps(s: State, c: CallId, key: C.Key)
    requires Inv(s) && Enabled(s, Continue(c, key))
    ensures Inv(Apply(s, Continue(c, key)))
  {
    ContinueOwners(s, c, key);
    C.StepKeeps(s.co, C.Perform(key));
    hide C.Inv, OwnersOk;
    assert CallOk(s.calls[c]);
    CallChanged(s, Apply(s, Continue(c, key)), c);
  }

  lemma NetworkKeeps(s: State, w: C.WrappedId)
    requires Inv(s) && Enabled(s, Network(w))
    ensures Inv(Apply(s, Network(w)))
  {
    C.StepKeeps(s.co, C.Respond(w));
    hide C.Inv;
    var t := Apply(s, Network(w));
    assert t.co.log == s.co.log && t.co.joined == s.co.joined && t.co.cancelled == s.co.cancelled;
    SameLog(s.co, t.co);
    hide C.Delivered, C.Apply, CallOk;
  }

  /** A collected callback has not run. */
  lemma HeadNotDelivered(s: C.State, w: C.WrappedId)
    requires C.Inv(s) && C.Enabled(s, C.Deliver(w))
    ensures s.batches[w][0] < |s.joined| && !C.Delivered(s, s.batches[w][0])
  {
    hide C.AllAccounted, C.EntriesOk, C.AnswersOk;
    var sub := s.batches[w][0];
    assert sub in s.batches[w];
    assert C.BatchOk(s, w);
    forall i | 0 <= i < |s.log| ensures s.log[i].sub != sub {
      assert s.log[i] in s.log;
    }
  }

  /** A delivery adds the head of the batch to what was delivered. */
  lemma HeadDelivered(s: C.State, w: C.WrappedId)
    requires C.Enabled(s, C.Deliver(w))
    ensures
      var t := C.Apply(s, C.Deliver(w));
      && t.joined == s.joined && t.cancelled == s.cancelled
      && forall sub :: C.Delivered(t, sub) <==> C.Delivered(s, sub) || sub == s.batches[w][0]
  {
    var t := C.Apply(s, C.Deliver(w));
    var head := s.batches[w][0];
    forall sub ensures C.Delivered(t, sub) <==> C.Delivered(s, sub) || sub == head {
      assert t.log[|s.log|].sub == head;
      if C.Delivered(s, sub) {
        var i :| 0 <= i < |s.log| && s.log[i].sub == sub;
        assert t.log[i].sub == sub;
      }
    }
  }

  /** The call that a collected callback goes on with waits for exactly that. */
  lemma HeadOwner(s: State, w: C.WrappedId)
    requires Inv(s) && C.Enabled(s.co, C.Deliver(w))
    ensures
      var sub := s.co.batches[w][0];
      sub < |s.owner| && s.owner[sub] < |s.calls| && s.calls[s.owner[sub]].phase == Submitted(sub)
    ensures Enabled(s, Deliver(w))
  {
    HeadNotDelivered(s.co, w);
    hide C.Inv, C.Delivered, CallsOk;
  }

  lemma DeliverOwners(s: State, w: C.WrappedId)
    requires Inv(s) && Enabled(s, Deliver(w))
    ensures OwnersOk(Apply(s, Deliver(w)))
  {
    HeadNotDelivered(s.co, w);
    HeadDelivered(s.co, w);
    hide C.Inv, CallsOk, C.Delivered, C.Apply, C.Enabled;
  }

  lemma DeliverKeeps(s: State, w: C.WrappedId)
    requires Inv(s) && Enabled(s, Deliver(w))
    ensures Inv(Apply(s, Deliver(w)))
  {
    DeliverOwners(s, w);
    HeadOwner(s, w);
    HeadDelivered(s.co, w);
    C.StepKeeps(s.co, C.Deliver(w));
    hide C.Inv, C.Delivered, C.Apply, C.Enabled, OwnersOk;
    var c := s.owner[s.co.batches[w][0]];
    assert CallOk(s.calls[c]);
    CallChanged(s, Apply(s, Deliver(w)), c);
  }

  lemma JudgeKeeps(s: State, c: CallId, retry: bool)
    requires Inv(s) && Enabled(s, Judge(c, retry))
    ensures Inv(Apply(s, Judge(c, retry)))
  {
    hide C.Inv, C.Delivered, CallOk;
    JudgedOk(s.calls[c], retry);
    CallChanged(s, Apply(s, Judge(c, retry)), c);
    hide CallsOk;
  }

  lemma JudgedOk(call: Call, retry: bool)
    requires CallOk(call) && call.phase.ModifyingResponse?
    ensures
      var w := call.phase.response;
      var judged := call.(verdicts := call.verdicts + [Verdict(w, retry)]);
      CallOk(if retry then judged.(phase := ModifyingRequest) else judged.(phase := Finished, ran := call.ran + [w]))
  {
    hide Retries;
    RetriesSnoc(call.verdicts, Verdict(call.phase.response, retry));
  }

  lemma RetriesSnoc(v: seq<Verdict>, x: Verdict)
    ensures Retries(v + [x]) == Retries(v) + if x.retry then 1 else 0
  {
    assert (v + [x])[..|v|] == v;
  }

  lemma InitInv()
    ensures Inv(INIT)
  {
    C.InitInv();
  }

  lemma {:induction false} ReachableInv(s: State, steps: seq<Step>)
    requires Inv(s) && Runs(s, steps)
    ensures Inv(After(s, steps))
    decreases |steps|
  {
    hide Inv, Apply, Enabled;
    if steps != [] {
      match steps[0]
      case Start => StartKeeps(s); ReachableInv(Apply(s, steps[0]), steps[1..]);
      case Continue(c, key) => ContinueKeeps(s, c, key); ReachableInv(Apply(s, steps[0]), steps[1..]);
      case Network(w) => NetworkKeeps(s, w); ReachableInv(Apply(s, steps[0]), steps[1..]);
      case Deliver(w) => DeliverKeeps(s, w); ReachableInv(Apply(s, steps[0]), steps[1..]);
      case Judge(c, retry) => JudgeKeeps(s, c, retry); ReachableInv(Apply(s, steps[0]), steps[1..]);
    }
  }

  // ----- what holds in every run

  /**
   * The callback of a call runs at most once, with the first response judged not to be
   * retried, and the modifier submits one more wrapped request than it retried.
   */
  lemma CallbackOnceAfterRetries(steps: seq<Step>, c: CallId)
    requires Runs(INIT, steps)
    ensures
      var s := After(INIT, steps);
      c < |s.calls| ==>
        var call := s.calls[c];
        && |call.ran| <= 1
        && (|call.ran| == 1 <==> exists i :: 0 <= i < |call.verdicts| && !call.verdicts[i].retry)
        && (forall i | 0 <= i < |call.verdicts| && !call.verdicts[i].retry ::
              i == |call.verdicts| - 1 && call.ran == [call.verdicts[i].response])
        && (|call.ran| == 1 ==> call.submissions == Retries(call.verdicts) + 1)
        && Retries(call.verdicts) <= call.submissions <= Retries(call.verdicts) + 1
  {
    InitInv();
    ReachableInv(INIT, steps);
    hide Runs, After, Retries, C.Inv;
  }

  /** A call is with a modifier, or finished, or its subscription waits or is about to be delivered. */
  lemma CallNeverLost(steps: seq<Step>, c: CallId)
    requires Runs(INIT, steps)
    ensures
      var s := After(INIT, steps);
      c < |s.calls| && s.calls[c].phase.Submitted? ==>
        var sub := s.calls[c].phase.sub;
        C.Waiting(s.co, sub) || C.Collected(s.co, sub)
  {
    InitInv();
    ReachableInv(INIT, steps);
    var s := After(INIT, steps);
    hide Runs, After, CallsOk, C.LogOk, C.EntriesOk, C.BatchesOk, C.AnswersOk, C.Waiting, C.Collected, C.Delivered;
    if c < |s.calls| && s.calls[c].phase.Submitted? {
      assert C.Accounted(s.co, s.calls[c].phase.sub);
    }
  }

  /** The coalescer never delivers to a call that is not waiting for exactly that subscription. */
  lemma DeliveriesAreExpected(steps: seq<Step>, w: C.WrappedId)
    requires Runs(INIT, steps)
    ensures
      var s := After(INIT, steps);
      C.Enabled(s.co, C.Deliver(w)) ==>
        var sub := s.co.batches[w][0];
        Enabled(s, Deliver(w)) && s.calls[s.owner[sub]].phase == Submitted(sub)
  {
    InitInv();
    ReachableInv(INIT, steps);
    var s := After(INIT, steps);
    hide Runs, After, Inv, Enabled, C.Enabled;
    if C.Enabled(s.co, C.Deliver(w)) {
      HeadOwner(s, w);
    }
  }
}
