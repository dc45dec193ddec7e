// ClientCurl: callers add easy handles under _client_mutex, one worker thread drives
// the multi handle and sleeps on a condition variable when nothing is active.
// Every stretch of code under the lock is one atomic step.
module CurlWorker {
  import opened Options

  type Hash = string
  type ReqId = nat       // a call of performRequest

  /** HandleInfo: the request, and the callback of the call that made it if it is not empty. */
  datatype HandleInfo = HandleInfo(request: ReqId, callback: Option<ReqId>)

  /** What curl_multi_info_read returns: a finished transfer, or a message of another kind. */
  datatype Message = Done(hash: Hash) | Other

  /** A callback run: whose callback, and whose request is in the response. */
  datatype Call = Call(callback: ReqId, request: ReqId)

  /** What the worker does once it has the lock. */
  datatype Then = Top | ReadOn(count: nat) | CheckPredicate

  datatype Pc =
    | Locking(next: Then)                // about to take the lock
    | Launch                             // at the top of the loop, lock held
    | Reading(count: nat)                // in the message loop after count messages, lock held
    | Calling(call: Call, count: nat)    // running a callback, lock released
    | Sleeping                           // in usleep, lock released
    | Parked                             // in the condition wait, lock released

  predicate HoldsLock(pc: Pc) {
    pc.Launch? || pc.Reading?
  }

  datatype State = State(
    handles: map<Hash, HandleInfo>,
    running: set<Hash>,         // transfers of the multi handle that go on
    done: seq<Message>,         // messages not yet read
    newRequest: bool,
    active: nat,                // active_requests of the last curl_multi_perform
    pc: Pc,
    notifies: nat,              // callers between unlock() and notify_one()
    calls: nat,                 // calls of performRequest so far
    log: seq<Call>,             // callbacks that have been run or are running
    silent: set<ReqId>          // finished requests whose callback was empty
  )

  const INIT := State(map[], {}, [], false, 0, Locking(Top), 0, 0, [], {})

  datatype Step =
    | Add(hash: Hash, hasCallback: bool)      // the locked part of performRequest
    | Notify                                  // notify_one()
    | Lock                                    // the worker takes the lock
    | PerformAll(finished: seq<Message>)      // curl_multi_perform, with the messages it queues
    | Read                                    // one iteration of the message loop
    | Return                                  // the callback returns
    | Decide(sleep: bool)                     // the message loop ends; sleep: the fdset is empty (M == -1)
    | SleepEnds
    | SpuriousWake

  function Finished(m: seq<Message>): set<Hash> {
    set i | 0 <= i < |m| && m[i].Done? :: m[i].hash
  }

  predicate NoRepeats(m: seq<Message>) {
    forall i, j | 0 <= i < j < |m| && m[i].Done? && m[j].Done? :: m[i].hash != m[j].hash
  }

  predicate Enabled(s: State, step: Step) {
    match step
    case Add(hash, _) => !HoldsLock(s.pc) && hash !in s.handles
    case Notify => s.notifies > 0
    case Lock => s.pc.Locking?
    case PerformAll(finished) => s.pc == Launch && NoRepeats(finished) && Finished(finished) <= s.running
    case Read => s.pc.Reading? && s.done != [] && (s.done[0].Done? ==> s.done[0].hash in s.handles)
    case Return => s.pc.Calling?
    case Decide(_) => s.pc.Reading? && s.done == []
    case SleepEnds => s.pc == Sleeping
    case SpuriousWake => s.pc == Parked
  }

  function Apply(s: State, step: Step): State
    requires Enabled(s, step)
  {
    match step
    case Add(hash, hasCallback) =>
      s.(handles := s.handles[hash := HandleInfo(s.calls, if hasCallback then Some(s.calls) else None)],
         running := s.running + {hash}, newRequest := true, notifies := s.notifies + 1, calls := s.calls + 1)
    case Notify =>
      s.(notifies := s.notifies - 1, pc := if s.pc == Parked then Locking(CheckPredicate) else s.pc)
    case Lock => (
      match s.pc.next
      case Top => s.(pc := Launch)
      case ReadOn(count) => s.(pc := Reading(count))
      case CheckPredicate => s.(pc := if s.newRequest then Launch else Parked))
    case PerformAll(finished) =>
      var rest := s.running - Finished(finished);
      s.(running := rest, done := s.done + finished, active := |rest|, pc := Reading(0))
    case Read =>
      var t := s.(done := s.done[1..], pc := Reading(s.pc.count + 1));
      if s.done[0] == Other then t else
        var info := s.handles[s.done[0].hash];
        var u := t.(handles := s.handles - {s.done[0].hash});
        if info.callback == None then u.(silent := s.silent + {info.request})
        else
          var call := Call(info.callback.value, info.request);
          u.(pc := Calling(call, s.pc.count + 1), log := s.log + [call])
    case Return => s.(pc := Locking(ReadOn(s.pc.count)))
    case Decide(sleep) =>
      if s.pc.count > 0 then s.(pc := Launch)
      else if s.active > 0 then s.(pc := if sleep then Sleeping else Launch)
      else s.(newRequest := false, pc := Parked)
    case SleepEnds => s.(pc := Locking(Top))
    case SpuriousWake => s.(pc := Locking(CheckPredicate))
  }

  predicate Runs(s: State, steps: seq<Step>)
    decreases |steps|
  {
    steps == [] || (Enabled(s, steps[0]) && Runs(Apply(s, steps[0]), steps[1..]))
  }

  function After(s: State, steps: seq<Step>): State
    requires Runs(s, steps)
    decreases |steps|
  {
    if steps == [] then s else After(Apply(s, steps[0]), steps[1..])
  }

  // ----- the invariant

  /** Every handle is either running or has its message queued, never both. */
  predicate HandlesOk(s: State) {
    && s.handles.Keys == s.running + Finished(s.done)
    && s.running !! Finished(s.done)
    && NoRepeats(s.done)
  }

  /** The worker rests only when nothing is pending, or a wake-up is on its way. */
  predicate RestOk(s: State) {
    && (s.pc == Reading(0) ==> s.active == |s.running|)
    && (s.pc == Parked || s.pc == Locking(CheckPredicate) ==> s.newRequest || s.handles == map[])
    && (s.pc == Parked && s.newRequest ==> s.notifies > 0)
    && (s.pc.Calling? ==> s.pc.count > 0)
    && (s.pc.Locking? && s.pc.next.ReadOn? ==> s.pc.next.count > 0)
  }

  predicate Pending(s: State, r: ReqId) {
    exists h :: h in s.handles && s.handles[h].request == r
  }

  predicate Called(s: State, r: ReqId) {
    exists i :: 0 <= i < |s.log| && s.log[i].callback == r
  }

  /** No call of performRequest is in two places, and every callback belongs to the request of its own call. */
  predicate CallsOk(s: State) {
    && (forall h | h in s.handles ::
          var info := s.handles[h];
          && info.request < s.calls && info.request !in s.silent && !Called(s, info.request)
          && (info.callback != None ==> info.callback.value == info.request))
    && (forall g, h | g in s.handles && h in s.handles && g != h :: s.handles[g].request != s.handles[h].request)
    && (forall i | 0 <= i < |s.log| ::
          s.log[i].callback == s.log[i].request < s.calls && s.log[i].request !in s.silent)
    && (forall i, j | 0 <= i < j < |s.log| :: s.log[i].callback != s.log[j].callback)
    && (forall r | r in s.silent :: r < s.calls)
    && (s.pc.Calling? ==> s.log != [] && s.pc.call == s.log[|s.log| - 1])
  }

  predicate AllAccounted(s: State) {
    forall r: ReqId | r < s.calls :: Pending(s, r) || Called(s, r) || r in s.silent
  }

  predicate Inv(s: State) {
    HandlesOk(s) && RestOk(s) && CallsOk(s) && AllAccounted(s)
  }

  lemma FinishedOfSum(a: seq<Message>, b: seq<Message>)
    ensures Finished(a + b) == Finished(a) + Finished(b)
  {
    forall h ensures h in Finished(a + b) <==> h in Finished(a) || h in Finished(b) {
      if h in Finished(a) {
        var i :| 0 <= i < |a| && a[i].Done? && a[i].hash == h;
        assert (a + b)[i] == a[i];
      }
      if h in Finished(b) {
        var i :| 0 <= i < |b| && b[i].Done? && b[i].hash == h;
        assert (a + b)[|a| + i] == b[i];
      }
    }
  }

  lemma NoRepeatsOfSum(a: seq<Message>, b: seq<Message>)
    requires NoRepeats(a) && NoRepeats(b) && Finished(a) !! Finished(b)
    ensures NoRepeats(a + b)
  {
    forall i, j | 0 <= i < |a| && 0 <= j < |b| && a[i].Done? && b[j].Done? ensures a[i].hash != b[j].hash {
      assert a[i].hash in Finished(a) && b[j].hash in Finished(b);
    }
  }

  lemma PerformHandles(s: State, finished: seq<Message>)
    requires HandlesOk(s) && Enabled(s, PerformAll(finished))
    ensures HandlesOk(Apply(s, PerformAll(finished)))
  {
    hide NoRepeats, Finished;
    FinishedOfSum(s.done, finished);
    NoRepeatsOfSum(s.done, finished);
  }

  lemma ReadHandles(s: State)
    requires HandlesOk(s) && Enabled(s, Read)
    ensures HandlesOk(Apply(s, Read))
  {
    var m, rest := s.done[0], s.done[1..];
    assert s.done == [m] + rest;
    FinishedOfSum([m], rest);
    if m.Done? {
      assert Finished([m]) == {m.hash} by { assert [m][0].hash in Finished([m]); }
      assert m.hash !in Finished(rest);
    } else {
      assert Finished([m]) == {};
    }
  }

  lemma StepHandles(s: State, step: Step)
    requires HandlesOk(s) && Enabled(s, step)
    ensures HandlesOk(Apply(s, step))
  {
    if step.PerformAll? {
      PerformHandles(s, step.finished);
    } else if step == Read {
      ReadHandles(s);
    } else if step.Add? {
      AddHandles(s, step.hash, step.hasCallback);
    } else {
      hide Finished, NoRepeats, HandlesOk;
      HandlesUnchanged(s, Apply(s, step));
    }
  }

  lemma AddHandles(s: State, hash: Hash, hasCallback: bool)
    requires HandlesOk(s) && Enabled(s, Add(hash, hasCallback))
    ensures HandlesOk(Apply(s, Add(hash, hasCallback)))
  {
    hide Finished, NoRepeats;
  }

  lemma HandlesUnchanged(s: State, t: State)
    requires HandlesOk(s) && t.handles == s.handles && t.running == s.running && t.done == s.done
    ensures HandlesOk(t)
  {
    hide Finished, NoRepeats;
  }

  /** Nothing active and no message left means no handle left. */
  lemma NothingLeft(s: State)
    requires HandlesOk(s) && s.running == {} && s.done == []
    ensures s.handles == map[]
  {
    assert Finished(s.done) == {};
    assert s.handles.Keys == {};
  }

  lemma DecideRest(s: State, sleep: bool)
    requires HandlesOk(s) && RestOk(s) && Enabled(s, Decide(sleep))
    ensures RestOk(Apply(s, Decide(sleep)))
  {
    if s.pc.count == 0 && s.active == 0 {
      assert s.pc == Reading(0);
      NothingLeft(s);
    }
    hide HandlesOk, Finished;
  }

  lemma WorkRest(s: State, step: Step)
    requires RestOk(s) && Enabled(s, step) && (step.PerformAll? || step.Read? || step.Return? || step.Add?)
    ensures RestOk(Apply(s, step))
  {
    hide Finished, NoRepeats;
  }

  lemma SleepRest(s: State, step: Step)
    requires RestOk(s) && Enabled(s, step) && (step.Notify? || step.Lock? || step.SleepEnds? || step.SpuriousWake?)
    ensures RestOk(Apply(s, step))
  {
    hide Finished, NoRepeats;
  }

  lemma StepRest(s: State, step: Step)
    requires HandlesOk(s) && RestOk(s) && Enabled(s, step)
    ensures RestOk(Apply(s, step))
  {
    hide HandlesOk, RestOk, Apply, Enabled;
    if step.Decide? {
      DecideRest(s, step.sleep);
    } else if step.PerformAll? || step.Read? || step.Return? || step.Add? {
      WorkRest(s, step);
    } else {
      SleepRest(s, step);
    }
  }

  lemma AddCalls(s: State, hash: Hash, hasCallback: bool)
    requires CallsOk(s) && Enabled(s, Add(hash, hasCallback))
    ensures CallsOk(Apply(s, Add(hash, hasCallback)))
  {
    var t := Apply(s, Add(hash, hasCallback));
    assert forall r :: Called(t, r) ==> Called(s, r);
  }

  lemma ReadCalls(s: State)
    requires CallsOk(s) && Enabled(s, Read) && s.done[0].Done?
    ensures CallsOk(Apply(s, Read))
  {
    hide NoRepeats, Finished;
    var t := Apply(s, Read);
    var info := s.handles[s.done[0].hash];
    forall r | Called(t, r) ensures Called(s, r) || r == info.request {
      var i :| 0 <= i < |t.log| && t.log[i].callback == r;
      assert i < |s.log| ==> s.log[i].callback == r;
    }
    forall i | 0 <= i < |s.log| ensures s.log[i].callback != info.request {
      assert Called(s, s.log[i].callback);
    }
    hide Called;
  }

  lemma StepCalls(s: State, step: Step)
    requires CallsOk(s) && Enabled(s, step)
    ensures CallsOk(Apply(s, step))
  {
    if step.Add? {
      AddCalls(s, step.hash, step.hasCallback);
    } else if step == Read && s.done[0].Done? {
      ReadCalls(s);
    } else {
      hide NoRepeats, Finished, Called;
      CallsUnchanged(s, Apply(s, step));
    }
  }

  lemma CallsUnchanged(s: State, t: State)
    requires CallsOk(s) && t.handles == s.handles && t.log == s.log && t.silent == s.silent && t.calls == s.calls
    requires t.pc.Calling? ==> s.pc == t.pc
    ensures CallsOk(t)
  {
    assert forall r :: Called(t, r) == Called(s, r);
    hide Called;
  }

  lemma AddAccounts(s: State, hash: Hash, hasCallback: bool)
    requires AllAccounted(s) && Enabled(s, Add(hash, hasCallback))
    ensures AllAccounted(Apply(s, Add(hash, hasCallback)))
  {
    var t := Apply(s, Add(hash, hasCallback));
    forall r: ReqId | r < t.calls ensures Pending(t, r) || Called(t, r) || r in t.silent {
      if r == s.calls {
        assert t.handles[hash].request == r;
      } else if Pending(s, r) {
        var h :| h in s.handles && s.handles[h].request == r;
        assert t.handles[h].request == r;
      } else {
        assert Called(t, r) == Called(s, r);
      }
    }
  }

  lemma OwnCallback(s: State, h: Hash)
    requires CallsOk(s) && h in s.handles
    ensures s.handles[h].callback == None || s.handles[h].callback == Some(s.handles[h].request)
  {
    hide Called;
  }

  lemma ReadAccounts(s: State)
    requires CallsOk(s) && AllAccounted(s) && Enabled(s, Read)
    ensures AllAccounted(Apply(s, Read))
  {
    hide CallsOk, NoRepeats, Finished;
    var t := Apply(s, Read);
    if s.done[0].Done? {
      OwnCallback(s, s.done[0].hash);
    }
    forall r: ReqId | r < t.calls ensures Pending(t, r) || Called(t, r) || r in t.silent {
      if Called(s, r) {
        var i :| 0 <= i < |s.log| && s.log[i].callback == r;
        assert t.log[i].callback == r;
      } else if Pending(s, r) {
        var h :| h in s.handles && s.handles[h].request == r;
        if h in t.handles {
          assert t.handles[h].request == r;
        } else if r !in t.silent {
          assert t.log[|s.log|].callback == r;
        }
      }
    }
  }

  lemma StepAccounts(s: State, step: Step)
    requires CallsOk(s) && AllAccounted(s) && Enabled(s, step)
    ensures AllAccounted(Apply(s, step))
  {
    hide CallsOk, NoRepeats, Finished;
    if step.Add? {
      AddAccounts(s, step.hash, step.hasCallback);
    } else if step == Read {
      ReadAccounts(s);
    } else {
      var t := Apply(s, step);
      assert forall r :: Called(t, r) == Called(s, r) && Pending(t, r) == Pending(s, r);
      hide Called, Pending;
    }
  }

  lemma StepKeeps(s: State, step: Step)
    requires Inv(s) && Enabled(s, step)
    ensures Inv(Apply(s, step))
  {
    hide HandlesOk, RestOk, CallsOk, AllAccounted, Apply, Enabled;
    StepHandles(s, step);
    StepRest(s, step);
    StepCalls(s, step);
    StepAccounts(s, step);
  }

  lemma InitInv()
    ensures Inv(INIT)
  {
    assert Finished([]) == {};
  }

  lemma {:induction false} ReachableInv(s: State, steps: seq<Step>)
    requires Inv(s) && Runs(s, steps)
    ensures Inv(After(s, steps))
    decreases |steps|
  {
    hide Inv, Apply, Enabled;
    if steps != [] {
      StepKeeps(s, steps[0]);
      ReachableInv(Apply(s, steps[0]), steps[1..]);
    }
  }

  // ----- what holds in every run

  /** The worker never sleeps on pending work: parked with the flag down, there is no handle. */
  lemma NeverSleepsOnWork(steps: seq<Step>)
    requires Runs(INIT, steps)
    ensures var s := After(INIT, steps); s.pc == Parked && !s.newRequest ==> s.handles == map[]
  {
    InitInv();
    ReachableInv(INIT, steps);
  }

  /** No wake-up is lost: parked with work pending, a caller has still to notify, and that wakes the worker. */
  lemma NoLostWakeUp(steps: seq<Step>)
    requires Runs(INIT, steps)
    ensures
      var s := After(INIT, steps);
      s.pc == Parked && s.handles != map[] ==>
        && Enabled(s, Notify) && Enabled(Apply(s, Notify), Lock)
        && Apply(Apply(s, Notify), Lock).pc == Launch
  {
    InitInv();
    ReachableInv(INIT, steps);
  }

  /** A message always finds the handle of its request, so _handles[*request_hash] inserts nothing. */
  lemma MessagesHaveHandles(steps: seq<Step>)
    requires Runs(INIT, steps)
    ensures
      var s := After(INIT, steps);
      s.pc.Reading? && s.done != [] ==> Enabled(s, Read)
  {
    InitInv();
    ReachableInv(INIT, steps);
    var s := After(INIT, steps);
    if s.done != [] && s.done[0].Done? {
      assert s.done[0].hash in Finished(s.done);
    }
  }

  /** Each callback runs at most once, with the response to its own request, and no call is forgotten. */
  lemma EachCallbackOnce(steps: seq<Step>, r: ReqId)
    requires Runs(INIT, steps)
    ensures
      var s := After(INIT, steps);
      && (forall i | 0 <= i < |s.log| :: s.log[i].callback == s.log[i].request)
      && (forall i, j | 0 <= i < j < |s.log| :: s.log[i].callback != s.log[j].callback)
      && (r < s.calls ==> Pending(s, r) || Called(s, r) || r in s.silent)
      && !(Pending(s, r) && Called(s, r))
      && (s.pc.Calling? ==> s.log != [] && s.pc.call == s.log[|s.log| - 1])
  {
    InitInv();
    ReachableInv(INIT, steps);
  }

  /** The worker is between a message it read and the top of the loop: it has a message counted. */
  predicate HasWork(pc: Pc) {
    pc.Launch? || pc.Calling? || (pc.Reading? && pc.count > 0) || (pc.Locking? && pc.next.ReadOn?)
  }

  /** curl_multi_perform runs in the course of the steps, with the transfer of the hash. */
  predicate Launches(s: State, steps: seq<Step>, hash: Hash)
    requires Runs(s, steps)
    decreases |steps|
  {
    steps != [] &&
    ((steps[0].PerformAll? && hash in s.running) || Launches(Apply(s, steps[0]), steps[1..], hash))
  }

  lemma WorkStays(s: State, step: Step, hash: Hash)
    requires RestOk(s) && HasWork(s.pc) && hash in s.running && Enabled(s, step) && !step.PerformAll?
    ensures HasWork(Apply(s, step).pc) && hash in Apply(s, step).running
  {
    hide Finished, NoRepeats;
  }

  /** A transfer that is there while the worker has work is launched before the worker sleeps or parks. */
  lemma {:induction false} LaunchedFirst(s: State, steps: seq<Step>, hash: Hash)
    requires Inv(s) && HasWork(s.pc) && hash in s.running && Runs(s, steps)
    ensures Launches(s, steps, hash) || HasWork(After(s, steps).pc)
    decreases |steps|
  {
    hide HandlesOk, RestOk, CallsOk, AllAccounted, Apply, Enabled, HasWork;
    if steps != [] && !steps[0].PerformAll? {
      WorkStays(s, steps[0], hash);
      StepKeeps(s, steps[0]);
      LaunchedFirst(Apply(s, steps[0]), steps[1..], hash);
    }
  }

  /**
   * A callback runs without the lock, in the state Calling. Any request made then or until the
   * worker has the lock again, in the callback or by another thread, is launched before the
   * worker sleeps or parks, whatever happens after.
   */
  lemma CallbackMayPerform(before: seq<Step>, hash: Hash, hasCallback: bool, after: seq<Step>)
    requires Runs(INIT, before)
    ensures
      var s := After(INIT, before);
      HasWork(s.pc) && !HoldsLock(s.pc) && hash !in s.handles ==>
        && Enabled(s, Add(hash, hasCallback))
        && var t := Apply(s, Add(hash, hasCallback));
        && t.pc == s.pc && hash in t.running
        && (Runs(t, after) ==>
              var u := After(t, after);
              (u.pc == Sleeping || u.pc == Parked ==> Launches(t, after, hash)))
  {
    var s := After(INIT, before);
    InitInv();
    ReachableInv(INIT, before);
    hide Inv, Runs, After, Launches;
    if HasWork(s.pc) && !HoldsLock(s.pc) && hash !in s.handles {
      var t := Apply(s, Add(hash, hasCallback));
      StepKeeps(s, Add(hash, hasCallback));
      if Runs(t, after) {
        LaunchedFirst(t, after, hash);
      }
    }
  }

  /** While a request is pending the system can always go on, without a new call and without a spurious wake-up. */
  lemma NeverStuck(steps: seq<Step>)
    requires Runs(INIT, steps)
    ensures
      var s := After(INIT, steps);
      s.handles != map[] ==> exists step: Step :: Enabled(s, step) && !step.Add? && !step.SpuriousWake?
  {
    var s := After(INIT, steps);
    NoLostWakeUp(steps);
    MessagesHaveHandles(steps);
    hide Runs, After;
    if s.handles != map[] {
      match s.pc
      case Locking(_) => assert Enabled(s, Lock);
      case Launch => NothingFinished(s); assert Enabled(s, PerformAll([]));
      case Reading(_) => assert Enabled(s, if s.done != [] then Read else Decide(false));
      case Calling(_, _) => assert Enabled(s, Return);
      case Sleeping => assert Enabled(s, SleepEnds);
      case Parked => assert Enabled(s, Notify);
    }
  }

  lemma NothingFinished(s: State)
    ensures Finished([]) <= s.running && NoRepeats([])
  {
  }
}
