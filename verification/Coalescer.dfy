// ClientMultiRequestImplementation: equal requests in flight share one wrapped
// request. Every region under _requests_in_flight_mutex is one atomic step.
module Coalescer {
  type Key = string        // request->hash()
  type SubId = nat         // a call of performRequest: its callback and its token
  type WrappedId = nat     // a request of the wrapped client, in the order issued

  datatype MultiRequests = MultiRequests(multiRequests: seq<SubId>, requestToken: WrappedId)

  type InFlight = map<Key, MultiRequests>

  // ----- what the three regions do to the map

  function Subscribe(m: InFlight, key: Key, sub: SubId, w: WrappedId): InFlight {
    if key in m then m[key := m[key].(multiRequests := m[key].multiRequests + [sub])]
    else m[key := MultiRequests([sub], w)]
  }

  function Subscribers(m: InFlight, key: Key): seq<SubId> {
    if key in m then m[key].multiRequests else []
  }

  /** The sequence without the elements equal to sub (std::remove_if and erase). */
  function Without(s: seq<SubId>, sub: SubId): (r: seq<SubId>)
    ensures forall x :: x in r <==> x in s && x != sub
  {
    if s == [] then []
    else Without(s[..|s| - 1], sub) + (if s[|s| - 1] == sub then [] else [s[|s| - 1]])
  }

  function Unsubscribe(m: InFlight, key: Key, sub: SubId): InFlight
    requires key in m
  {
    var rest := Without(m[key].multiRequests, sub);
    if rest == [] then m - {key} else m[key := m[key].(multiRequests := rest)]
  }

  // ----- the system: client, wrapped client, running callbacks, and the history

  datatype Delivery = Delivery(sub: SubId, response: WrappedId)

  datatype State = State(
    inFlight: InFlight,
    issued: seq<Key>,                       // the key of every wrapped request
    answered: set<WrappedId>,               // wrapped requests whose response callback has run its region
    stopped: set<WrappedId>,                // wrapped requests that were told to cancel
    batches: map<WrappedId, seq<SubId>>,    // per response, the callbacks collected and not yet run
    log: seq<Delivery>,                     // callbacks run, in order
    cancelled: set<SubId>,                  // removed by a cancel step
    joined: seq<WrappedId>,                 // for every subscription, the wrapped request of the entry it joined
    answer: map<WrappedId, WrappedId>       // for every entry collected, the response that collected it
  )

  const INIT := State(map[], [], {}, {}, map[], [], {}, [], map[])

  datatype Step =
    | Perform(key: Key)          // performRequest, from any thread or from inside a callback
    | Respond(w: WrappedId)      // the region of the response callback of wrapped request w
    | Deliver(w: WrappedId)      // one iteration of the loop that runs the collected callbacks
    | Cancel(sub: SubId)         // requestTokenDidCancel

  predicate Enabled(s: State, step: Step) {
    match step
    case Perform(_) => true
    case Respond(w) => w < |s.issued| && w !in s.answered
    case Deliver(w) => w in s.batches && s.batches[w] != []
    case Cancel(sub) => sub < |s.joined| && s.joined[sub] < |s.issued| && s.issued[s.joined[sub]] in s.inFlight
  }

  function Apply(s: State, step: Step): State
    requires Enabled(s, step)
  {
    match step
    case Perform(key) =>
      if key in s.inFlight then
        s.(inFlight := Subscribe(s.inFlight, key, |s.joined|, 0),
           joined := s.joined + [s.inFlight[key].requestToken])
      else
        s.(inFlight := Subscribe(s.inFlight, key, |s.joined|, |s.issued|),
           issued := s.issued + [key],
           joined := s.joined + [|s.issued|])
    case Respond(w) =>
      var key := s.issued[w];
      s.(inFlight := s.inFlight - {key},
         answered := s.answered + {w},
         batches := s.batches[w := Subscribers(s.inFlight, key)],
         answer := if key in s.inFlight then s.answer[s.inFlight[key].requestToken := w] else s.answer)
    case Deliver(w) =>
      s.(log := s.log + [Delivery(s.batches[w][0], w)],
         batches := s.batches[w := s.batches[w][1..]])
    case Cancel(sub) =>
      var key := s.issued[s.joined[sub]];
      var entry := s.inFlight[key];
      s.(inFlight := Unsubscribe(s.inFlight, key, sub),
         stopped := if Without(entry.multiRequests, sub) == [] then s.stopped + {entry.requestToken} else s.stopped,
         cancelled := if sub in entry.multiRequests then s.cancelled + {sub} else s.cancelled)
  }

  predicate Runs(s: State, steps: seq<Step>)
    decreases |steps|
  {
    steps == [] || (Enabled(s, steps[0]) && Runs(Apply(s, steps[0]), steps[1..]))
  }

  function After(s: State, steps: seq<Step>): State
    requires Runs(s, steps)
    decreases |steps|
  {
    if steps == [] then s else After(Apply(s, steps[0]), steps[1..])
  }

  // ----- where a subscription is

  predicate Waiting(s: State, sub: SubId) {
    exists key :: key in s.inFlight && sub in s.inFlight[key].multiRequests
  }

  predicate Collected(s: State, sub: SubId) {
    exists w :: w in s.batches && sub in s.batches[w]
  }

  predicate Delivered(s: State, sub: SubId) {
    exists i :: 0 <= i < |s.log| && s.log[i].sub == sub
  }

  // ----- the invariant

  predicate Increasing(s: seq<SubId>) {
    forall i, j | 0 <= i < j < |s| :: s[i] < s[j]
  }

  predicate EntryOk(s: State, key: Key)
    requires key in s.inFlight
  {
    var e := s.inFlight[key];
    && e.multiRequests != [] && Increasing(e.multiRequests)
    && e.requestToken < |s.issued| && s.issued[e.requestToken] == key
    && e.requestToken !in s.answered && e.requestToken !in s.stopped && e.requestToken !in s.answer
    && forall sub | sub in e.multiRequests ::
         sub < |s.joined| && s.joined[sub] == e.requestToken && sub !in s.cancelled
  }

  /** sub was in the entry that response w collected. */
  predicate AnsweredBy(s: State, sub: SubId, w: WrappedId) {
    sub < |s.joined| && s.joined[sub] in s.answer && s.answer[s.joined[sub]] == w && sub !in s.cancelled
  }

  predicate BatchOk(s: State, w: WrappedId)
    requires w in s.batches
  {
    w in s.answered && Increasing(s.batches[w]) && forall sub | sub in s.batches[w] :: AnsweredBy(s, sub, w)
  }

  predicate LogOk(s: State) {
    && (forall d | d in s.log :: AnsweredBy(s, d.sub, d.response))
    && (forall i, j | 0 <= i < j < |s.log| && s.log[i].response == s.log[j].response :: s.log[i].sub < s.log[j].sub)
    && (forall d, sub | d in s.log && d.response in s.batches && sub in s.batches[d.response] :: d.sub < sub)
  }

  predicate AnswersOk(s: State) {
    && (forall w | w in s.answered :: w < |s.issued|)
    && (forall w | w in s.stopped :: w < |s.issued|)
    && (forall e | e in s.answer :: e < |s.issued| && s.answer[e] in s.answered && s.issued[s.answer[e]] == s.issued[e])
  }

  predicate Accounted(s: State, sub: SubId) {
    Waiting(s, sub) || Collected(s, sub) || Delivered(s, sub) || sub in s.cancelled
  }

  predicate EntriesOk(s: State) {
    && (forall key | key in s.inFlight :: EntryOk(s, key))
    && (forall sub | sub in s.cancelled :: sub < |s.joined|)
  }

  predicate BatchesOk(s: State) {
    forall w | w in s.batches :: BatchOk(s, w)
  }

  predicate AllAccounted(s: State) {
    forall sub: SubId | sub < |s.joined| :: Accounted(s, sub)
  }

  predicate Inv(s: State) {
    AnswersOk(s) && LogOk(s) && EntriesOk(s) && BatchesOk(s) && AllAccounted(s)
  }

  lemma InitInv()
    ensures Inv(INIT)
  {
  }

  lemma IncreasingAppend(s: seq<SubId>, n: SubId)
    requires Increasing(s) && forall x | x in s :: x < n
    ensures Increasing(s + [n])
  {
    assert forall i | 0 <= i < |s| :: s[i] in s;
  }

  lemma {:induction false} IncreasingWithout(s: seq<SubId>, sub: SubId)
    requires Increasing(s)
    ensures Increasing(Without(s, sub))
  {
    if s != [] {
      var front, last := s[..|s| - 1], s[|s| - 1];
      IncreasingWithout(front, sub);
      if last != sub {
        assert forall x | x in front :: x < last;
        IncreasingAppend(Without(front, sub), last);
      }
    }
  }

  // ----- every step keeps it

  lemma PerformEntries(s: State, key: Key)
    requires Inv(s)
    ensures EntriesOk(Apply(s, Perform(key)))
  {
    hide AllAccounted, LogOk, BatchesOk, Increasing;
    var t := Apply(s, Perform(key));
    forall k | k in t.inFlight ensures EntryOk(t, k) {
      if k in s.inFlight {
        assert EntryOk(s, k);
        if k == key {
          IncreasingAppend(s.inFlight[key].multiRequests, |s.joined|);
        }
      } else {
        OneIncreases(|s.joined|);
      }
    }
  }

  lemma OneIncreases(sub: SubId)
    ensures Increasing([sub])
  {
  }

  lemma PerformAnswers(s: State, key: Key)
    requires Inv(s)
    ensures AnswersOk(Apply(s, Perform(key)))
  {
    hide AllAccounted, LogOk, BatchesOk, EntriesOk;
  }

  lemma PerformHistory(s: State, key: Key)
    requires Inv(s)
    ensures var t := Apply(s, Perform(key)); LogOk(t) && BatchesOk(t)
  {
    hide AllAccounted, Increasing, EntriesOk, AnswersOk;
    var t := Apply(s, Perform(key));
    forall w | w in t.batches ensures BatchOk(t, w) {
      assert BatchOk(s, w);
    }
  }

  lemma PerformAccounts(s: State, key: Key)
    requires Inv(s)
    ensures AllAccounted(Apply(s, Perform(key)))
  {
    hide AnswersOk, LogOk, EntriesOk, BatchesOk;
    var t := Apply(s, Perform(key));
    forall sub: SubId | sub < |t.joined| ensures Accounted(t, sub) {
      if sub == |s.joined| {
        assert sub in t.inFlight[key].multiRequests;
      } else {
        assert Accounted(s, sub);
        if Waiting(s, sub) {
          var k :| k in s.inFlight && sub in s.inFlight[k].multiRequests;
          assert k in t.inFlight && sub in t.inFlight[k].multiRequests;
        }
      }
    }
  }

  lemma RespondEntries(s: State, w: WrappedId)
    requires Inv(s) && Enabled(s, Respond(w))
    ensures EntriesOk(Apply(s, Respond(w)))
  {
    hide AllAccounted, Increasing, LogOk, BatchesOk, AnswersOk;
    var t := Apply(s, Respond(w));
    var key := s.issued[w];
    assert key in s.inFlight ==> EntryOk(s, key);
    forall k | k in t.inFlight ensures EntryOk(t, k) {
      assert EntryOk(s, k);
    }
  }

  lemma RespondHistory(s: State, w: WrappedId)
    requires Inv(s) && Enabled(s, Respond(w))
    ensures var t := Apply(s, Respond(w)); AnswersOk(t) && LogOk(t)
  {
    hide AllAccounted, Increasing, Subscribers;
    var key := s.issued[w];
    assert key in s.inFlight ==> EntryOk(s, key);
    assert forall e | e in s.answer :: s.answer[e] != w;
  }

  lemma RespondBatches(s: State, w: WrappedId)
    requires Inv(s) && Enabled(s, Respond(w))
    ensures BatchesOk(Apply(s, Respond(w)))
  {
    hide AllAccounted, Increasing, LogOk;
    var t := Apply(s, Respond(w));
    var key := s.issued[w];
    assert key in s.inFlight ==> EntryOk(s, key);
    EmptyIncreases();
    forall v | v in t.batches ensures BatchOk(t, v) {
      assert v != w ==> BatchOk(s, v);
    }
  }

  lemma EmptyIncreases()
    ensures Increasing([])
  {
  }

  lemma RespondAccounts(s: State, w: WrappedId)
    requires Inv(s) && Enabled(s, Respond(w))
    ensures AllAccounted(Apply(s, Respond(w)))
  {
    hide LogOk, EntriesOk;
    var t := Apply(s, Respond(w));
    var key := s.issued[w];
    forall sub: SubId | sub < |t.joined| ensures Accounted(t, sub) {
      assert Accounted(s, sub);
      if Waiting(s, sub) {
        var k :| k in s.inFlight && sub in s.inFlight[k].multiRequests;
        if k == key {
          assert sub in t.batches[w];
        } else {
          assert k in t.inFlight;
        }
      } else if Collected(s, sub) {
        var v :| v in s.batches && sub in s.batches[v];
        assert BatchOk(s, v);
        assert v in t.batches && sub in t.batches[v];
      }
    }
  }

  lemma DeliverSound(s: State, w: WrappedId)
    requires Inv(s) && Enabled(s, Deliver(w))
    ensures var t := Apply(s, Deliver(w)); AnswersOk(t) && EntriesOk(t) && BatchesOk(t)
  {
    hide AllAccounted, LogOk;
    var t := Apply(s, Deliver(w));
    forall v | v in t.batches ensures BatchOk(t, v) {
      assert BatchOk(s, v);
      if v == w {
        var b := s.batches[w];
        assert forall x | x in b[1..] :: x in b;
      }
    }
    hide Increasing;
    forall k | k in t.inFlight ensures EntryOk(t, k) {
      assert EntryOk(s, k);
    }
  }

  lemma DeliverLog(s: State, w: WrappedId)
    requires Inv(s) && Enabled(s, Deliver(w))
    ensures LogOk(Apply(s, Deliver(w)))
  {
    hide AllAccounted, EntriesOk;
    var t := Apply(s, Deliver(w));
    var b := s.batches[w];
    assert BatchOk(s, w) && b[0] in b;
    var d := Delivery(b[0], w);
    assert forall x | x in b[1..] :: x in b && b[0] < x;
    forall i | 0 <= i < |s.log| && s.log[i].response == w ensures s.log[i].sub < b[0] {
      assert s.log[i] in s.log;
    }
    assert forall e | e in t.log :: e in s.log || e == d;
  }

  lemma DeliverAccounts(s: State, w: WrappedId)
    requires Inv(s) && Enabled(s, Deliver(w))
    ensures AllAccounted(Apply(s, Deliver(w)))
  {
    hide AnswersOk, LogOk, EntriesOk, BatchesOk;
    var t := Apply(s, Deliver(w));
    var b := s.batches[w];
    forall sub: SubId | sub < |t.joined| ensures Accounted(t, sub) {
      assert Accounted(s, sub);
      if Delivered(s, sub) {
        var i :| 0 <= i < |s.log| && s.log[i].sub == sub;
        assert t.log[i].sub == sub;
      } else if Collected(s, sub) {
        var v :| v in s.batches && sub in s.batches[v];
        if v == w && sub == b[0] {
          assert t.log[|s.log|].sub == sub;
        } else {
          assert sub in t.batches[v];
        }
      }
    }
  }

  lemma CancelEntries(s: State, sub: SubId)
    requires Inv(s) && Enabled(s, Cancel(sub))
    ensures EntriesOk(Apply(s, Cancel(sub)))
  {
    hide AllAccounted, Increasing, LogOk, BatchesOk, AnswersOk;
    var t := Apply(s, Cancel(sub));
    var key := s.issued[s.joined[sub]];
    assert EntryOk(s, key);
    IncreasingWithout(s.inFlight[key].multiRequests, sub);
    hide Without;
    forall k | k in t.inFlight ensures EntryOk(t, k) {
      assert EntryOk(s, k);
    }
  }

  lemma CancelHistory(s: State, sub: SubId)
    requires Inv(s) && Enabled(s, Cancel(sub))
    ensures var t := Apply(s, Cancel(sub)); AnswersOk(t) && LogOk(t) && BatchesOk(t)
  {
    hide AllAccounted, Increasing, Without, Unsubscribe;
    var t := Apply(s, Cancel(sub));
    assert EntryOk(s, s.issued[s.joined[sub]]);
    forall w | w in t.batches ensures BatchOk(t, w) {
      assert BatchOk(s, w);
    }
  }

  lemma CancelAccounts(s: State, sub: SubId)
    requires Inv(s) && Enabled(s, Cancel(sub))
    ensures AllAccounted(Apply(s, Cancel(sub)))
  {
    hide AnswersOk, LogOk, EntriesOk, BatchesOk;
    var t := Apply(s, Cancel(sub));
    forall x: SubId | x < |t.joined| ensures Accounted(t, x) {
      assert Accounted(s, x);
      if Waiting(s, x) && (x != sub || sub !in s.inFlight[s.issued[s.joined[sub]]].multiRequests) {
        var k :| k in s.inFlight && x in s.inFlight[k].multiRequests;
        assert k in t.inFlight && x in t.inFlight[k].multiRequests;
      }
    }
  }

  lemma StepKeeps(s: State, step: Step)
    requires Inv(s) && Enabled(s, step)
    ensures Inv(Apply(s, step))
  {
    hide AnswersOk, LogOk, EntriesOk, BatchesOk, AllAccounted, Apply, Enabled;
    match step
    case Perform(key) =>
      PerformEntries(s, key); PerformAnswers(s, key); PerformHistory(s, key); PerformAccounts(s, key);
    case Respond(w) => RespondEntries(s, w); RespondHistory(s, w); RespondBatches(s, w); RespondAccounts(s, w);
    case Deliver(w) => DeliverSound(s, w); DeliverLog(s, w); DeliverAccounts(s, w);
    case Cancel(sub) => CancelEntries(s, sub); CancelHistory(s, sub); CancelAccounts(s, sub);
  }

  // ----- what holds in every run

  lemma {:induction false} ReachableInv(s: State, steps: seq<Step>)
    requires Inv(s) && Runs(s, steps)
    ensures Inv(After(s, steps))
    decreases |steps|
  {
    hide Inv, Apply, Enabled;
    if steps != [] {
      StepKeeps(s, steps[0]);
      ReachableInv(Apply(s, steps[0]), steps[1..]);
    }
  }

  /** Conservation: every subscription is in exactly one place. */
  lemma ExactlyOnePlace(steps: seq<Step>, sub: SubId)
    requires Runs(INIT, steps)
    ensures
      var s := After(INIT, steps);
      sub < |s.joined| ==>
        && Accounted(s, sub)
        && !(Waiting(s, sub) && Collected(s, sub)) && !(Waiting(s, sub) && Delivered(s, sub))
        && !(Collected(s, sub) && Delivered(s, sub))
        && (sub in s.cancelled ==> !Waiting(s, sub) && !Collected(s, sub) && !Delivered(s, sub))
  {
    InitInv();
    ReachableInv(INIT, steps);
    var s := After(INIT, steps);
    hide Runs, After;
    if Waiting(s, sub) {
      var k :| k in s.inFlight && sub in s.inFlight[k].multiRequests;
      assert EntryOk(s, k);
    }
    if Collected(s, sub) {
      var w :| w in s.batches && sub in s.batches[w];
      assert BatchOk(s, w);
    }
    if Delivered(s, sub) {
      var i :| 0 <= i < |s.log| && s.log[i].sub == sub;
      assert s.log[i] in s.log;
    }
  }

  /** No callback runs twice, and a subscription is in one waiting list or batch at most once. */
  lemma NothingTwice(steps: seq<Step>)
    requires Runs(INIT, steps)
    ensures
      var s := After(INIT, steps);
      && (forall i, j | 0 <= i < j < |s.log| :: s.log[i].sub != s.log[j].sub)
      && (forall k | k in s.inFlight :: Increasing(s.inFlight[k].multiRequests))
      && (forall w | w in s.batches :: Increasing(s.batches[w]))
      && (forall k, l | k in s.inFlight && l in s.inFlight && k != l ::
            forall x | x in s.inFlight[k].multiRequests :: x !in s.inFlight[l].multiRequests)
      && (forall v, w | v in s.batches && w in s.batches && v != w ::
            forall x | x in s.batches[v] :: x !in s.batches[w])
  {
    InitInv();
    ReachableInv(INIT, steps);
    var s := After(INIT, steps);
    hide Runs, After, AllAccounted;
    forall i, j | 0 <= i < j < |s.log| ensures s.log[i].sub != s.log[j].sub {
      assert s.log[i] in s.log && s.log[j] in s.log;
    }
    forall k | k in s.inFlight ensures EntryOk(s, k) {
    }
    forall w | w in s.batches ensures BatchOk(s, w) {
    }
  }

  /** Those that shared an entry get the same response, in the order in which they subscribed. */
  lemma SharedResponseInOrder(steps: seq<Step>, i: nat, j: nat)
    requires Runs(INIT, steps)
    ensures
      var s := After(INIT, steps);
      i < j < |s.log| ==>
        var a, b := s.log[i], s.log[j];
        && a.sub < |s.joined| && b.sub < |s.joined|
        && s.joined[a.sub] < |s.issued| && a.response < |s.issued|
        && s.issued[a.response] == s.issued[s.joined[a.sub]]
        && (s.joined[a.sub] == s.joined[b.sub] ==> a.response == b.response && a.sub < b.sub)
  {
    InitInv();
    ReachableInv(INIT, steps);
    var s := After(INIT, steps);
    hide Runs, After, AllAccounted, EntriesOk, BatchesOk;
    if i < j < |s.log| {
      assert s.log[i] in s.log && s.log[j] in s.log;
    }
  }

  /** Nobody is stranded: an entry has subscribers, and its own wrapped request is unanswered and not told to stop. */
  lemma NobodyStranded(steps: seq<Step>, key: Key)
    requires Runs(INIT, steps)
    ensures
      var s := After(INIT, steps);
      key in s.inFlight ==>
        var e := s.inFlight[key];
        && e.multiRequests != []
        && e.requestToken < |s.issued| && s.issued[e.requestToken] == key
        && e.requestToken !in s.answered && e.requestToken !in s.stopped
        && Enabled(s, Respond(e.requestToken))
  {
    InitInv();
    ReachableInv(INIT, steps);
    var s := After(INIT, steps);
    hide Runs, After, AllAccounted;
    if key in s.inFlight {
      assert EntryOk(s, key);
    }
  }

  /** A call of performRequest, also from inside a callback, joins a request that is not yet answered. */
  lemma JoinsUnanswered(steps: seq<Step>, key: Key)
    requires Runs(INIT, steps)
    ensures
      var s := After(INIT, steps);
      var t := Apply(s, Perform(key));
      && |t.joined| == |s.joined| + 1
      && var w := t.joined[|s.joined|];
         w < |t.issued| && t.issued[w] == key && w !in t.answered && w !in t.stopped
         && Waiting(t, |s.joined|)
  {
    InitInv();
    ReachableInv(INIT, steps);
    var s := After(INIT, steps);
    hide Runs, After, AllAccounted;
    assert key in s.inFlight ==> EntryOk(s, key);
    var t := Apply(s, Perform(key));
    assert |s.joined| in t.inFlight[key].multiRequests;
  }

  // ----- when the wrapped client has two live requests with one hash

  predicate Live(s: State, w: WrappedId) {
    w < |s.issued| && w !in s.answered
  }

  /** The wrapped client has at most one unanswered request for every hash. */
  ghost predicate LiveKeysDistinct(s: State) {
    forall v: WrappedId, w: WrappedId | Live(s, v) && Live(s, w) && v != w :: s.issued[v] != s.issued[w]
  }

  ghost predicate AlwaysDistinct(s: State, steps: seq<Step>)
    requires Runs(s, steps)
    decreases |steps|
  {
    LiveKeysDistinct(s) && (steps == [] || AlwaysDistinct(Apply(s, steps[0]), steps[1..]))
  }

  /** performRequest for a hash of which a request that was told to stop is still to be answered. */
  predicate RepeatsStopped(s: State, step: Step) {
    step.Perform? && exists w :: w in s.stopped && Live(s, w) && s.issued[w] == step.key
  }

  predicate NeverRepeatsStopped(s: State, steps: seq<Step>)
    requires Runs(s, steps)
    decreases |steps|
  {
    steps == [] || (!RepeatsStopped(s, steps[0]) && NeverRepeatsStopped(Apply(s, steps[0]), steps[1..]))
  }

  /** A live request that was not told to stop has the entry of its hash. */
  ghost predicate LiveHaveEntries(s: State) {
    forall w: WrappedId | Live(s, w) && w !in s.stopped ::
      s.issued[w] in s.inFlight && s.inFlight[s.issued[w]].requestToken == w
  }

  lemma DistinctStep(s: State, step: Step)
    requires LiveKeysDistinct(s) && LiveHaveEntries(s) && Enabled(s, step) && !RepeatsStopped(s, step)
    ensures LiveKeysDistinct(Apply(s, step)) && LiveHaveEntries(Apply(s, step))
  {
    var t := Apply(s, step);
    if step.Perform? {
      forall w: WrappedId | Live(s, w) && s.issued[w] == step.key ensures step.key in s.inFlight {
        assert w !in s.stopped;
      }
    }
    assert forall w: WrappedId | Live(t, w) && w < |s.issued| :: Live(s, w) && t.issued[w] == s.issued[w];
  }

  lemma RepeatedStep(s: State, step: Step)
    requires Inv(s) && RepeatsStopped(s, step)
    ensures !LiveKeysDistinct(Apply(s, step))
  {
    hide LogOk, BatchesOk, AllAccounted;
    var t := Apply(s, step);
    var w :| w in s.stopped && Live(s, w) && s.issued[w] == step.key;
    var v := if step.key in s.inFlight then s.inFlight[step.key].requestToken else |s.issued|;
    assert step.key in s.inFlight ==> EntryOk(s, step.key);
    assert Live(t, v) && Live(t, w) && v != w && t.issued[v] == t.issued[w];
  }

  lemma {:induction false} DistinctRun(s: State, steps: seq<Step>)
    requires Inv(s) && LiveKeysDistinct(s) && LiveHaveEntries(s) && Runs(s, steps)
    ensures AlwaysDistinct(s, steps) <==> NeverRepeatsStopped(s, steps)
    decreases |steps|
  {
    hide Inv, Apply, Enabled, LiveKeysDistinct, LiveHaveEntries, RepeatsStopped;
    if steps != [] {
      if RepeatsStopped(s, steps[0]) {
        RepeatedStep(s, steps[0]);
      } else {
        DistinctStep(s, steps[0]);
        StepKeeps(s, steps[0]);
        DistinctRun(Apply(s, steps[0]), steps[1..]);
      }
    }
  }

  /**
   * In a run the wrapped client never has two unanswered requests with one hash, if and
   * only if no request is made while one of its hash was told to stop and is not answered.
   */
  lemma DistinctKeysIff(steps: seq<Step>)
    requires Runs(INIT, steps)
    ensures AlwaysDistinct(INIT, steps) <==> NeverRepeatsStopped(INIT, steps)
  {
    InitInv();
    DistinctRun(INIT, steps);
  }

  lemma {:induction false} AlwaysAtTheEnd(s: State, steps: seq<Step>)
    requires Runs(s, steps) && AlwaysDistinct(s, steps)
    ensures LiveKeysDistinct(After(s, steps))
    decreases |steps|
  {
    hide Apply, Enabled, LiveKeysDistinct;
    if steps != [] {
      AlwaysAtTheEnd(Apply(s, steps[0]), steps[1..]);
    }
  }

  lemma DistinctKeysBelow(steps: seq<Step>, v: WrappedId, w: WrappedId)
    requires Runs(INIT, steps) && NeverRepeatsStopped(INIT, steps)
    ensures
      var s := After(INIT, steps);
      v < w < |s.issued| && v !in s.answered && w !in s.answered ==> s.issued[v] != s.issued[w]
  {
    DistinctKeysIff(steps);
    AlwaysAtTheEnd(INIT, steps);
    hide Runs, After, NeverRepeatsStopped, AlwaysDistinct;
    var s := After(INIT, steps);
    if v < w < |s.issued| && v !in s.answered && w !in s.answered {
      assert Live(s, v) && Live(s, w);
    }
  }

  /** When nothing was ever told to stop the condition holds. */
  lemma {:induction false} NothingStopped(s: State, steps: seq<Step>)
    requires Runs(s, steps) && After(s, steps).stopped == {}
    ensures s.stopped == {} && NeverRepeatsStopped(s, steps)
    decreases |steps|
  {
    if steps != [] {
      NothingStopped(Apply(s, steps[0]), steps[1..]);
    }
  }

  /** Cancelled and made again before its response, a request is live twice: its hash no longer names one of them. */
  lemma CancelledKeyTwice(key: Key)
    ensures
      var steps := [Perform(key), Cancel(0), Perform(key)];
      Runs(INIT, steps) &&
      var s := After(INIT, steps);
      s.issued == [key, key] && s.answered == {} && s.stopped == {0}
  {
    var a := Apply(INIT, Perform(key));
    assert a.inFlight[key].multiRequests == [0];
    assert Without([0], 0) == [] by { assert [0][..0] == []; }
    var b := Apply(a, Cancel(0));
    var c := Apply(b, Perform(key));
    assert [key] + [key] == [key, key];
    assert b.inFlight == map[];
    var last := [Perform(key)];
    assert last[1..] == [] && Runs(b, last) && After(b, last) == c;
    var two := [Cancel(0), Perform(key)];
    assert two[1..] == last && Runs(a, two) && After(a, two) == c;
    assert [Perform(key), Cancel(0), Perform(key)][1..] == two;
  }

  /** A run only adds to the log and to the cancelled, so what a cancel step removed never runs. */
  lemma {:induction false} HistoryGrows(s: State, steps: seq<Step>)
    requires Runs(s, steps)
    ensures s.log <= After(s, steps).log && s.cancelled <= After(s, steps).cancelled
    ensures s.joined <= After(s, steps).joined
    decreases |steps|
  {
    if steps != [] {
      HistoryGrows(Apply(s, steps[0]), steps[1..]);
    }
  }

  lemma {:induction false} RunsInTwoParts(s: State, a: seq<Step>, b: seq<Step>)
    requires Runs(s, a) && Runs(After(s, a), b)
    ensures Runs(s, a + b) && After(s, a + b) == After(After(s, a), b)
    decreases |a|
  {
    hide Apply, Enabled;
    if a == [] {
      assert a + b == b;
    } else {
      assert (a + b)[0] == a[0] && (a + b)[1..] == a[1..] + b;
      RunsInTwoParts(Apply(s, a[0]), a[1..], b);
    }
  }

  lemma OneStep(s: State, step: Step)
    requires Enabled(s, step)
    ensures Runs(s, [step]) && After(s, [step]) == Apply(s, step)
  {
    hide Enabled, Apply;
    var t := Apply(s, step);
    assert [step][1..] == [] && Runs(t, []) && After(t, []) == t;
  }

  lemma CancelledNeverRuns(before: seq<Step>, sub: SubId, after: seq<Step>)
    requires Runs(INIT, before) && Waiting(After(INIT, before), sub)
    requires var s := After(INIT, before); Enabled(s, Cancel(sub)) && Runs(Apply(s, Cancel(sub)), after)
    ensures !Delivered(After(Apply(After(INIT, before), Cancel(sub)), after), sub)
  {
    var s := After(INIT, before);
    var t := Apply(s, Cancel(sub));
    InitInv();
    ReachableInv(INIT, before);
    var k :| k in s.inFlight && sub in s.inFlight[k].multiRequests;
    assert EntryOk(s, k);
    assert sub in t.cancelled;
    OneStep(s, Cancel(sub));
    HistoryGrows(t, after);
    RunsInTwoParts(INIT, before, [Cancel(sub)]);
    RunsInTwoParts(INIT, before + [Cancel(sub)], after);
    HistoryGrows(s, [Cancel(sub)]);
    ExactlyOnePlace(before + [Cancel(sub)] + after, sub);
  }

  // ----- every waiting callback can still run

  /** The loop of the response callback goes on until it comes to sub. */
  lemma {:induction false} DeliverUpTo(s: State, w: WrappedId, sub: SubId) returns (steps: seq<Step>)
    requires w in s.batches && sub in s.batches[w]
    ensures Runs(s, steps) && Delivered(After(s, steps), sub)
    ensures forall step | step in steps :: step == Deliver(w)
    decreases |s.batches[w]|
  {
    var t := Apply(s, Deliver(w));
    steps := [Deliver(w)];
    OneStep(s, Deliver(w));
    if s.batches[w][0] == sub {
      assert t.log[|s.log|].sub == sub;
    } else {
      assert s.batches[w] == [s.batches[w][0]] + s.batches[w][1..];
      var more := DeliverUpTo(t, w, sub);
      RunsInTwoParts(s, steps, more);
      steps := steps + more;
    }
  }

  /** One response of the wrapped request of sub at most, at the start, and callbacks. */
  predicate JustRuns(steps: seq<Step>, w: WrappedId) {
    forall i | 0 <= i < |steps| :: steps[i].Deliver? || (i == 0 && steps[i] == Respond(w))
  }

  lemma CollectedCanRun(s: State, sub: SubId) returns (steps: seq<Step>)
    requires Inv(s) && Collected(s, sub)
    ensures sub < |s.joined| && Runs(s, steps) && Delivered(After(s, steps), sub) && JustRuns(steps, s.joined[sub])
  {
    hide AnswersOk, LogOk, EntriesOk, AllAccounted, Runs, After, Delivered;
    var w :| w in s.batches && sub in s.batches[w];
    assert BatchOk(s, w);
    steps := DeliverUpTo(s, w, sub);
    assert forall i | 0 <= i < |steps| :: steps[i] in steps;
  }

  lemma WaitingCanRun(s: State, sub: SubId) returns (steps: seq<Step>)
    requires Inv(s) && Waiting(s, sub)
    ensures sub < |s.joined| && Runs(s, steps) && Delivered(After(s, steps), sub) && JustRuns(steps, s.joined[sub])
  {
    hide AnswersOk, LogOk, BatchesOk, AllAccounted, Runs, After, Delivered;
    var k :| k in s.inFlight && sub in s.inFlight[k].multiRequests;
    assert EntryOk(s, k);
    var w := s.inFlight[k].requestToken;
    OneStep(s, Respond(w));
    var rest := DeliverUpTo(Apply(s, Respond(w)), w, sub);
    RunsInTwoParts(s, [Respond(w)], rest);
    steps := [Respond(w)] + rest;
    assert forall i | 0 <= i < |rest| :: rest[i] in rest;
  }

  /**
   * From every reachable state, a callback that waits or is collected runs after one
   * response of its own wrapped request at most, without a new request or a cancellation.
   */
  lemma CanBeDelivered(before: seq<Step>, sub: SubId) returns (more: seq<Step>)
    requires Runs(INIT, before)
    requires var s := After(INIT, before); Waiting(s, sub) || Collected(s, sub)
    ensures Runs(INIT, before + more) && Delivered(After(INIT, before + more), sub)
    ensures var s := After(INIT, before); sub < |s.joined| && JustRuns(more, s.joined[sub])
  {
    var s := After(INIT, before);
    InitInv();
    ReachableInv(INIT, before);
    hide Inv, Waiting, Collected, Delivered, JustRuns;
    if Collected(s, sub) {
      more := CollectedCanRun(s, sub);
    } else {
      more := WaitingCanRun(s, sub);
    }
    RunsInTwoParts(INIT, before, more);
  }
}
