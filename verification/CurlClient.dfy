// The fields of ClientCurl and its locked stretches, each shown to be one step of the
// protocol in module CurlWorker. The endless loop of mainClientLoop is the sequence of
// Launch, Reading and Decide steps that the program counter of the protocol describes.
module CurlClient {
  import opened CurlWorker
  import opened Options

  /** What the client can see of the curl multi handle. */
  class CurlMulti {
    var running: set<Hash>
    var done: seq<Message>

    constructor ()
      ensures running == {} && done == []
    {
      running, done := {}, [];
    }

    method AddHandle(hash: Hash)
      modifies this
      ensures running == old(running) + {hash} && done == old(done)
    {
      running := running + {hash};
    }

    /** curl_multi_perform: the transfers in finished end, and their messages are queued. */
    method Perform(finished: seq<Message>) returns (active: nat)
      requires Finished(finished) <= running
      modifies this
      ensures running == old(running) - Finished(finished) && done == old(done) + finished && active == |running|
    {
      running := running - Finished(finished);
      done := done + finished;
      active := |running|;
    }

    method InfoRead() returns (msg: Option<Message>)
      modifies this`done
      ensures if old(done) == [] then msg == None && done == [] else msg == Some(old(done)[0]) && done == old(done)[1..]
    {
      if done == [] {
        return None;
      }
      msg := Some(done[0]);
      done := done[1..];
    }
  }

  class ClientCurl {
    const curl: CurlMulti
    var handles: map<Hash, HandleInfo>
    var newRequest: bool
    var activeRequests: nat    // local variables of mainClientLoop
    var msgCount: nat

    /** The fields, and the locals while they are in use, have the values of protocol state s. */
    predicate Matches(s: State)
      reads this, curl
    {
      && handles == s.handles && newRequest == s.newRequest && curl.running == s.running && curl.done == s.done
      && (s.pc.Reading? ==> activeRequests == s.active && msgCount == s.pc.count)
      && (s.pc.Calling? ==> activeRequests == s.active && msgCount == s.pc.count)
      && (s.pc.Locking? && s.pc.next.ReadOn? ==> activeRequests == s.active && msgCount == s.pc.next.count)
    }

    constructor ()
      ensures Matches(INIT) && fresh(curl)
    {
      curl := new CurlMulti();
      handles := map[];
      newRequest := false;
      activeRequests, msgCount := 0, 0;
    }

    /** The locked part of performRequest; the caller notifies after it. */
    method PerformRequest(hash: Hash, info: HandleInfo, ghost hasCallback: bool, ghost s: State)
      requires Matches(s) && Enabled(s, Add(hash, hasCallback))
      requires info == HandleInfo(s.calls, if hasCallback then Some(s.calls) else None)
      modifies this, curl
      ensures Matches(Apply(s, Add(hash, hasCallback)))
    {
      handles := handles[hash := info];
      curl.AddHandle(hash);
      newRequest := true;
    }

    method RequestCleanup(hash: Hash)
      modifies this`handles
      ensures handles == old(handles) - {hash}
    {
      handles := handles - {hash};
    }

    /** The top of the worker loop. */
    method LaunchAll(finished: seq<Message>, ghost s: State)
      requires Matches(s) && Enabled(s, PerformAll(finished))
      modifies this, curl
      ensures Matches(Apply(s, PerformAll(finished)))
    {
      activeRequests := curl.Perform(finished);
      msgCount := 0;
    }

    /** One iteration of the message loop up to the point where the lock is released for the callback. */
    method ReadMessage(ghost s: State) returns (call: Option<Call>)
      requires Matches(s) && Enabled(s, Read)
      modifies this, curl
      ensures Matches(Apply(s, Read))
      ensures call == if Apply(s, Read).pc.Calling? then Some(Apply(s, Read).pc.call) else None
    {
      var msg := curl.InfoRead();
      msgCount := msgCount + 1;
      call := None;
      match msg.value {
        case Done(hash) =>
          var handleInfo := handles[hash];
          RequestCleanup(hash);
          if handleInfo.callback != None {
            call := Some(Call(handleInfo.callback.value, handleInfo.request));
          }
        case Other =>
      }
    }

    /** The end of the message loop: whether the worker parks in the condition wait. */
    method DecideWait(ghost sleep: bool, ghost s: State) returns (parks: bool)
      requires Matches(s) && Enabled(s, Decide(sleep))
      modifies this
      ensures Matches(Apply(s, Decide(sleep)))
      ensures parks == (Apply(s, Decide(sleep)).pc == Parked)
    {
      parks := false;
      if msgCount == 0 && activeRequests == 0 {
        newRequest := false;
        parks := true;
      }
    }
  }
}
