// The fields and the three locked regions of ClientMultiRequestImplementation, each
// shown to be one step of the protocol in module Coalescer.
module CoalescerClient {
  import opened Coalescer

  /** The client below: what it was asked. Its responses arrive as Respond steps. */
  class WrappedClient {
    var issued: seq<Key>
    var stopped: set<WrappedId>

    method PerformRequest(key: Key) returns (requestToken: WrappedId)
      modifies this
      ensures issued == old(issued) + [key] && requestToken == |old(issued)| && stopped == old(stopped)
    {
      requestToken := |issued|;
      issued := issued + [key];
    }

    /** request_token->cancel(). */
    method CancelRequest(requestToken: WrappedId)
      modifies this
      ensures stopped == old(stopped) + {requestToken} && issued == old(issued)
    {
      stopped := stopped + {requestToken};
    }
  }

  class ClientMultiRequestImplementation {
    const wrappedClient: WrappedClient
    var requestsInFlight: InFlight

    /** The fields have the values of protocol state s. */
    predicate Matches(s: State)
      reads this, wrappedClient
    {
      requestsInFlight == s.inFlight && wrappedClient.issued == s.issued && wrappedClient.stopped == s.stopped
    }

    constructor (wrapped: WrappedClient)
      requires wrapped.issued == [] && wrapped.stopped == {}
      ensures Matches(INIT) && wrappedClient == wrapped
    {
      wrappedClient := wrapped;
      requestsInFlight := map[];
    }

    /** performRequest; sub stands for the callback and the token made for it. */
    method PerformRequest(hash: Key, sub: SubId, ghost s: State)
      requires Matches(s) && sub == |s.joined|
      modifies this, wrappedClient
      ensures Matches(Apply(s, Perform(hash)))
    {
      if hash !in requestsInFlight {
        var requestToken := wrappedClient.PerformRequest(hash);
        requestsInFlight := requestsInFlight[hash := MultiRequests([], requestToken)];
      }
      var entry := requestsInFlight[hash];
      requestsInFlight := requestsInFlight[hash := entry.(multiRequests := entry.multiRequests + [sub])];
      assert [] + [sub] == [sub];
      assert requestsInFlight == Subscribe(s.inFlight, hash, sub, |s.issued|);
    }

    /**
     * The locked region of the response callback: the callbacks to run once the lock
     * is released, and the value stored under the key "multicasted".
     */
    method Collect(hash: Key, ghost w: WrappedId, ghost s: State) returns (callbacks: seq<SubId>, multicasted: bool)
      requires Matches(s) && Enabled(s, Respond(w)) && hash == s.issued[w]
      modifies this
      ensures Matches(Apply(s, Respond(w)))
      ensures callbacks == Apply(s, Respond(w)).batches[w]
      ensures multicasted <==> |callbacks| > 1
    {
      // operator[] makes an empty entry when there is none
      var multiRequests := if hash in requestsInFlight then requestsInFlight[hash].multiRequests else [];
      multicasted := |multiRequests| > 1;
      callbacks := [];
      for i := 0 to |multiRequests|
        invariant callbacks == multiRequests[..i]
      {
        callbacks := callbacks + [multiRequests[i]];
      }
      requestsInFlight := requestsInFlight - {hash};
    }

    /** requestTokenDidCancel for a token whose identifier is in flight. */
    method RequestTokenDidCancel(identifier: Key, sub: SubId, ghost s: State)
      requires Matches(s) && Enabled(s, Cancel(sub)) && identifier == s.issued[s.joined[sub]]
      modifies this, wrappedClient
      ensures Matches(Apply(s, Cancel(sub)))
    {
      var entry := requestsInFlight[identifier];
      var kept := [];
      for i := 0 to |entry.multiRequests|
        invariant kept == Without(entry.multiRequests[..i], sub)
      {
        assert entry.multiRequests[..i + 1][..i] == entry.multiRequests[..i];
        if entry.multiRequests[i] != sub {
          kept := kept + [entry.multiRequests[i]];
        }
      }
      assert entry.multiRequests[..|entry.multiRequests|] == entry.multiRequests;
      if kept == [] {
        wrappedClient.CancelRequest(entry.requestToken);
        requestsInFlight := requestsInFlight - {identifier};
      } else {
        requestsInFlight := requestsInFlight[identifier := entry.(multiRequests := kept)];
      }
    }
  }
}
