/**
 The class `ServiceClient`. `request` and the reading thread share no lock, so both are cut into their
 accesses; each part is proved to be the protocol's step of that name.
 */
module ServiceClients {
  import opened Wrappers
  import opened ServiceStream
  import P = ServiceProtocol

  class ServiceClient {
    var connected: bool
    var requested: bool
    var status: Status
    /** Every promise there was; the last one is the current `reply_promise`. */
    var promises: seq<P.Promise>
    /** The promises whose future is out. */
    var retrieved: set<nat>
    var user: P.User
    var reader: P.Reader
    /** How many requests were written; it names them. */
    var issued: nat
    ghost var open: bool
    ghost var futureOf: map<nat, nat>
    ghost var early: set<nat>
    ghost var thrown: set<nat>

    ghost function State(): P.Client
      reads this
    {
      P.Client(connected, requested, user, reader, issued, open, promises, futureOf, early, thrown)
    }

    ghost predicate Valid()
      reads this
    {
      promises != [] && retrieved == futureOf.Values && forall id :: id in futureOf ==> P.Done(State(), id)
    }

    /** A connection was made. */
    constructor ()
      ensures Valid() && State() == P.START.client
    {
      connected, requested, user, reader, status := true, false, P.Idle, P.Reading, SUSPEND;
      promises, retrieved, issued, futureOf, early, thrown, open := [P.Unset], {}, 0, map[], {}, {}, false;
    }

    /** `request` up to its write: refused while not connected or a request is outstanding. */
    method WriteRequest(ghost s: P.Sys, alive: bool) returns (written: seq<P.Msg>)
      requires Valid() && s.client == State() && user.Idle? && alive == !s.stream.cancelled
      modifies this
      ensures Valid() && State() == P.Apply(s, P.Request).client
      ensures P.Apply(s, P.Request).toServer == s.toServer + written
      ensures written != [] <==> alive && old(connected) && !old(requested)
    {
      written := [];
      if !connected || requested || !alive {
        return;
      }
      written := [P.Pull(issued)];
      user, issued, open := P.Wrote, issued + 1, true;
    }

    method SetFlag(ghost s: P.Sys)
      requires Valid() && s.client == State() && user.Wrote?
      modifies this
      ensures Valid() && State() == P.Apply(s, P.Flag).client && requested
    {
      requested := true;
      user := P.Flagged;
    }

    /** `get_future`: the current promise's, or an exception if that is out already. */
    method TakeFuture(ghost s: P.Sys) returns (future: Option<nat>)
      requires Valid() && s.client == State() && user.Flagged? && issued > 0
      modifies this
      ensures Valid() && State() == P.Apply(s, P.Take).client && requested == old(requested)
      ensures future == if P.Retrieved(old(State())) then None else Some(|promises| - 1)
      ensures future.Some? ==> issued - 1 in futureOf && futureOf[issued - 1] == future.value
    {
      user := P.Idle;
      var last := |promises| - 1;
      if last in retrieved {
        thrown := thrown + {issued - 1};
        return None;
      }
      Added(futureOf, issued - 1, last);
      retrieved := retrieved + {last};
      futureOf := futureOf[issued - 1 := last];
      future := Some(last);
    }

    method Cancel(ghost s: P.Sys, alive: bool) returns (written: seq<P.Msg>)
      requires s.client == State() && user.Idle? && (requested ==> issued > 0) && alive == !s.stream.cancelled
      modifies this
      ensures State() == old(State()) && P.Apply(s, P.CancelCall) == s.(toServer := s.toServer + written)
      ensures written != [] <==> alive && connected && requested
    {
      if !connected || !requested || !alive {
        written := [];
      } else {
        written := [P.Cancel(issued - 1)];
      }
    }

    /** The reading thread got a reply: a terminal one sets the promise. */
    method HandleReply(reply: Reply)
      requires Valid() && reader.Reading?
      modifies this
      ensures Valid() && State() == P.ReadReply(old(State()), reply) && status == reply.status
    {
      status := reply.status;
      if status == SUCCESS || status == FAILED || status == ABORTED {
        promises := promises[|promises| - 1 := P.Value(reply)];
        open, reader := false, P.Renewing(false);
      }
    }

    /** The stream is closed: the current promise gets the exception, if the flag is set. */
    method HandleClose()
      requires Valid() && reader.Reading?
      modifies this
      ensures Valid() && State() == P.Closed(old(State()))
    {
      if requested {
        promises := promises[|promises| - 1 := P.Broken];
      }
      reader := P.Renewing(true);
    }

    /** A new promise; one that was not set is abandoned. */
    method RenewPromise()
      requires Valid() && reader.Renewing?
      modifies this
      ensures Valid() && State() == P.RenewPromise(old(State()))
    {
      var last := |promises| - 1;
      if promises[last] == P.Unset {
        promises := promises[last := P.Abandoned];
      }
      promises := promises + [P.Unset];
      if !reader.closing && user != P.Idle && issued > 0 {
        early := early + {issued - 1};
      }
      reader := if reader.closing then P.Leaving else P.Clearing(false);
    }

    method Disconnect(ghost s: P.Sys)
      requires Valid() && s.client == State() && reader.Leaving?
      modifies this
      ensures Valid() && State() == P.Apply(s, P.Leave).client && !connected
    {
      connected, reader := false, P.Clearing(true);
    }

    method ClearFlag()
      requires Valid() && reader.Clearing?
      modifies this
      ensures Valid() && State() == P.ClearFlag(old(State()))
    {
      requested := false;
      reader := if reader.closing then P.Gone else P.Reading;
    }
  }

  lemma Added(futureOf: map<nat, nat>, id: nat, p: nat)
    requires id !in futureOf
    ensures futureOf[id := p].Values == futureOf.Values + {p}
  {
    var after := futureOf[id := p];
    assert after[id] == p;
    forall x | x in futureOf.Values ensures x in after.Values {
      var k :| k in futureOf && futureOf[k] == x;
      assert k in after && after[k] == x;
    }
  }
}
