/**
 A service client and one stream of a server, joined by a FIFO channel in each direction. The user's
 calls, the client's reading thread, the server's reading thread and the callback interleave freely.
 The client's two threads share no lock, so each of their accesses is a step of its own: `request`
 writes, sets the flag and takes the future; the reading thread sets the promise, replaces it and
 clears the flag, or, when the stream is closed, breaks the promise, replaces it, disconnects and
 clears the flag. What `request` and `cancel` test they test with their write: in between nothing
 can change but that the stream closes, which fails the write, or that the answer is read, which the
 cancel might as well have overtaken.
 */
module ServiceProtocol {
  import opened Sequences
  import opened Wrappers
  import opened ServiceStream

  /** A client message; a cancel remembers the request it was meant for, which the wire does not carry. */
  datatype Msg = Pull(id: nat) | Cancel(id: nat)

  /** A promise that is replaced unset abandons whoever holds its future. */
  datatype Promise = Unset | Value(reply: Reply) | Broken | Abandoned

  /** Where the user is inside `request`. */
  datatype User = Idle | Wrote | Flagged

  /** Where the reading thread is; `closing` once the stream is closed. */
  datatype Reader = Reading | Renewing(closing: bool) | Leaving | Clearing(closing: bool) | Gone

  /** The client. `open` tells that the answer to the last request has not been read, `early` holds the
      requests whose promise was replaced before their future was taken, `thrown` those whose
      `get_future` threw because the future was taken already. */
  datatype Client = Client(
    connected: bool, requested: bool, user: User, reader: Reader, issued: nat, open: bool,
    promises: seq<Promise>, futureOf: map<nat, nat>, early: set<nat>, thrown: set<nat>)

  datatype Sys = Sys(client: Client, stream: Stream, toServer: seq<Msg>, received: nat)

  datatype Step =
    | Request            // `request` has tested and written its message
    | Flag               // `request` sets the flag
    | Take               // `request` takes the future of the current promise
    | CancelCall
    | ServerRead
    | Server(e: Event)   // the callback decides or returns, its thread settles
    | ClientRead         // a reply is read; a terminal one sets the promise
    | Close              // the stream is closed; the promise of an outstanding request is broken
    | Renew              // the reading thread replaces the promise
    | Leave              // it marks the client as not connected
    | Clear              // it clears the flag

  const START := Sys(Client(true, false, Idle, Reading, 0, false, [Unset], map[], {}, {}), FRESH, [], 0)

  function Wire(s: Sys): (wire: seq<Reply>)
  {
    Sent(s.stream.calls)
  }

  // ---------- The client's accesses ----------

  /** The future of the current promise is out already. */
  predicate Retrieved(c: Client)
  {
    |c.promises| - 1 in c.futureOf.Values
  }

  /** `get_future`. */
  function TakeFuture(c: Client): (c': Client)
    requires c.issued > 0 && c.promises != []
  {
    if Retrieved(c) then
      c.(user := Idle, thrown := c.thrown + {c.issued - 1})
    else
      c.(user := Idle, futureOf := c.futureOf[c.issued - 1 := |c.promises| - 1])
  }

  function SetCurrent(c: Client, p: Promise): (c': Client)
    requires c.promises != []
  {
    c.(promises := c.promises[|c.promises| - 1 := p])
  }

  function ReadReply(c: Client, reply: Reply): (c': Client)
    requires c.promises != []
  {
    if Terminal(reply.status) then SetCurrent(c, Value(reply)).(open := false, reader := Renewing(false)) else c
  }

  function Closed(c: Client): (c': Client)
    requires c.promises != []
  {
    (if c.requested then SetCurrent(c, Broken) else c).(reader := Renewing(true))
  }

  function RenewPromise(c: Client): (c': Client)
    requires c.promises != [] && c.reader.Renewing?
  {
    var last := |c.promises| - 1;
    var left := if c.promises[last] == Unset then Abandoned else c.promises[last];
    c.(promises := c.promises[last := left] + [Unset],
       early := if !c.reader.closing && c.user != Idle && c.issued > 0 then c.early + {c.issued - 1} else c.early,
       reader := if c.reader.closing then Leaving else Clearing(false))
  }

  function ClearFlag(c: Client): (c': Client)
    requires c.reader.Clearing?
  {
    c.(requested := false, reader := if c.reader.closing then Gone else Reading)
  }

  function Apply(s: Sys, step: Step): (s': Sys)
  {
    var c := s.client;
    match step
    case Request =>
      if c.connected && !c.requested && c.user.Idle? && !s.stream.cancelled then
        s.(client := c.(user := Wrote, issued := c.issued + 1, open := true), toServer := s.toServer + [Pull(c.issued)])
      else s
    case Flag => if c.user.Wrote? then s.(client := c.(user := Flagged, requested := true)) else s
    case Take => if c.user.Flagged? && c.issued > 0 && c.promises != [] then s.(client := TakeFuture(c)) else s
    case CancelCall =>
      if c.connected && c.requested && c.user.Idle? && c.issued > 0 && !s.stream.cancelled then
        s.(toServer := s.toServer + [Cancel(c.issued - 1)])
      else s
    case ServerRead =>
      if s.toServer != [] then
        var e := match s.toServer[0] case Pull(id) => ReadPull(id) case Cancel(_) => ReadCancel;
        s.(stream := Handle(s.stream, e), toServer := s.toServer[1..])
      else s
    case Server(e) =>
      if e.Decide? || e.Return? || e.Settle? then s.(stream := Handle(s.stream, e)) else s
    case ClientRead =>
      if c.reader.Reading? && s.received < |Wire(s)| && c.promises != [] then
        s.(client := ReadReply(c, Wire(s)[s.received]), received := s.received + 1)
      else s
    case Close =>
      if c.reader.Reading? && c.promises != [] then
        s.(client := Closed(c), stream := Handle(s.stream, Break), toServer := [])
      else s
    case Renew => if c.reader.Renewing? && c.promises != [] then s.(client := RenewPromise(c)) else s
    case Leave => if c.reader.Leaving? then s.(client := c.(connected := false, reader := Clearing(true))) else s
    case Clear => if c.reader.Clearing? then s.(client := ClearFlag(c)) else s
  }

  function Run(steps: seq<Step>): (s: Sys)
  {
    if steps == [] then START else Apply(Run(steps[..|steps| - 1]), steps[|steps| - 1])
  }

  // ---------- Invariants: the client ----------

  /** `request` has come to its end for this request. */
  predicate Done(c: Client, id: nat)
  {
    id < c.issued && (id == c.issued - 1 ==> c.user.Idle?)
  }

  /** The request's future belongs to a promise that its own answer does not set. */
  predicate AfterEarly(c: Client, id: nat)
  {
    id > 0 && id - 1 in c.early
  }

  ghost predicate PromisesOk(c: Client)
  {
    && c.promises != []
    && var p := c.promises[|c.promises| - 1];
       match c.reader
       case Renewing(closing) =>
         if closing then p == Unset || p == Broken else p.Value? && p.reply.req == c.issued - 1 && !c.open
       case _ => p == Unset
  }

  /** Every request that is done has a future or threw, and no two have the same future. */
  ghost predicate FuturesOk(c: Client)
  {
    && (forall id :: id in c.futureOf ==> Done(c, id) && id !in c.thrown && c.futureOf[id] < |c.promises|)
    && (forall id :: id in c.thrown ==> Done(c, id))
    && (forall id: nat :: Done(c, id) ==> id in c.futureOf || id in c.thrown)
    && (forall id, id' :: id in c.futureOf && id' in c.futureOf && id != id' ==> c.futureOf[id] != c.futureOf[id'])
  }

  /** A request is early once its answer was read and its promise replaced behind `request`'s back. */
  ghost predicate EarlyOk(c: Client)
  {
    && (forall id :: id in c.early ==> id < c.issued)
    && (c.issued > 0 && c.issued - 1 in c.early ==> !c.open && c.reader != Renewing(false))
    && (c.issued > 0 && !c.user.Idle? && !c.open && c.reader != Renewing(false) ==> c.issued - 1 in c.early)
    && (c.issued > 0 && !c.user.Idle? && c.issued - 1 in c.early ==> !Retrieved(c))
    && (c.issued == 0 ==> c.user.Idle? && !c.open)
  }

  /** A future with a value holds the answer to its own request, or to the next one if that was early. */
  ghost predicate ValuesOk(c: Client)
  {
    forall id :: id in c.futureOf && c.futureOf[id] < |c.promises| && c.promises[c.futureOf[id]].Value? ==>
      c.promises[c.futureOf[id]].reply.req == if id in c.early then id + 1 else id
  }

  /** Until its answer is read or the stream is closed, a request's future is the current promise's. */
  ghost predicate CurrentOk(c: Client)
  {
    c.open && (c.reader.Reading? || c.reader.Renewing?) && c.issued > 0 && c.issued - 1 in c.futureOf ==>
      c.futureOf[c.issued - 1] == |c.promises| - 1
  }

  ghost predicate ClientOk(c: Client)
  {
    PromisesOk(c) && FuturesOk(c) && EarlyOk(c) && ValuesOk(c) && CurrentOk(c)
  }

  /** Whose future the current promise's is, while the stream lives. */
  function Holder(c: Client): (h: Option<nat>)
  {
    if c.issued == 0 then None
    else if c.open || c.reader == Renewing(false) then
      if AfterEarly(c, c.issued - 1) then Some(c.issued - 2)
      else if c.user.Idle? then Some(c.issued - 1) else None
    else if c.user.Idle? && c.issued - 1 in c.early then Some(c.issued - 1) else None
  }

  ghost predicate HeldOk(c: Client)
  {
    forall h: nat :: (h in c.futureOf && c.futureOf[h] == |c.promises| - 1) <==> Holder(c) == Some(h)
  }

  /** While the stream lives, a client that may make a request is waiting for no answer. */
  ghost predicate LiveOk(c: Client)
  {
    && c.connected && (c.reader == Reading || c.reader == Renewing(false) || c.reader == Clearing(false))
    && (c.reader != Reading ==> !c.open)
    && (!c.user.Wrote? && !c.requested ==> !c.open && c.reader == Reading)
    && (c.user.Wrote? ==> !c.requested)
    && (c.requested ==> c.issued > 0)
    && HeldOk(c)
  }

  predicate Ending(c: Client)
  {
    c.reader == Renewing(true) || c.reader == Leaving || c.reader == Clearing(true) || c.reader == Gone
  }

  // ---------- Invariants: client and server ----------

  ghost predicate OnlyCancels(s: Sys, id: int)
  {
    forall i :: 0 <= i < |s.toServer| ==> s.toServer[i].Cancel? && s.toServer[i].id == id
  }

  /** The request on its way: the only one, the last one, nothing but its own cancels behind it. */
  ghost predicate ToServerOk(s: Sys)
  {
    forall i :: 0 <= i < |s.toServer| && s.toServer[i].Pull? ==>
      && s.toServer[i].id == s.client.issued - 1 && s.client.open
      && s.stream.task != Running && s.received == |Wire(s)|
      && forall j :: i < j < |s.toServer| ==> s.toServer[j] == Cancel(s.client.issued - 1)
  }

  /** A request being processed is the one the client waits for. */
  ghost predicate RunningOk(s: Sys)
  {
    s.stream.task == Running ==>
      s.client.open && s.stream.calls != [] && Last(s.stream).req == s.client.issued - 1
      && OnlyCancels(s, s.client.issued - 1)
  }

  /** So is every reply on its way; a terminal one is the last. */
  ghost predicate InFlight(c: Client, wire: seq<Reply>, received: nat, running: bool)
  {
    && received <= |wire|
    && (received < |wire| ==> c.open)
    && forall i :: received <= i < |wire| ==>
         && wire[i].req == c.issued - 1
         && (Terminal(wire[i].status) ==> i == |wire| - 1 && !running)
  }

  ghost predicate ToClientOk(s: Sys)
  {
    RunningOk(s) && InFlight(s.client, Wire(s), s.received, s.stream.task == Running)
  }

  /** The future of a request holds this reply. */
  ghost predicate Holds(c: Client, id: nat, reply: Reply)
  {
    id in c.futureOf && c.futureOf[id] < |c.promises| && c.promises[c.futureOf[id]] == Value(reply)
  }

  /** What became of a terminal reply that was read. */
  ghost predicate ReplyOk(c: Client, reply: Reply)
  {
    var id := reply.req;
    && id < c.issued && (id == c.issued - 1 ==> !c.open)
    && (AfterEarly(c, id) ==> Holds(c, id - 1, reply))
    && (Done(c, id) ==> (Holds(c, id, reply) <==> id !in c.early && !AfterEarly(c, id)))
    && (Done(c, id) ==> (id in c.thrown <==> id !in c.early && AfterEarly(c, id)))
    && (c.reader == Renewing(false) && id == c.issued - 1 ==>
          c.promises != [] && c.promises[|c.promises| - 1] == Value(reply))
  }

  ghost predicate Answered(c: Client, wire: seq<Reply>, received: nat)
  {
    forall i :: 0 <= i < received <= |wire| && Terminal(wire[i].status) ==> ReplyOk(c, wire[i])
  }

  ghost predicate Inv(s: Sys)
  {
    && StreamInv(s.stream)
    && ClientOk(s.client)
    && s.received <= |Wire(s)|
    && Answered(s.client, Wire(s), s.received)
    && (!s.stream.cancelled ==> LiveOk(s.client) && ToServerOk(s) && ToClientOk(s))
    && (s.stream.cancelled ==> Ending(s.client) && s.toServer == [])
  }

  // ---------- The client's steps ----------

  /** The client's side changed and nothing was read: what is on the way fits as before. */
  lemma ClientMoved(s: Sys, c: Client)
    requires Inv(s) && ClientOk(c) && c.issued == s.client.issued && c.open == s.client.open
    requires Answered(c, Wire(s), s.received)
    requires if s.stream.cancelled then Ending(c) else LiveOk(c)
    ensures Inv(s.(client := c))
  {
  }

  lemma NewRequest(c: Client)
    requires ClientOk(c) && LiveOk(c) && !c.requested && c.user.Idle?
    ensures var c' := c.(user := Wrote, issued := c.issued + 1, open := true);
      ClientOk(c') && LiveOk(c')
  {
    var c' := c.(user := Wrote, issued := c.issued + 1, open := true);
    assert forall id: nat :: Done(c', id) <==> Done(c, id);
    assert AfterEarly(c', c.issued) <==> c.issued > 0 && c.issued - 1 in c.early;
  }

  lemma NewRequestAnswered(c: Client, reply: Reply)
    requires ClientOk(c) && LiveOk(c) && !c.requested && c.user.Idle? && ReplyOk(c, reply)
    ensures ReplyOk(c.(user := Wrote, issued := c.issued + 1, open := true), reply)
  {
  }

  lemma RequestKeeps(s: Sys)
    requires Inv(s)
    ensures Inv(Apply(s, Request))
  {
    var t := RequestIs(s);
    if t != s { Requested(s); }
  }

  lemma RequestIs(s: Sys) returns (t: Sys)
    ensures t == Apply(s, Request)
    ensures t != s ==>
      && !s.client.requested && s.client.user.Idle? && !s.stream.cancelled
      && t == s.(client := s.client.(user := Wrote, issued := s.client.issued + 1, open := true),
                 toServer := s.toServer + [Pull(s.client.issued)])
  {
    t := Apply(s, Request);
  }

  lemma Requested(s: Sys)
    requires Inv(s) && !s.client.requested && s.client.user.Idle? && !s.stream.cancelled
    ensures var c := s.client;
      Inv(s.(client := c.(user := Wrote, issued := c.issued + 1, open := true),
             toServer := s.toServer + [Pull(c.issued)]))
  {
    var c := s.client;
    NewRequest(c);
    NewRequestAll(c, Wire(s), s.received);
    RequestSent(s);
    SentOn(s, c.(user := Wrote, issued := c.issued + 1, open := true), s.toServer + [Pull(c.issued)]);
  }

  lemma NewRequestAll(c: Client, wire: seq<Reply>, received: nat)
    requires ClientOk(c) && LiveOk(c) && !c.requested && c.user.Idle?
    requires received <= |wire| && Answered(c, wire, received)
    ensures Answered(c.(user := Wrote, issued := c.issued + 1, open := true), wire, received)
  {
    var c' := c.(user := Wrote, issued := c.issued + 1, open := true);
    forall i | 0 <= i < received && Terminal(wire[i].status) ensures ReplyOk(c', wire[i]) {
      NewRequestAnswered(c, wire[i]);
    }
  }

  lemma SentOn(s: Sys, c: Client, toServer: seq<Msg>)
    requires Inv(s) && !s.stream.cancelled && ClientOk(c) && LiveOk(c) && Answered(c, Wire(s), s.received)
    requires var s' := s.(client := c, toServer := toServer);
      ToServerOk(s') && ToClientOk(s')
    ensures Inv(s.(client := c, toServer := toServer))
  {
  }

  /** A request goes out when nothing is on the way. */
  lemma RequestSent(s: Sys)
    requires ToServerOk(s) && ToClientOk(s) && !s.client.open
    ensures var c := s.client;
      var s' := s.(client := c.(user := Wrote, issued := c.issued + 1, open := true),
                   toServer := s.toServer + [Pull(c.issued)]);
      ToServerOk(s') && ToClientOk(s')
  {
    forall i | 0 <= i < |s.toServer| ensures !s.toServer[i].Pull? { }
  }

  /** The flags changed and nothing was set, replaced or taken. */
  ghost predicate Relabelled(c: Client, c': Client)
  {
    && c'.promises == c.promises && c'.futureOf == c.futureOf && c'.early == c.early && c'.thrown == c.thrown
    && c'.issued == c.issued && c'.open == c.open && (c'.user.Idle? <==> c.user.Idle?)
    && (c'.reader == c.reader || (!c.reader.Renewing? && !c'.reader.Renewing?))
    && (c.open && c'.reader.Reading? ==> c.reader.Reading?)
  }

  lemma RelabelledOk(c: Client, c': Client)
    requires ClientOk(c) && Relabelled(c, c')
    ensures ClientOk(c')
    ensures HeldOk(c) ==> HeldOk(c')
  {
    SameFutures(c, c');
    SameValues(c, c');
    RelabelledEarly(c, c');
  }

  lemma RelabelledEarly(c: Client, c': Client)
    requires PromisesOk(c) && EarlyOk(c) && CurrentOk(c) && Relabelled(c, c')
    ensures PromisesOk(c') && EarlyOk(c') && CurrentOk(c') && (HeldOk(c) ==> HeldOk(c'))
  {
    assert Retrieved(c') <==> Retrieved(c);
    assert Holder(c') == Holder(c);
  }

  /** What has a value in a promise had it before. */
  lemma SameValues(c: Client, c': Client)
    requires ValuesOk(c) && c'.futureOf == c.futureOf && |c.promises| <= |c'.promises|
    requires forall id :: id in c.futureOf ==> c.futureOf[id] < |c.promises| && (id in c'.early <==> id in c.early)
    requires forall p :: 0 <= p < |c.promises| && c'.promises[p].Value? ==> c'.promises[p] == c.promises[p]
    ensures ValuesOk(c')
  {
  }

  /** Nobody came to the end of `request`, and no promise went. */
  lemma SameFutures(c: Client, c': Client)
    requires FuturesOk(c) && c'.futureOf == c.futureOf && c'.thrown == c.thrown && c'.issued == c.issued
    requires (c'.user.Idle? <==> c.user.Idle?) && |c.promises| <= |c'.promises|
    ensures FuturesOk(c')
  {
    assert forall id: nat :: Done(c', id) <==> Done(c, id);
  }

  lemma RelabelledReply(c: Client, c': Client, reply: Reply)
    requires Relabelled(c, c') && ReplyOk(c, reply)
    ensures ReplyOk(c', reply)
  {
  }

  lemma RelabelledKeeps(s: Sys, c: Client)
    requires Inv(s) && Relabelled(s.client, c)
    requires if s.stream.cancelled then Ending(c) else HeldOk(c) ==> LiveOk(c)
    ensures Inv(s.(client := c))
  {
    RelabelledOk(s.client, c);
    forall i | 0 <= i < s.received && Terminal(Wire(s)[i].status) ensures ReplyOk(c, Wire(s)[i]) {
      RelabelledReply(s.client, c, Wire(s)[i]);
    }
    ClientMoved(s, c);
  }

  lemma FlagKeeps(s: Sys)
    requires Inv(s)
    ensures Inv(Apply(s, Flag))
  {
    var c := s.client;
    if c.user.Wrote? {
      RelabelledKeeps(s, c.(user := Flagged, requested := true));
    }
  }

  /** Taking the future: it is the current promise's, unless that is out already. */
  lemma TakeClient(c: Client)
    requires ClientOk(c) && c.user.Flagged?
    ensures ClientOk(TakeFuture(c))
    ensures LiveOk(c) ==> LiveOk(TakeFuture(c))
  {
    TakeFutures(c);
    TakeValues(c);
    if LiveOk(c) {
      TakeHeld(c);
    }
  }

  lemma TakeFutures(c: Client)
    requires FuturesOk(c) && c.promises != [] && c.user.Flagged? && c.issued > 0
    ensures FuturesOk(TakeFuture(c))
  {
    var c' := TakeFuture(c);
    assert !Done(c, c.issued - 1);
    assert forall id: nat :: Done(c', id) <==> Done(c, id) || id == c.issued - 1;
    TakeApart(c);
  }

  lemma TakeApart(c: Client)
    requires c.promises != [] && c.issued > 0
    requires forall id, id' :: id in c.futureOf && id' in c.futureOf && id != id' ==> c.futureOf[id] != c.futureOf[id']
    ensures var f := TakeFuture(c).futureOf;
      forall id, id' :: id in f && id' in f && id != id' ==> f[id] != f[id']
  {
    var f := TakeFuture(c).futureOf;
    forall id, id' | id in f && id' in f && id != id' ensures f[id] != f[id'] {
      NotRetrieved(c, id);
      NotRetrieved(c, id');
    }
  }

  lemma NotRetrieved(c: Client, id: nat)
    ensures id in c.futureOf && c.futureOf[id] == |c.promises| - 1 ==> Retrieved(c)
  {
  }

  lemma TakeValues(c: Client)
    requires ClientOk(c) && c.user.Flagged?
    ensures ValuesOk(TakeFuture(c)) && EarlyOk(TakeFuture(c)) && PromisesOk(TakeFuture(c)) && CurrentOk(TakeFuture(c))
  {
    var c' := TakeFuture(c);
    TakeRest(c);
    forall id | id in c'.futureOf && c'.futureOf[id] < |c'.promises| && c'.promises[c'.futureOf[id]].Value?
      ensures c'.promises[c'.futureOf[id]].reply.req == if id in c'.early then id + 1 else id
    {
      TakenValue(c, id);
    }
  }

  lemma TakeRest(c: Client)
    requires PromisesOk(c) && EarlyOk(c) && FuturesOk(c) && c.user.Flagged?
    ensures EarlyOk(TakeFuture(c)) && PromisesOk(TakeFuture(c)) && CurrentOk(TakeFuture(c))
  {
    assert c.issued - 1 !in c.futureOf by { assert !Done(c, c.issued - 1); }
  }

  lemma TakenValue(c: Client, id: nat)
    requires PromisesOk(c) && ValuesOk(c) && EarlyOk(c) && c.user.Flagged? && c.issued > 0
    requires var c' := TakeFuture(c);
      id in c'.futureOf && c'.futureOf[id] < |c'.promises| && c'.promises[c'.futureOf[id]].Value?
    ensures var c' := TakeFuture(c);
      c'.promises[c'.futureOf[id]].reply.req == if id in c'.early then id + 1 else id
  {
    if id == c.issued - 1 && !Retrieved(c) {
      assert c.reader == Renewing(false);
    } else {
      assert id in c.futureOf && TakeFuture(c).futureOf[id] == c.futureOf[id];
    }
  }

  lemma TakeHeld(c: Client)
    requires ClientOk(c) && c.user.Flagged? && HeldOk(c)
    ensures HeldOk(TakeFuture(c))
    ensures Retrieved(c) <==> AfterEarly(c, c.issued - 1) && c.issued - 1 !in c.early
  {
    RetrievedIffHeld(c);
    assert c.issued - 1 !in c.futureOf by { assert !Done(c, c.issued - 1); }
    var c' := TakeFuture(c);
    forall h: nat ensures (h in c'.futureOf && c'.futureOf[h] == |c'.promises| - 1) <==> Holder(c') == Some(h) {
      assert (h in c.futureOf && c.futureOf[h] == |c.promises| - 1) <==> Holder(c) == Some(h);
    }
  }

  lemma RetrievedIffHeld(c: Client)
    requires c.promises != [] && HeldOk(c)
    ensures Retrieved(c) <==> Holder(c).Some?
  {
    if Retrieved(c) {
      var h :| h in c.futureOf && c.futureOf[h] == |c.promises| - 1;
    }
    if Holder(c).Some? {
      NotRetrieved(c, Holder(c).value);
    }
  }

  /** For other requests nothing changes. */
  lemma TakeOthers(c: Client, reply: Reply)
    requires c.promises != [] && c.issued > 0 && c.user.Flagged? && ReplyOk(c, reply) && reply.req != c.issued - 1
    ensures ReplyOk(TakeFuture(c), reply)
  {
    var c', id := TakeFuture(c), reply.req;
    assert Done(c', id) && Done(c, id) && AfterEarly(c', id) == AfterEarly(c, id);
    assert Holds(c', id, reply) == Holds(c, id, reply);
    assert id > 0 ==> Holds(c', id - 1, reply) == Holds(c, id - 1, reply);
  }

  /** The answer was read and its promise not replaced yet: it is taken in time. */
  lemma TakeInTime(c: Client, reply: Reply)
    requires ClientOk(c) && c.user.Flagged? && HeldOk(c) && c.reader == Renewing(false)
    requires ReplyOk(c, reply) && reply.req == c.issued - 1
    ensures ReplyOk(TakeFuture(c), reply)
  {
    TakeHeld(c);
    var c', id := TakeFuture(c), reply.req;
    assert id !in c.early && (Retrieved(c) <==> AfterEarly(c, id));
    assert id !in c.futureOf by { assert !Done(c, id); }
    assert AfterEarly(c, id) ==> Holds(c', id - 1, reply);
  }

  /** It was replaced: the future is of a promise without a value. */
  lemma TakeLate(c: Client, reply: Reply)
    requires ClientOk(c) && c.user.Flagged? && c.reader != Renewing(false)
    requires ReplyOk(c, reply) && reply.req == c.issued - 1
    ensures ReplyOk(TakeFuture(c), reply)
  {
    var c', id := TakeFuture(c), reply.req;
    assert id in c.early && !Retrieved(c);
    assert !c.promises[|c.promises| - 1].Value?;
    assert AfterEarly(c, id) ==> Holds(c', id - 1, reply);
  }

  lemma TakeAnswered(c: Client, reply: Reply)
    requires ClientOk(c) && c.user.Flagged? && ReplyOk(c, reply) && (LiveOk(c) || Ending(c))
    ensures ReplyOk(TakeFuture(c), reply)
  {
    if reply.req != c.issued - 1 {
      TakeOthers(c, reply);
    } else if c.reader == Renewing(false) {
      TakeInTime(c, reply);
    } else {
      TakeLate(c, reply);
    }
  }

  lemma TakeKeeps(s: Sys)
    requires Inv(s)
    ensures Inv(Apply(s, Take))
  {
    var c := s.client;
    if c.user.Flagged? {
      TakeClient(c);
      forall i | 0 <= i < s.received && Terminal(Wire(s)[i].status) ensures ReplyOk(TakeFuture(c), Wire(s)[i]) {
        TakeAnswered(c, Wire(s)[i]);
      }
      ClientMoved(s, TakeFuture(c));
    }
  }

  lemma CancelCallKeeps(s: Sys)
    requires Inv(s)
    ensures Inv(Apply(s, CancelCall))
  {
    var c := s.client;
    if c.connected && c.requested && c.user.Idle? && c.issued > 0 && !s.stream.cancelled {
      CancelSent(s);
      CancelledKeeps(s);
    }
  }

  lemma CancelledKeeps(s: Sys)
    requires Inv(s) && !s.stream.cancelled && s.client.issued > 0
    requires var s' := s.(toServer := s.toServer + [Cancel(s.client.issued - 1)]);
      ToServerOk(s') && ToClientOk(s')
    ensures Inv(s.(toServer := s.toServer + [Cancel(s.client.issued - 1)]))
  {
  }

  lemma CancelSent(s: Sys)
    requires ToServerOk(s) && ToClientOk(s) && s.client.issued > 0
    ensures var s' := s.(toServer := s.toServer + [Cancel(s.client.issued - 1)]);
      ToServerOk(s') && ToClientOk(s')
  {
  }

  /** Reading the answer to the last request sets the current promise. */
  lemma TerminalRead(c: Client, reply: Reply)
    requires ClientOk(c) && LiveOk(c) && c.open && reply.req == c.issued - 1 && Terminal(reply.status)
    ensures ClientOk(ReadReply(c, reply)) && LiveOk(ReadReply(c, reply))
    ensures ReplyOk(ReadReply(c, reply), reply)
  {
    var c' := ReadReply(c, reply);
    SameFutures(c, c');
    assert Holder(c') == Holder(c);
    assert HeldOk(c');
    assert ValuesOk(c') && EarlyOk(c');
    TerminalOwn(c, reply);
  }

  lemma TerminalOwn(c: Client, reply: Reply)
    requires ClientOk(c) && LiveOk(c) && c.open && reply.req == c.issued - 1 && Terminal(reply.status)
    ensures ReplyOk(ReadReply(c, reply), reply)
  {
    var c', id := ReadReply(c, reply), reply.req;
    assert id !in c.early && (Done(c', id) <==> c.user.Idle?);
    if AfterEarly(c, id) {
      assert Holder(c) == Some(id - 1);
      assert id !in c.futureOf;
    } else if c.user.Idle? {
      assert Holder(c) == Some(id);
    }
  }

  lemma TerminalAnswered(c: Client, reply: Reply, earlier: Reply)
    requires ClientOk(c) && LiveOk(c) && c.open && reply.req == c.issued - 1 && Terminal(reply.status)
    requires ReplyOk(c, earlier)
    ensures ReplyOk(ReadReply(c, reply), earlier)
  {
    var c' := ReadReply(c, reply);
    assert earlier.req < c.issued - 1;
    assert Holder(c) != Some(earlier.req) || earlier.req in c.early;
  }

  /** Replacing the promise behind `request`'s back makes the request early. */
  lemma RenewClient(c: Client)
    requires ClientOk(c) && c.reader.Renewing?
    ensures ClientOk(RenewPromise(c))
    ensures LiveOk(c) ==> LiveOk(RenewPromise(c))
  {
    var c' := RenewPromise(c);
    SameFutures(c, c');
    assert c.issued > 0 && c.issued - 1 in c.futureOf ==> c.user.Idle? by {
      assert c.issued > 0 && c.issued - 1 in c.futureOf ==> Done(c, c.issued - 1);
    }
    SameValues(c, c');
    RenewEarly(c);
  }

  lemma RenewEarly(c: Client)
    requires FuturesOk(c) && PromisesOk(c) && EarlyOk(c) && CurrentOk(c) && c.reader.Renewing?
    ensures var c' := RenewPromise(c);
      PromisesOk(c') && EarlyOk(c') && CurrentOk(c') && (LiveOk(c) ==> LiveOk(c'))
  {
    var c' := RenewPromise(c);
    assert c'.promises[|c'.promises| - 1] == Unset;
    assert !Retrieved(c');
    if LiveOk(c) {
      assert Holder(c') == None;
    }
  }

  lemma RenewAnswered(c: Client, reply: Reply)
    requires ClientOk(c) && c.reader.Renewing? && ReplyOk(c, reply) && (LiveOk(c) || Ending(c))
    ensures ReplyOk(RenewPromise(c), reply)
  {
    var c', id := RenewPromise(c), reply.req;
    SameHolds(c, c', id, reply);
    if id > 0 { SameHolds(c, c', id - 1, reply); }
    if id == c.issued - 1 && !c.reader.closing && !c.user.Idle? {
      assert !Done(c', id);
    }
  }

  /** Promises keep their values, and nobody takes a future. */
  lemma SameHolds(c: Client, c': Client, id: nat, reply: Reply)
    requires c'.futureOf == c.futureOf && |c.promises| <= |c'.promises|
    requires forall p :: 0 <= p < |c.promises| && (c.promises[p].Value? || c'.promises[p].Value?) ==>
      c'.promises[p] == c.promises[p]
    requires id in c.futureOf ==> c.futureOf[id] < |c.promises|
    ensures Holds(c', id, reply) <==> Holds(c, id, reply)
  {
  }

  lemma RenewKeeps(s: Sys)
    requires Inv(s)
    ensures Inv(Apply(s, Renew))
  {
    var c := s.client;
    if c.reader.Renewing? {
      RenewClient(c);
      forall i | 0 <= i < s.received && Terminal(Wire(s)[i].status) ensures ReplyOk(RenewPromise(c), Wire(s)[i]) {
        RenewAnswered(c, Wire(s)[i]);
      }
      ClientMoved(s, RenewPromise(c));
    }
  }

  lemma ClearKeeps(s: Sys)
    requires Inv(s)
    ensures Inv(Apply(s, Clear))
  {
    if s.client.reader.Clearing? {
      RelabelledKeeps(s, ClearFlag(s.client));
    }
  }

  lemma LeaveKeeps(s: Sys)
    requires Inv(s)
    ensures Inv(Apply(s, Leave))
  {
    if s.client.reader.Leaving? {
      RelabelledKeeps(s, s.client.(connected := false, reader := Clearing(true)));
    }
  }

  /** Closing breaks the current promise if the flag is set, and touches no other. */
  lemma CloseClient(c: Client)
    requires ClientOk(c) && c.reader.Reading?
    ensures ClientOk(Closed(c))
  {
    var c' := Closed(c);
    SameFutures(c, c');
    SameValues(c, c');
    assert Retrieved(c') <==> Retrieved(c);
    assert EarlyOk(c') && PromisesOk(c') && CurrentOk(c');
  }

  lemma CloseAnswered(c: Client, reply: Reply)
    requires ClientOk(c) && c.reader.Reading? && ReplyOk(c, reply)
    ensures ReplyOk(Closed(c), reply)
  {
    var c', id := Closed(c), reply.req;
    SameHolds(c, c', id, reply);
    if id > 0 { SameHolds(c, c', id - 1, reply); }
  }

  lemma CloseKeeps(s: Sys)
    requires Inv(s)
    ensures Inv(Apply(s, Close))
  {
    if s.client.reader.Reading? {
      BreakKeeps(s.stream);
      CloseClient(s.client);
      CloseAll(s.client, Wire(s), s.received);
      assert Handle(s.stream, Break).calls == s.stream.calls;
    }
  }

  lemma CloseAll(c: Client, wire: seq<Reply>, received: nat)
    requires ClientOk(c) && c.reader.Reading? && received <= |wire| && Answered(c, wire, received)
    ensures Answered(Closed(c), wire, received)
  {
    forall i | 0 <= i < received && Terminal(wire[i].status) ensures ReplyOk(Closed(c), wire[i]) {
      CloseAnswered(c, wire[i]);
    }
  }

  lemma ClientReadKeeps(s: Sys)
    requires Inv(s)
    ensures Inv(Apply(s, ClientRead))
  {
    if s.client.reader.Reading? && s.received < |Wire(s)| {
      if Terminal(Wire(s)[s.received].status) {
        TerminalKeeps(s);
      } else {
        PlainKeeps(s);
      }
    }
  }

  lemma PlainKeeps(s: Sys)
    requires Inv(s) && s.received < |Wire(s)| && !Terminal(Wire(s)[s.received].status)
    ensures Inv(s.(received := s.received + 1))
  {
    var s' := s.(received := s.received + 1);
    if !s.stream.cancelled {
      assert forall i :: 0 <= i < |s.toServer| ==> !s.toServer[i].Pull?;
      assert ToServerOk(s') && ToClientOk(s');
    }
  }

  lemma TerminalKeeps(s: Sys)
    requires Inv(s) && s.client.reader.Reading? && s.received < |Wire(s)| && Terminal(Wire(s)[s.received].status)
    ensures Inv(Apply(s, ClientRead))
  {
    var reply := Wire(s)[s.received];
    TerminalWire(s);
    TerminalRead(s.client, reply);
    TerminalAll(s.client, Wire(s), s.received);
    var c := ReadReply(s.client, reply);
    ClientReadIs(s, c);
    ReadOn(s, c);
  }

  lemma ClientReadIs(s: Sys, c: Client)
    requires s.client.reader.Reading? && s.received < |Wire(s)| && s.client.promises != []
    requires c == ReadReply(s.client, Wire(s)[s.received])
    ensures Apply(s, ClientRead) == s.(client := c, received := s.received + 1)
  {
  }

  lemma ReadOn(s: Sys, c: Client)
    requires StreamInv(s.stream) && !s.stream.cancelled && s.received < |Wire(s)| && ClientOk(c) && LiveOk(c)
    requires Answered(c, Wire(s), s.received + 1)
    requires var s' := s.(client := c, received := s.received + 1);
      ToServerOk(s') && ToClientOk(s')
    ensures Inv(s.(client := c, received := s.received + 1))
  {
  }

  lemma TerminalAll(c: Client, wire: seq<Reply>, received: nat)
    requires ClientOk(c) && LiveOk(c) && c.open && received < |wire| && Answered(c, wire, received)
    requires wire[received].req == c.issued - 1 && Terminal(wire[received].status)
    ensures Answered(ReadReply(c, wire[received]), wire, received + 1)
  {
    var reply := wire[received];
    TerminalOwn(c, reply);
    forall i | 0 <= i < received + 1 && Terminal(wire[i].status) ensures ReplyOk(ReadReply(c, reply), wire[i]) {
      if i < received {
        TerminalAnswered(c, reply, wire[i]);
      }
    }
  }

  /** A terminal reply is the last one, and nothing else is on the way. */
  lemma TerminalWire(s: Sys)
    requires Inv(s) && s.client.reader.Reading? && s.received < |Wire(s)| && Terminal(Wire(s)[s.received].status)
    ensures s.client.open && Wire(s)[s.received].req == s.client.issued - 1 && !s.stream.cancelled
    ensures var s' := s.(client := ReadReply(s.client, Wire(s)[s.received]), received := s.received + 1);
      ToServerOk(s') && ToClientOk(s')
  {
    var s' := s.(client := ReadReply(s.client, Wire(s)[s.received]), received := s.received + 1);
    assert s'.received == |Wire(s')| && s'.stream.task != Running;
    forall i | 0 <= i < |s.toServer| ensures !s.toServer[i].Pull? { }
  }

  // ---------- The server's steps ----------

  /** How a server event changes the stream and the wire. */
  lemma ServerMove(s: Sys, e: Event) returns (t: Stream, more: seq<Reply>)
    requires Inv(s) && !e.Break?
    ensures t == Handle(s.stream, e) && more == Emits(s.stream, e)
    ensures StreamInv(t) && t.cancelled == s.stream.cancelled && Sent(t.calls) == Wire(s) + more
    ensures s.received <= |Sent(t.calls)| && Answered(s.client, Sent(t.calls), s.received)
  {
    HandleKeeps(s.stream, e);
    HandleSends(s.stream, e);
    OnlyBreakCancels(s.stream, e);
    t, more := Handle(s.stream, e), Emits(s.stream, e);
    AnsweredOn(s.client, Wire(s), more, s.received);
  }

  lemma AnsweredOn(c: Client, wire: seq<Reply>, more: seq<Reply>, received: nat)
    requires received <= |wire| && Answered(c, wire, received)
    ensures Answered(c, wire + more, received)
  {
    forall i | 0 <= i < received && Terminal((wire + more)[i].status) ensures ReplyOk(c, (wire + more)[i]) {
      assert (wire + more)[i] == wire[i];
    }
  }

  /** The stream moved without taking a request: what it says is said for the one that runs. */
  predicate Moved(s: Stream, t: Stream, more: seq<Reply>)
  {
    && (t.task == Running ==> s.task == Running && s.calls != [] && t.calls != [] && Last(t).req == Last(s).req)
    && (more != [] ==>
          && |more| == 1 && s.task == Running && s.calls != [] && more[0].req == Last(s).req
          && (Terminal(more[0].status) ==> t.task != Running))
  }

  lemma ServerMoved(s: Sys, e: Event) returns (t: Stream, more: seq<Reply>)
    requires Inv(s) && !e.Break? && !e.ReadPull?
    ensures t == Handle(s.stream, e) && Moved(s.stream, t, more)
    ensures StreamInv(t) && t.cancelled == s.stream.cancelled && Sent(t.calls) == Wire(s) + more
    ensures s.received <= |Sent(t.calls)| && Answered(s.client, Sent(t.calls), s.received)
  {
    t, more := ServerMove(s, e);
    EmitsForRunning(s.stream, e);
  }

  lemma ServerKeeps(s: Sys, e: Event)
    requires Inv(s) && (e.Decide? || e.Return? || e.Settle?)
    ensures Inv(Apply(s, Server(e)))
  {
    var t, more := ServerMoved(s, e);
    if !s.stream.cancelled {
      ServerToClient(s, t, more, s.toServer);
      ServerToServer(s, t, more);
    }
    Rejoined(s, t, s.toServer);
    ServerIs(s, e, t);
  }

  lemma ServerIs(s: Sys, e: Event, t: Stream)
    requires t == Handle(s.stream, e) && (e.Decide? || e.Return? || e.Settle?)
    ensures Apply(s, Server(e)) == s.(stream := t, toServer := s.toServer)
  {
  }

  lemma ServerReadIs(s: Sys, t: Stream)
    requires s.toServer != []
    requires t == Handle(s.stream, match s.toServer[0] case Pull(id) => ReadPull(id) case Cancel(_) => ReadCancel)
    ensures Apply(s, ServerRead) == s.(stream := t, toServer := s.toServer[1..])
  {
  }

  /** The server's side changed, and what it says fits the client's. */
  lemma Rejoined(s: Sys, stream: Stream, rest: seq<Msg>)
    requires Inv(s) && StreamInv(stream) && stream.cancelled == s.stream.cancelled
    requires s.received <= |Sent(stream.calls)| && Answered(s.client, Sent(stream.calls), s.received)
    requires var s' := s.(stream := stream, toServer := rest);
      (!stream.cancelled ==> ToServerOk(s') && ToClientOk(s')) && (stream.cancelled ==> rest == [])
    ensures Inv(s.(stream := stream, toServer := rest))
  {
  }

  /** What is on its way to the server is none of the callback's business. */
  lemma ServerToServer(s: Sys, t: Stream, more: seq<Reply>)
    requires ToServerOk(s) && Moved(s.stream, t, more) && Sent(t.calls) == Wire(s) + more
    ensures ToServerOk(s.(stream := t))
  {
    if s.stream.task != Running {
      assert Wire(s) + [] == Wire(s);
    }
  }

  /** With possibly fewer messages left to read. */
  lemma ServerToClient(s: Sys, t: Stream, more: seq<Reply>, rest: seq<Msg>)
    requires ToClientOk(s) && Moved(s.stream, t, more) && Sent(t.calls) == Wire(s) + more
    requires forall m :: m in rest ==> m in s.toServer
    ensures ToClientOk(s.(stream := t, toServer := rest))
  {
    if s.stream.task == Running {
      forall i | 0 <= i < |rest| ensures rest[i] == Cancel(s.client.issued - 1) { assert rest[i] in s.toServer; }
    }
    InFlightMore(s.client, Wire(s), s.received, s.stream.task == Running, more, t.task == Running);
  }

  /** At most one more reply, while the request is running; a terminal one ends it. */
  lemma InFlightMore(c: Client, wire: seq<Reply>, received: nat, running: bool, more: seq<Reply>, running': bool)
    requires InFlight(c, wire, received, running) && (running' ==> running)
    requires more != [] ==> |more| == 1 && running && c.open && more[0].req == c.issued - 1
    requires more != [] && Terminal(more[0].status) ==> !running'
    ensures InFlight(c, wire + more, received, running')
  {
    if more == [] { assert wire + more == wire; }
  }

  lemma ReadCancelKeeps(s: Sys)
    requires Inv(s) && s.toServer != [] && s.toServer[0].Cancel?
    ensures Inv(Apply(s, ServerRead))
  {
    var rest := s.toServer[1..];
    var t, more := ServerMoved(s, ReadCancel);
    assert !s.stream.cancelled;
    ServerToClient(s, t, more, rest);
    RestOk(s, t, more);
    Rejoined(s, t, rest);
    ServerReadIs(s, t);
  }

  /** A cancel in front of the request on its way can be taken off. */
  lemma RestOk(s: Sys, t: Stream, more: seq<Reply>)
    requires ToServerOk(s) && s.toServer != [] && s.toServer[0].Cancel?
    requires Moved(s.stream, t, more) && Sent(t.calls) == Wire(s) + more
    ensures ToServerOk(s.(stream := t, toServer := s.toServer[1..]))
  {
    if s.stream.task != Running {
      assert Wire(s) + [] == Wire(s);
    }
    var rest := s.toServer[1..];
    forall i | 0 <= i < |rest| && rest[i].Pull?
      ensures rest[i].id == s.client.issued - 1 && s.client.open && s.stream.task != Running && s.received == |Wire(s)|
      ensures forall j :: i < j < |rest| ==> rest[j] == Cancel(s.client.issued - 1)
    {
      assert s.toServer[i + 1].Pull?;
      assert forall j :: i < j < |rest| ==> rest[j] == s.toServer[j + 1];
    }
  }

  lemma ReadPullKeeps(s: Sys)
    requires Inv(s) && s.toServer != [] && s.toServer[0].Pull?
    ensures Inv(Apply(s, ServerRead))
  {
    var id, rest := s.toServer[0].id, s.toServer[1..];
    var t, more := ServerMove(s, ReadPull(id));
    PullAlone(s, id);
    PullToClient(s, id, t);
    assert ToServerOk(s.(stream := t, toServer := rest));
    Rejoined(s, t, rest);
    ServerReadIs(s, t);
  }

  /** Behind the request on its way there are only its own cancels. */
  lemma PullAlone(s: Sys, id: nat)
    requires Inv(s) && s.toServer != [] && s.toServer[0] == Pull(id)
    ensures !s.stream.cancelled && id == s.client.issued - 1 && s.client.open && s.received == |Wire(s)|
    ensures s.stream.task != Running && OnlyCancels(s.(toServer := s.toServer[1..]), id)
    ensures forall stream :: ToServerOk(s.(stream := stream, toServer := s.toServer[1..]))
  {
    var rest := s.toServer[1..];
    forall i | 0 <= i < |rest| ensures rest[i] == Cancel(id) { assert rest[i] == s.toServer[i + 1]; }
  }

  /** The request on its way is accepted, or ignored. */
  lemma PullToClient(s: Sys, id: nat, t: Stream)
    requires ToClientOk(s) && s.toServer != [] && !s.stream.cancelled && t == Handle(s.stream, ReadPull(id))
    requires id == s.client.issued - 1 && s.client.open && s.received == |Wire(s)| && s.stream.task != Running
    requires OnlyCancels(s.(toServer := s.toServer[1..]), id)
    ensures ToClientOk(s.(stream := t, toServer := s.toServer[1..]))
  {
    if s.stream.status == SUSPEND && s.stream.task == NoTask {
      PullCalls(s.stream, id);
      PullSends(s.stream, id);
      Accepted(s, id, t);
    }
  }

  lemma Accepted(s: Sys, id: nat, t: Stream)
    requires id == s.client.issued - 1 && s.client.open && s.received == |Wire(s)|
    requires t.calls == s.stream.calls + [Call(id, [PROCESS], None, false)]
    requires Sent(t.calls) == Wire(s) + [Reply(id, PROCESS)]
    requires s.toServer != [] && OnlyCancels(s.(toServer := s.toServer[1..]), id)
    ensures var s' := s.(stream := t, toServer := s.toServer[1..]);
      RunningOk(s') && ToClientOk(s')
  {
    var s' := s.(stream := t, toServer := s.toServer[1..]);
    assert Last(t).req == id;
    assert OnlyCancels(s', id);
  }

  lemma ApplyKeeps(s: Sys, step: Step)
    requires Inv(s)
    ensures Inv(Apply(s, step))
  {
    match step
    case Request => RequestKeeps(s);
    case Flag => FlagKeeps(s);
    case Take => TakeKeeps(s);
    case CancelCall => CancelCallKeeps(s);
    case ServerRead =>
      if s.toServer != [] {
        if s.toServer[0].Pull? { ReadPullKeeps(s); } else { ReadCancelKeeps(s); }
      }
    case Server(e) => if e.Decide? || e.Return? || e.Settle? { ServerKeeps(s, e); }
    case ClientRead => ClientReadKeeps(s);
    case Close => CloseKeeps(s);
    case Renew => RenewKeeps(s);
    case Leave => LeaveKeeps(s);
    case Clear => ClearKeeps(s);
  }

  lemma {:induction false} RunInv(steps: seq<Step>)
    ensures Inv(Run(steps))
    decreases |steps|
  {
    if steps != [] {
      RunInv(steps[..|steps| - 1]);
      ApplyKeeps(Run(steps[..|steps| - 1]), steps[|steps| - 1]);
    }
  }

  // ---------- Safety ----------

  /**
   Safety of the service protocol, over every interleaving of the accesses of both threads. For every
   terminal reply the client has read, once its `request` has returned or thrown: the reply is in the
   future of its own request if and only if neither that request nor the one before it is early, that
   is, had its promise replaced between its write and its `get_future`. A reply behind an early request
   is in the future of that one, and its own `get_future` throws unless it is early in turn. No future
   has any other value, and no two requests have the same future.
   */
  lemma FuturesMatch(steps: seq<Step>)
    ensures var s := Run(steps);
      var c := s.client;
      && s.received <= |Wire(s)|
      && (forall i :: 0 <= i < s.received && Terminal(Wire(s)[i].status) && Done(c, Wire(s)[i].req) ==>
            var id := Wire(s)[i].req;
            && (Holds(c, id, Wire(s)[i]) <==> id !in c.early && !AfterEarly(c, id))
            && (id in c.thrown <==> id !in c.early && AfterEarly(c, id)))
      && (forall i :: 0 <= i < s.received && Terminal(Wire(s)[i].status) && AfterEarly(c, Wire(s)[i].req) ==>
            Holds(c, Wire(s)[i].req - 1, Wire(s)[i]))
      && (forall id :: id in c.futureOf ==> c.futureOf[id] < |c.promises|)
      && (forall id :: id in c.futureOf && c.promises[c.futureOf[id]].Value? ==>
            c.promises[c.futureOf[id]].reply.req == if id in c.early then id + 1 else id)
      && (forall id, id' :: id in c.futureOf && id' in c.futureOf && id != id' ==> c.futureOf[id] != c.futureOf[id'])
  {
    var s := Reached(steps);
    forall i | 0 <= i < s.received && Terminal(Wire(s)[i].status) ensures ReplyOk(s.client, Wire(s)[i]) { }
  }

  lemma Reached(steps: seq<Step>) returns (s: Sys)
    ensures s == Run(steps) && Inv(s)
  {
    RunInv(steps);
    s := Run(steps);
  }

  lemma RunSnoc(steps: seq<Step>, step: Step)
    ensures Run(steps + [step]) == Apply(Run(steps), step)
  {
    assert (steps + [step])[..|steps|] == steps;
  }

  /** The state that further steps lead to. */
  function RunFrom(s: Sys, more: seq<Step>): (t: Sys)
    decreases |more|
  {
    if more == [] then s else RunFrom(Apply(s, more[0]), more[1..])
  }

  lemma RunFromNext(s: Sys, more: seq<Step>) returns (next: Sys)
    requires more != []
    ensures next == Apply(s, more[0]) && RunFrom(s, more) == RunFrom(next, more[1..])
  {
    next := Apply(s, more[0]);
  }

  lemma RunNext(steps: seq<Step>, step: Step, s: Sys, next: Sys)
    requires s == Run(steps) && next == Apply(s, step)
    ensures next == Run(steps + [step])
  {
    RunSnoc(steps, step);
  }

  lemma {:induction false} RunOn(s: Sys, steps: seq<Step>, more: seq<Step>) returns (t: Sys)
    requires s == Run(steps)
    ensures t == Run(steps + more) && t == RunFrom(s, more)
    decreases |more|
  {
    if more == [] {
      assert steps + more == steps;
      t := s;
    } else {
      var next := RunFromNext(s, more);
      RunNext(steps, more[0], s, next);
      Shift(steps, more);
      t := RunOn(next, steps + [more[0]], more[1..]);
    }
  }

  lemma Continued(steps: seq<Step>, more: seq<Step>) returns (s: Sys, t: Sys)
    ensures s == Run(steps) && Inv(s) && t == Run(steps + more) && t == RunFrom(s, more)
  {
    s := Reached(steps);
    t := RunOn(s, steps, more);
  }

  /** Nothing is resolved twice: a promise that was set, broken or abandoned stays what it is in every
      continuation of the run. */
  lemma ResolvedOnce(steps: seq<Step>, more: seq<Step>, p: nat)
    requires p < |Run(steps).client.promises| && Run(steps).client.promises[p] != Unset
    ensures var later := Run(steps + more).client.promises;
      p < |later| && later[p] == Run(steps).client.promises[p]
  {
    var s, t := Continued(steps, more);
    PromiseStaysSet(s, more, p);
  }

  lemma {:induction false} PromiseStaysSet(s: Sys, more: seq<Step>, p: nat)
    requires Inv(s) && p < |s.client.promises| && s.client.promises[p] != Unset
    ensures var later := RunFrom(s, more).client.promises;
      p < |later| && later[p] == s.client.promises[p]
    decreases |more|
  {
    if more != [] {
      PromiseStands(s, more[0], p);
      ApplyKeeps(s, more[0]);
      PromiseStaysSet(Apply(s, more[0]), more[1..], p);
    }
  }

  lemma PromiseStands(s: Sys, step: Step, p: nat)
    requires PromisesOk(s.client) && p < |s.client.promises| && s.client.promises[p] != Unset
    ensures p < |Apply(s, step).client.promises| && Apply(s, step).client.promises[p] == s.client.promises[p]
  {
  }

  /** A cancel can prompt only the request that was outstanding when it was sent. */
  lemma CancelHitsItsRequest(steps: seq<Step>)
    requires var s := Run(steps);
      && s.toServer != [] && s.toServer[0].Cancel?
      && s.stream.status != PROMPTED && Apply(s, ServerRead).stream.status == PROMPTED
    ensures var s := Run(steps);
      s.stream.calls != [] && Last(s.stream).req == s.toServer[0].id
  {
    var s := Reached(steps);
    PromptsItsOwn(s);
  }

  lemma PromptsItsOwn(s: Sys)
    requires Inv(s) && s.toServer != [] && s.toServer[0].Cancel?
    requires s.stream.status != PROMPTED && Apply(s, ServerRead).stream.status == PROMPTED
    ensures s.stream.calls != [] && Last(s.stream).req == s.toServer[0].id
  {
    assert s.stream.status == PROCESS && s.stream.task == Running;
    assert RunningOk(s) && OnlyCancels(s, s.client.issued - 1);
  }
}
