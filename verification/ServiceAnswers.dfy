/** Service requests that are answered: from every state in which the client may make one, a run that
    brings the answer, prompted on the way if the client asks for that. */
module ServiceAnswers {
  import opened Wrappers
  import opened Sequences
  import opened ServiceStream
  import opened ServiceProtocol

  /** The client may make a request, and the one before was not early. */
  predicate Ready(s: Sys)
  {
    && !s.stream.cancelled && !s.client.requested && s.client.user.Idle?
    && (s.client.issued > 0 ==> s.client.issued - 1 !in s.client.early)
  }

  lemma {:induction false} RunFromAppend(s: Sys, a: seq<Step>, b: seq<Step>)
    ensures RunFrom(s, a + b) == RunFrom(RunFrom(s, a), b)
    decreases |a|
  {
    if a == [] {
      assert a + b == b;
    } else {
      var next := RunFromNext(s, a);
      var next' := RunFromNext(s, a + b);
      assert (a + b)[1..] == a[1..] + b;
      RunFromAppend(next, a[1..], b);
    }
  }

  lemma RunFromOne(s: Sys, step: Step)
    ensures RunFrom(s, [step]) == Apply(s, step)
  {
    assert [step][1..] == [];
  }

  lemma RunFromSnoc(s: Sys, steps: seq<Step>, step: Step)
    ensures RunFrom(s, steps + [step]) == Apply(RunFrom(s, steps), step)
  {
    RunFromAppend(s, steps, [step]);
    RunFromOne(RunFrom(s, steps), step);
  }

  // ---------- What was left behind ----------

  /** Cancels that come too late are read and ignored. */
  lemma {:induction false} ReadsStale(s: Sys) returns (more: seq<Step>)
    requires s.stream.status == SUSPEND && forall i :: 0 <= i < |s.toServer| ==> s.toServer[i].Cancel?
    ensures RunFrom(s, more) == s.(toServer := [])
    decreases |s.toServer|
  {
    more := [];
    if s.toServer != [] {
      var t := s.(toServer := s.toServer[1..]);
      assert Apply(s, ServerRead) == t;
      var rest := ReadsStale(t);
      more := [ServerRead] + rest;
      RunFromAppend(s, [ServerRead], rest);
      RunFromOne(s, ServerRead);
    }
  }

  /** The server gets ready for the next request. */
  lemma Prepares(s: Sys) returns (more: seq<Step>, t: Sys)
    requires Inv(s) && Ready(s)
    ensures t == RunFrom(s, more) && t.client == s.client && t.toServer == [] && t.received == s.received
    ensures t.stream.status == SUSPEND && t.stream.task == NoTask && !t.stream.cancelled && StreamInv(t.stream)
    ensures Wire(t) == Wire(s) && s.received == |Wire(s)|
  {
    var step := Server(Settle);
    AfterSettling(s.stream);
    HandleKeeps(s.stream, Settle);
    RunFromOne(s, step);
    var a := s.(stream := Handle(s.stream, Settle));
    var rest := ReadsStale(a);
    more := [step] + rest;
    RunFromAppend(s, [step], rest);
    t := a.(toServer := []);
  }

  lemma AfterSettling(s: Stream)
    requires StreamInv(s) && s.task != Running
    ensures Handle(s, Settle).status == SUSPEND && Handle(s, Settle).task == NoTask
    ensures Handle(s, Settle).calls == s.calls && Handle(s, Settle).cancelled == s.cancelled
  {
  }

  // ---------- The request ----------

  lemma NotRetrieved(c: Client)
    requires ClientOk(c) && LiveOk(c) && !c.requested && c.user.Idle?
    requires c.issued > 0 ==> c.issued - 1 !in c.early
    ensures !Retrieved(c)
  {
    assert Holder(c) == None;
    assert forall h :: h in c.futureOf ==> c.futureOf[h] != |c.promises| - 1;
  }

  /** The calls of `request`, and of `cancel` if the user thinks better of it. */
  function Calls(cancel: bool): (steps: seq<Step>)
  {
    [Request] + [Flag] + [Take] + if cancel then [CancelCall] else []
  }

  function Asked(c: Client): (c': Client)
    requires c.promises != []
  {
    c.(requested := true, issued := c.issued + 1, open := true, futureOf := c.futureOf[c.issued := |c.promises| - 1])
  }

  lemma Asks(s: Sys, cancel: bool) returns (t: Sys)
    requires s.client.promises != [] && !Retrieved(s.client) && Ready(s) && s.client.connected && s.toServer == []
    ensures t == RunFrom(s, Calls(cancel))
    ensures t == s.(client := Asked(s.client),
                    toServer := [Pull(s.client.issued)] + if cancel then [Cancel(s.client.issued)] else [])
  {
    var c := s.client;
    var s1 := s.(client := c.(user := Wrote, issued := c.issued + 1, open := true), toServer := [Pull(c.issued)]);
    assert Apply(s, Request) == s1 by { assert s.toServer + [Pull(c.issued)] == [Pull(c.issued)]; }
    var s2 := s1.(client := s1.client.(user := Flagged, requested := true));
    assert Apply(s1, Flag) == s2;
    var s3 := s2.(client := Asked(c));
    assert Apply(s2, Take) == s3;
    RunFromOne(s, Request);
    RunFromSnoc(s, [Request], Flag);
    RunFromSnoc(s, [Request] + [Flag], Take);
    t := s3;
    if cancel {
      RunFromSnoc(s, [Request] + [Flag] + [Take], CancelCall);
      t := s3.(toServer := s3.toServer + [Cancel(c.issued)]);
      assert Apply(s3, CancelCall) == t;
    } else {
      assert Calls(cancel) == [Request] + [Flag] + [Take];
    }
  }

  // ---------- The server ----------

  /** The stream reads what was asked; the callback decides and returns. */
  function Serving(cancel: bool, t: Status): (steps: seq<Step>)
  {
    Taking(cancel) + [Server(Decide(t))] + [Server(Return)]
  }

  /** The replies of such a call. */
  function Answer(id: nat, cancel: bool, t: Status): (wire: seq<Reply>)
  {
    [Reply(id, PROCESS)] + (if cancel then [Reply(id, PROMPTED)] else []) + [Reply(id, t)]
  }

  /** The stream by itself. */
  function Served(s: Stream, id: nat, cancel: bool, t: Status): (s': Stream)
  {
    var a := Handle(s, ReadPull(id));
    var b := if cancel then Handle(a, ReadCancel) else a;
    Handle(Handle(b, Decide(t)), Return)
  }

  lemma ServedSends(s: Stream, id: nat, cancel: bool, t: Status)
    requires StreamInv(s) && s.task == NoTask && !s.cancelled && Terminal(t)
    ensures Sent(Served(s, id, cancel, t).calls) == Sent(s.calls) + Answer(id, cancel, t)
    ensures !Served(s, id, cancel, t).cancelled && StreamInv(Served(s, id, cancel, t))
  {
    var a := Handle(s, ReadPull(id));
    HandleKeeps(s, ReadPull(id));
    Accepts(s, id);
    if cancel {
      Prompts(a, s.calls, id);
      Decided(Handle(a, ReadCancel), s.calls, id, [ReadCancel], t);
    } else {
      Decided(a, s.calls, id, [], t);
    }
  }

  lemma Prompts(a: Stream, calls: seq<Call>, id: nat)
    requires StreamInv(a) && RunsAs(a, calls, id, [], 0)
    ensures StreamInv(Handle(a, ReadCancel)) && RunsAs(Handle(a, ReadCancel), calls, id, [ReadCancel], 1)
  {
    HandleKeeps(a, ReadCancel);
    RunsOn(a, calls, id, [ReadCancel], 1);
  }

  lemma Decided(b: Stream, calls: seq<Call>, id: nat, events: seq<Event>, t: Status)
    requires StreamInv(b) && Terminal(t) && FirstDecides(events, |events|) && RunsAs(b, calls, id, events, |events|)
    ensures var s := Handle(Handle(b, Decide(t)), Return);
      && !s.cancelled && StreamInv(s)
      && Sent(s.calls) == Sent(calls) + ([Reply(id, PROCESS)]
           + (if ReadCancel in events then [Reply(id, PROMPTED)] else []) + [Reply(id, t)])
  {
    var all := events + [Decide(t)];
    assert all[..|events|] == events == events[..|events|];
    HandleKeeps(b, Decide(t));
    RunsOn(b, calls, id, all, |events|);
    HandleKeeps(Handle(b, Decide(t)), Return);
    CallReturns(Handle(b, Decide(t)), calls, id, all, |events|);
  }

  function Taking(cancel: bool): (steps: seq<Step>)
  {
    [ServerRead] + if cancel then [ServerRead] else []
  }

  lemma TakesIn(s: Sys, id: nat, cancel: bool) returns (u: Sys)
    requires s.toServer == [Pull(id)] + if cancel then [Cancel(id)] else []
    ensures u == RunFrom(s, Taking(cancel))
    ensures var a := Handle(s.stream, ReadPull(id));
      u == s.(stream := if cancel then Handle(a, ReadCancel) else a, toServer := [])
  {
    var a := s.(stream := Handle(s.stream, ReadPull(id)), toServer := if cancel then [Cancel(id)] else []);
    assert Apply(s, ServerRead) == a by { assert s.toServer[1..] == a.toServer; }
    RunFromOne(s, ServerRead);
    u := a.(stream := if cancel then Handle(a.stream, ReadCancel) else a.stream, toServer := []);
    if cancel {
      assert Apply(a, ServerRead) == u;
      RunFromSnoc(s, [ServerRead], ServerRead);
    } else {
      assert [ServerRead] + [] == [ServerRead];
    }
  }

  lemma ServerStep(s: Sys, steps: seq<Step>, e: Event, b: Sys) returns (u: Sys)
    requires b == RunFrom(s, steps) && (e.Decide? || e.Return?)
    ensures u == RunFrom(s, steps + [Server(e)]) && u == b.(stream := Handle(b.stream, e))
  {
    RunFromSnoc(s, steps, Server(e));
    u := b.(stream := Handle(b.stream, e));
  }

  lemma Serves(s: Sys, id: nat, cancel: bool, t: Status) returns (u: Sys)
    requires s.toServer == [Pull(id)] + if cancel then [Cancel(id)] else []
    requires StreamInv(s.stream) && s.stream.task == NoTask && !s.stream.cancelled && Terminal(t)
    ensures u == RunFrom(s, Serving(cancel, t)) && u.client == s.client && u.received == s.received
    ensures Wire(u) == Wire(s) + Answer(id, cancel, t)
    ensures u.toServer == [] && !u.stream.cancelled && StreamInv(u.stream)
  {
    var a := TakesIn(s, id, cancel);
    var b := ServerStep(s, Taking(cancel), Decide(t), a);
    u := ServerStep(s, Taking(cancel) + [Server(Decide(t))], Return, b);
    ServedIs(s.stream, id, cancel, t, a.stream);
    ServedSends(s.stream, id, cancel, t);
  }

  lemma ServedIs(s: Stream, id: nat, cancel: bool, t: Status, b: Stream)
    requires var a := Handle(s, ReadPull(id)); b == if cancel then Handle(a, ReadCancel) else a
    ensures Served(s, id, cancel, t) == Handle(Handle(b, Decide(t)), Return)
  {
  }

  // ---------- The answer ----------

  /** The reading thread reads all replies, and renews the promise behind the last one. */
  function Reading(cancel: bool): (steps: seq<Step>)
  {
    [ClientRead] + (if cancel then [ClientRead] else []) + [ClientRead] + [Renew] + [Clear]
  }

  /** A reply that decides nothing is read. */
  lemma ReadsOn(s: Sys, reply: Reply)
    requires s.client.reader.Reading? && s.client.promises != [] && !Terminal(reply.status)
    requires s.received < |Wire(s)| && Wire(s)[s.received] == reply
    ensures Apply(s, ClientRead) == s.(received := s.received + 1)
  {
  }

  /** And the one that does resolves the current promise, which is replaced. */
  lemma Resolves(s: Sys, reply: Reply) returns (t: Sys)
    requires s.client.reader.Reading? && s.client.user.Idle? && s.client.promises != [] && Terminal(reply.status)
    requires s.received < |Wire(s)| && Wire(s)[s.received] == reply
    ensures t == Apply(Apply(Apply(s, ClientRead), Renew), Clear)
    ensures t == s.(received := s.received + 1, client := Resolved(s.client, reply))
  {
    var c, last := s.client, |s.client.promises| - 1;
    var done := SetCurrent(c, Value(reply)).(open := false, reader := Renewing(false));
    var a := s.(received := s.received + 1, client := done);
    assert Apply(s, ClientRead) == a;
    assert a.client.promises[last := Value(reply)] == a.client.promises;
    var b := a.(client := a.client.(promises := a.client.promises + [Unset], reader := Clearing(false)));
    assert Apply(a, Renew) == b;
    t := Apply(b, Clear);
  }

  function Resolved(c: Client, reply: Reply): (c': Client)
    requires c.promises != []
  {
    c.(promises := c.promises[|c.promises| - 1 := Value(reply)] + [Unset], requested := false, open := false)
  }

  lemma Reads(s: Sys, before: seq<Reply>, id: nat, cancel: bool, t: Status) returns (u: Sys)
    requires s.client.reader.Reading? && s.client.user.Idle? && s.client.promises != [] && Terminal(t)
    requires Wire(s) == before + Answer(id, cancel, t) && s.received == |before|
    ensures u == RunFrom(s, Reading(cancel))
    ensures u == s.(received := |Wire(s)|, client := Resolved(s.client, Reply(id, t)))
  {
    ReadsOn(s, Reply(id, PROCESS));
    RunFromOne(s, ClientRead);
    var a := s.(received := s.received + 1);
    var steps := [ClientRead] + if cancel then [ClientRead] else [];
    if cancel {
      ReadsOn(a, Reply(id, PROMPTED));
      RunFromSnoc(s, [ClientRead], ClientRead);
      a := a.(received := a.received + 1);
    } else {
      assert steps == [ClientRead];
    }
    assert RunFrom(s, steps) == a;
    u := Resolves(a, Reply(id, t));
    RunFromSnoc(s, steps, ClientRead);
    RunFromSnoc(s, steps + [ClientRead], Renew);
    RunFromSnoc(s, steps + [ClientRead] + [Renew], Clear);
  }

  // ---------- All of it ----------

  lemma AnsweredFrom(s: Sys, cancel: bool, t: Status) returns (more: seq<Step>, u: Sys)
    requires Inv(s) && Ready(s) && Terminal(t)
    ensures u == RunFrom(s, more) && Ready(u)
    ensures Wire(u) == Wire(s) + Answer(s.client.issued, cancel, t) && u.received == |Wire(u)|
    ensures s.client.promises != [] && u.client == Resolved(Asked(s.client), Reply(s.client.issued, t))
  {
    NotRetrieved(s.client);
    var first, a := Prepares(s);
    var b := Asks(a, cancel);
    RunFromAppend(s, first, Calls(cancel));
    var d := Serves(b, s.client.issued, cancel, t);
    RunFromAppend(s, first + Calls(cancel), Serving(cancel, t));
    u := Reads(d, Wire(s), s.client.issued, cancel, t);
    RunFromAppend(s, first + Calls(cancel) + Serving(cancel, t), Reading(cancel));
    more := first + Calls(cancel) + Serving(cancel, t) + Reading(cancel);
  }

  /**
   From every reachable state in which the client may make a request, the one before it not being early:
   whatever the callback decides, some run brings exactly that to the request's own future, by PROCESS, by
   PROMPTED if the user cancels before the decision, and by the decision; and then the next request may be made.
   */
  lemma RequestIsAnswered(steps: seq<Step>, cancel: bool, t: Status) returns (more: seq<Step>)
    requires Ready(Run(steps)) && Terminal(t)
    ensures var s, u, id := Run(steps), Run(steps + more), Run(steps).client.issued;
      && u.client.issued == id + 1 && Holds(u.client, id, Reply(id, t)) && Ready(u)
      && Wire(u) == Wire(s) + Answer(id, cancel, t)
  {
    var s := Reached(steps);
    var u;
    more, u := AnsweredFrom(s, cancel, t);
    var u' := RunOn(s, steps, more);
  }

  // ---------- The end ----------

  /** What the reading thread does when the stream closes. */
  function Ending(): (steps: seq<Step>)
  {
    [Close] + [Renew] + [Leave] + [Clear]
  }

  /** After a close the client is down, and its last promise is one nobody sets. */
  lemma GoesDown(s: Sys) returns (t: Sys)
    requires s.client.reader.Reading? && s.client.promises != []
    ensures t == RunFrom(s, Ending()) && t.stream == Handle(s.stream, Break) && t.toServer == []
    ensures var c, d := s.client, t.client;
      && d.reader.Gone? && !d.connected && !d.requested && d.issued == c.issued && d.user == c.user
      && |d.promises| == |c.promises| + 1 && d.promises[|c.promises|] == Unset && d.futureOf == c.futureOf
  {
    var b := Closes(s);
    var d := b.(client := b.client.(connected := false, reader := Clearing(true)));
    assert Apply(b, Leave) == d;
    RunFromSnoc(s, [Close] + [Renew], Leave);
    t := d.(client := ClearFlag(d.client));
    RunFromSnoc(s, [Close] + [Renew] + [Leave], Clear);
  }

  lemma Closes(s: Sys) returns (b: Sys)
    requires s.client.reader.Reading? && s.client.promises != []
    ensures b == RunFrom(s, [Close] + [Renew]) && b.stream == Handle(s.stream, Break) && b.toServer == []
    ensures var c, d := s.client, b.client;
      && d.reader.Leaving? && d.issued == c.issued && d.user == c.user && d.futureOf == c.futureOf
      && |d.promises| == |c.promises| + 1 && d.promises[|c.promises|] == Unset
  {
    var a := s.(client := Closed(s.client), stream := Handle(s.stream, Break), toServer := []);
    assert Apply(s, Close) == a;
    RunFromOne(s, Close);
    b := a.(client := RenewPromise(a.client));
    assert Apply(a, Renew) == b;
    RunFromSnoc(s, [Close], Renew);
  }

  /** From every reachable state in which the client reads, a close takes it down. */
  lemma ClosedDown(steps: seq<Step>)
    requires Run(steps).client.reader.Reading?
    ensures var c := Run(steps + Ending()).client;
      c.reader.Gone? && !c.connected && !c.requested && c.issued == Run(steps).client.issued
  {
    var s := Reached(steps);
    var t := GoesDown(s);
    var t' := RunOn(s, steps, Ending());
  }
}
