/**
 One stream of a service server: the status machine that the read loop, the callback and its return
 drive, and the replies that go out on it.
 */
module ServiceStream {
  import opened Wrappers
  import opened Sequences

  datatype Status = SUSPEND | SUCCESS | PROCESS | ABORTED | FAILED | PROMPTED

  predicate Terminal(s: Status)
  {
    s == SUCCESS || s == FAILED || s == ABORTED
  }

  /** A reply on the wire, with the request it answers. */
  datatype Reply = Reply(req: nat, status: Status)

  /** One accepted request: what was sent for it, the first terminal status set for it, and whether
      its callback has returned. */
  datatype Call = Call(req: nat, replies: seq<Status>, chosen: Option<Status>, returned: bool)

  /** How far the thread of the last accepted request has come. */
  datatype Task = NoTask | Running | Replied

  /** An incarnation of a stream; `cancelled` is what the context reports. */
  datatype Stream = Stream(status: Status, task: Task, cancelled: bool, calls: seq<Call>)

  const FRESH := Stream(SUSPEND, NoTask, false, [])

  // ---------- The setters ----------

  function Last(s: Stream): (c: Call)
    requires s.calls != []
  {
    s.calls[|s.calls| - 1]
  }

  function WithLast(s: Stream, c: Call): (s': Stream)
    requires s.calls != []
  {
    s.(calls := s.calls[|s.calls| - 1 := c])
  }

  /** `write_reply`: nothing goes out on a cancelled stream. */
  function Write(s: Stream, status: Status): (s': Stream)
  {
    if s.cancelled || s.calls == [] then s else WithLast(s, Last(s).(replies := Last(s).replies + [status]))
  }

  function SetPrompted(s: Stream): (s': Stream)
  {
    if s.status != PROCESS then s else Write(s.(status := PROMPTED), PROMPTED)
  }

  /** `setSuccess`, `setFailed`, `setAborted`. */
  function SetTerminal(s: Stream, t: Status): (s': Stream)
  {
    if s.status != PROCESS && s.status != PROMPTED then s
    else
      var s' := s.(status := t);
      if s.calls == [] || Last(s).chosen.Some? then s' else WithLast(s', Last(s).(chosen := Some(t)))
  }

  function SetSuspend(s: Stream): (s': Stream)
  {
    if s.status == PROCESS || s.status == PROMPTED then s else s.(status := SUSPEND)
  }

  /** `endStatus`: a callback that returned without deciding has aborted. */
  function EndStatus(s: Stream): (s': Stream)
  {
    if s.status == SUSPEND || s.status == PROCESS || s.status == PROMPTED then s.(status := ABORTED) else s
  }

  // ---------- The events ----------

  datatype Event =
    | ReadPull(req: nat)
    | ReadCancel
    | Decide(t: Status)      // the callback, or anyone, sets a terminal status
    | Return                 // the callback returns: end status and final reply
    | Settle                 // back to SUSPEND, the callback's thread is over
    | Break                  // the pipe breaks

  function Handle(s: Stream, e: Event): (s': Stream)
  {
    match e
    case ReadPull(req) =>
      if s.status == SUSPEND && s.task == NoTask then
        Write(s.(status := PROCESS, task := Running, calls := s.calls + [Call(req, [], None, false)]), PROCESS)
      else s
    case ReadCancel => if s.status == PROCESS then SetPrompted(s) else s
    case Decide(t) => if Terminal(t) then SetTerminal(s, t) else s
    case Return =>
      if s.task == Running && s.calls != [] then
        var s' := EndStatus(s);
        var s'' := Write(s', s'.status);
        WithLast(s'', Last(s'').(returned := true)).(task := Replied)
      else s
    case Settle => if s.task == Replied then SetSuspend(s).(task := NoTask) else s
    case Break => s.(cancelled := true)
  }

  function After(events: seq<Event>): (s: Stream)
  {
    if events == [] then FRESH else Handle(After(events[..|events| - 1]), events[|events| - 1])
  }

  // ---------- Reply shape ----------

  /** PROCESS, perhaps PROMPTED, then perhaps one terminal status; or the beginning of that. */
  predicate Shaped(replies: seq<Status>)
  {
    || replies == []
    || replies == [PROCESS]
    || replies == [PROCESS, PROMPTED]
    || (|replies| == 2 && replies[0] == PROCESS && Terminal(replies[1]))
    || (|replies| == 3 && replies[..2] == [PROCESS, PROMPTED] && Terminal(replies[2]))
  }

  predicate EndsTerminal(replies: seq<Status>)
  {
    replies != [] && Terminal(replies[|replies| - 1])
  }

  /** The decision of a call: the first terminal status set, or else an abort. */
  function Decision(c: Call): (t: Status)
  {
    match c.chosen case Some(t) => t case None => ABORTED
  }

  /** What holds of a call however it went. */
  ghost predicate CallOk(c: Call, cancelled: bool)
  {
    && Shaped(c.replies)
    && (c.chosen.Some? ==> Terminal(c.chosen.value))
    && (EndsTerminal(c.replies) ==> c.returned && c.replies[|c.replies| - 1] == Decision(c))
    && (c.returned && !cancelled ==> EndsTerminal(c.replies))
    && (!c.returned && !cancelled ==> c.replies != [])
  }

  /** The status agrees with how far the last call has come. */
  ghost predicate StreamInv(s: Stream)
  {
    && (forall i :: 0 <= i < |s.calls| ==> CallOk(s.calls[i], s.cancelled))
    && (forall i :: 0 <= i < |s.calls| - 1 ==> s.calls[i].returned)
    && (s.task == NoTask ==> s.status == SUSPEND && (s.calls != [] ==> Last(s).returned))
    && (s.task == Replied ==> Terminal(s.status) && s.calls != [] && Last(s).returned)
    && (s.task == Running ==>
          && s.calls != [] && !Last(s).returned
          && (Last(s).chosen == None ==> s.status == PROCESS || s.status == PROMPTED)
          && (Last(s).chosen.Some? ==> s.status == Last(s).chosen.value)
          && (s.status == PROCESS && !s.cancelled ==> Last(s).replies == [PROCESS])
          && (s.status == PROCESS ==> Last(s).replies == [] || Last(s).replies == [PROCESS])
          && !EndsTerminal(Last(s).replies))
  }

  lemma WithLastKeeps(s: Stream, c: Call)
    requires s.calls != [] && CallOk(c, s.cancelled)
    requires forall i :: 0 <= i < |s.calls| - 1 ==> CallOk(s.calls[i], s.cancelled) && s.calls[i].returned
    ensures var s' := WithLast(s, c);
      && Last(s') == c
      && (forall i :: 0 <= i < |s'.calls| ==> CallOk(s'.calls[i], s'.cancelled))
      && (forall i :: 0 <= i < |s'.calls| - 1 ==> s'.calls[i].returned)
  {
  }

  /** An accepted request, spelled out. */
  lemma PullIs(s: Stream, req: nat)
    requires s.status == SUSPEND && s.task == NoTask
    ensures Handle(s, ReadPull(req)) ==
      s.(status := PROCESS, task := Running,
         calls := s.calls + [Call(req, if s.cancelled then [] else [PROCESS], None, false)])
  {
    var calls := s.calls + [Call(req, [], None, false)];
    assert [] + [PROCESS] == [PROCESS];
    assert calls[|calls| - 1 := Call(req, [PROCESS], None, false)] == s.calls + [Call(req, [PROCESS], None, false)];
  }

  lemma PullKeeps(s: Stream, req: nat)
    requires StreamInv(s)
    ensures StreamInv(Handle(s, ReadPull(req)))
  {
    if s.status == SUSPEND && s.task == NoTask {
      PullIs(s, req);
      Pulled(s, Call(req, if s.cancelled then [] else [PROCESS], None, false));
    }
  }

  lemma Pulled(s: Stream, c: Call)
    requires StreamInv(s) && s.task == NoTask && CallOk(c, s.cancelled) && !c.returned && c.chosen == None
    requires c.replies == if s.cancelled then [] else [PROCESS]
    ensures StreamInv(s.(status := PROCESS, task := Running, calls := s.calls + [c]))
  {
    var s' := s.(status := PROCESS, task := Running, calls := s.calls + [c]);
    assert Last(s') == c;
    forall i | 0 <= i < |s'.calls| - 1 ensures CallOk(s'.calls[i], s'.cancelled) && s'.calls[i].returned
    {
      assert s'.calls[i] == s.calls[i];
      assert i == |s.calls| - 1 ==> s.calls[i] == Last(s);
    }
  }

  lemma CancelKeeps(s: Stream)
    requires StreamInv(s)
    ensures StreamInv(Handle(s, ReadCancel))
  {
    if s.status == PROCESS {
      var c := Last(s).(replies := if s.cancelled then Last(s).replies else Last(s).replies + [PROMPTED]);
      WithLastKeeps(s.(status := PROMPTED), c);
      assert s.calls[|s.calls| - 1 := Last(s)] == s.calls;
      assert Handle(s, ReadCancel) == WithLast(s.(status := PROMPTED), c);
    }
  }

  lemma DecideKeeps(s: Stream, t: Status)
    requires StreamInv(s)
    ensures StreamInv(Handle(s, Decide(t)))
  {
    if Terminal(t) && (s.status == PROCESS || s.status == PROMPTED) {
      WithLastKeeps(s.(status := t), Last(s).(chosen := Some(t)));
    }
  }

  lemma ReturnKeeps(s: Stream)
    requires StreamInv(s)
    ensures StreamInv(Handle(s, Return))
  {
    if s.task == Running {
      ReturnIs(s);
      Returned(s, EndStatus(s));
    }
  }

  /** What is sent for a call when its callback returns with a status. */
  function Final(s: Stream, t: Status): Call
    requires s.calls != []
  {
    Last(s).(replies := if s.cancelled then Last(s).replies else Last(s).replies + [t], returned := true)
  }

  lemma ReturnIs(s: Stream)
    requires s.task == Running && s.calls != []
    ensures var e := EndStatus(s);
      Handle(s, Return) == WithLast(e.(task := Replied), Final(s, e.status))
  {
    var e := EndStatus(s);
    assert s.calls[|s.calls| - 1 := Last(s)] == s.calls;
  }

  lemma Returned(s: Stream, e: Stream)
    requires StreamInv(s) && s.task == Running && e == EndStatus(s)
    ensures StreamInv(WithLast(e.(task := Replied), Final(s, e.status)))
  {
    FinalOk(s, e.status);
    WithLastKeeps(e.(task := Replied), Final(s, e.status));
  }

  lemma FinalOk(s: Stream, t: Status)
    requires StreamInv(s) && s.task == Running && t == EndStatus(s).status
    ensures Terminal(t) && CallOk(Final(s, t), s.cancelled)
  {
    var c := Last(s);
    assert CallOk(c, s.cancelled) && t == Decision(c);
    if !s.cancelled { ShapedOn(c.replies, t); }
  }

  lemma ShapedOn(replies: seq<Status>, t: Status)
    requires Shaped(replies) && !EndsTerminal(replies) && Terminal(t) && replies != []
    ensures Shaped(replies + [t]) && EndsTerminal(replies + [t])
  {
  }

  lemma BreakKeeps(s: Stream)
    requires StreamInv(s)
    ensures StreamInv(Handle(s, Break))
  {
    var s' := Handle(s, Break);
    assert forall i :: 0 <= i < |s'.calls| ==> s'.calls[i] == s.calls[i];
  }

  lemma HandleKeeps(s: Stream, e: Event)
    requires StreamInv(s)
    ensures StreamInv(Handle(s, e))
  {
    match e
    case ReadPull(req) => PullKeeps(s, req);
    case ReadCancel => CancelKeeps(s);
    case Decide(t) => DecideKeeps(s, t);
    case Return => ReturnKeeps(s);
    case Settle =>
    case Break => BreakKeeps(s);
  }

  lemma OnlyBreakCancels(s: Stream, e: Event)
    ensures Handle(s, e).cancelled == (s.cancelled || e.Break?)
  {
  }

  lemma {:induction false} AfterInv(events: seq<Event>)
    ensures StreamInv(After(events))
    decreases |events|
  {
    if events != [] {
      AfterInv(events[..|events| - 1]);
      HandleKeeps(After(events[..|events| - 1]), events[|events| - 1]);
    }
  }

  // ---------- The wire ----------

  /** What was sent, in order, each reply with its request. */
  function Sent(calls: seq<Call>): (wire: seq<Reply>)
  {
    if calls == [] then []
    else Sent(calls[..|calls| - 1]) + Tagged(calls[|calls| - 1].req, calls[|calls| - 1].replies)
  }

  function Tagged(req: nat, replies: seq<Status>): (wire: seq<Reply>)
    ensures |wire| == |replies|
    ensures forall i :: 0 <= i < |wire| ==> wire[i] == Reply(req, replies[i])
  {
    seq(|replies|, i requires 0 <= i < |replies| => Reply(req, replies[i]))
  }

  /** The reply an event puts on the wire. */
  function Emits(s: Stream, e: Event): (wire: seq<Reply>)
  {
    if s.cancelled then []
    else match e
         case ReadPull(req) => if s.status == SUSPEND && s.task == NoTask then [Reply(req, PROCESS)] else []
         case ReadCancel => if s.status == PROCESS && s.calls != [] then [Reply(Last(s).req, PROMPTED)] else []
         case Return =>
           if s.task == Running && s.calls != [] then [Reply(Last(s).req, EndStatus(s).status)] else []
         case _ => []
  }

  lemma HandleSends(s: Stream, e: Event)
    requires StreamInv(s)
    ensures Sent(Handle(s, e).calls) == Sent(s.calls) + Emits(s, e)
  {
    if e.ReadPull? {
      PullSends(s, e.req);
    } else {
      ReturnSends(s, e);
    }
  }

  lemma PullCalls(s: Stream, req: nat)
    requires s.status == SUSPEND && s.task == NoTask
    ensures var c := Call(req, if s.cancelled then [] else [PROCESS], None, false);
      Handle(s, ReadPull(req)).calls == s.calls + [c] && Tagged(c.req, c.replies) == Emits(s, ReadPull(req))
  {
    PullIs(s, req);
  }

  lemma PullSends(s: Stream, req: nat)
    ensures Sent(Handle(s, ReadPull(req)).calls) == Sent(s.calls) + Emits(s, ReadPull(req))
  {
    if s.status == SUSPEND && s.task == NoTask {
      PullCalls(s, req);
      SentSnoc(s.calls, Call(req, if s.cancelled then [] else [PROCESS], None, false));
    } else {
      assert Sent(s.calls) + [] == Sent(s.calls);
    }
  }

  /** Apart from an accepted request, an event touches the last call only. */
  lemma TouchesLast(s: Stream, e: Event)
    requires s.calls != [] && !e.ReadPull?
    ensures var s' := Handle(s, e);
      && |s'.calls| == |s.calls| && s'.calls[..|s.calls| - 1] == s.calls[..|s.calls| - 1]
      && Last(s').req == Last(s).req
      && Last(s').replies == Last(s).replies + Statuses(Emits(s, e))
  {
    assert Last(s).replies + [] == Last(s).replies;
  }

  function Statuses(wire: seq<Reply>): (ss: seq<Status>)
  {
    if wire == [] then [] else [wire[0].status]
  }

  lemma ReturnSends(s: Stream, e: Event)
    requires StreamInv(s) && !e.ReadPull?
    ensures Sent(Handle(s, e).calls) == Sent(s.calls) + Emits(s, e)
  {
    if s.calls != [] {
      TouchesLast(s, e);
      SentLast(s, Handle(s, e), Statuses(Emits(s, e)));
      assert Tagged(Last(s).req, Statuses(Emits(s, e))) == Emits(s, e);
    } else {
      assert Handle(s, e).calls == [] && Emits(s, e) == [];
    }
  }

  /** Between accepted requests, replies are for the one being processed, and a terminal one ends that. */
  lemma EmitsForRunning(s: Stream, e: Event)
    requires StreamInv(s) && !e.ReadPull? && !e.Break?
    ensures var s' := Handle(s, e);
      && (s'.task == Running ==> s.task == Running && s.calls != [] && s'.calls != [] && Last(s').req == Last(s).req)
      && (Emits(s, e) != [] ==>
            && |Emits(s, e)| == 1 && s.task == Running && s.calls != [] && Emits(s, e)[0].req == Last(s).req
            && (Terminal(Emits(s, e)[0].status) ==> s'.task != Running))
  {
    if s.calls != [] { TouchesLast(s, e); }
  }

  lemma SentSnoc(calls: seq<Call>, c: Call)
    ensures Sent(calls + [c]) == Sent(calls) + Tagged(c.req, c.replies)
  {
    assert (calls + [c])[..|calls|] == calls;
  }

  lemma SentLast(s: Stream, s': Stream, more: seq<Status>)
    requires s.calls != [] && |s'.calls| == |s.calls| && s'.calls[..|s.calls| - 1] == s.calls[..|s.calls| - 1]
    requires Last(s').req == Last(s).req && Last(s').replies == Last(s).replies + more
    ensures Sent(s'.calls) == Sent(s.calls) + Tagged(Last(s).req, more)
  {
    var c := Last(s);
    assert Tagged(c.req, c.replies + more) == Tagged(c.req, c.replies) + Tagged(c.req, more);
    Assoc(Sent(s.calls[..|s.calls| - 1]), Tagged(c.req, c.replies), Tagged(c.req, more));
  }

  /**
   Server reply shape. On every stream and every run, each accepted request is answered by PROCESS,
   at most one PROMPTED and at most one terminal status, in that order; exactly one if its callback
   returned and the stream was not cancelled; and the terminal status sent is the first one set, or
   ABORTED if none was.
   */
  lemma ReplyShape(events: seq<Event>, i: nat)
    requires i < |After(events).calls|
    ensures var s, c := After(events), After(events).calls[i];
      && Shaped(c.replies)
      && (EndsTerminal(c.replies) ==> c.replies[|c.replies| - 1] == Decision(c))
      && (c.returned && !s.cancelled ==> EndsTerminal(c.replies))
      && (!s.cancelled ==> c.replies != [] && c.replies[0] == PROCESS)
  {
    var s := StreamAfter(events);
    ShapeOf(s, i);
  }

  lemma StreamAfter(events: seq<Event>) returns (s: Stream)
    ensures s == After(events) && StreamInv(s)
  {
    AfterInv(events);
    s := After(events);
  }

  lemma ShapeOf(s: Stream, i: nat)
    requires StreamInv(s) && i < |s.calls|
    ensures var c := s.calls[i];
      && Shaped(c.replies)
      && (EndsTerminal(c.replies) ==> c.replies[|c.replies| - 1] == Decision(c))
      && (c.returned && !s.cancelled ==> EndsTerminal(c.replies))
      && (!s.cancelled ==> c.replies != [] && c.replies[0] == PROCESS)
  {
    assert CallOk(s.calls[i], s.cancelled);
  }

  /** The first terminal status set for a request is never changed. */
  lemma FirstDecisionStands(s: Stream, e: Event, i: nat)
    requires StreamInv(s) && i < |s.calls| && s.calls[i].chosen.Some?
    ensures i < |Handle(s, e).calls| && Handle(s, e).calls[i].chosen == s.calls[i].chosen
    ensures Handle(s, e).calls[i].req == s.calls[i].req
  {
    if e.ReadPull? {
      if s.status == SUSPEND && s.task == NoTask { PullCalls(s, e.req); }
    } else {
      TouchesLast(s, e);
      if i < |s.calls| - 1 {
        assert Handle(s, e).calls[..|s.calls| - 1][i] == s.calls[..|s.calls| - 1][i];
      } else {
        LastStands(s, e);
      }
    }
  }

  lemma LastStands(s: Stream, e: Event)
    requires StreamInv(s) && s.calls != [] && Last(s).chosen.Some? && !e.ReadPull?
    ensures Handle(s, e).calls != [] && Last(Handle(s, e)).chosen == Last(s).chosen
  {
  }

  // ---------- The wire, told by the events ----------

  predicate Decides(e: Event)
  {
    e.Decide? && Terminal(e.t)
  }

  /** Event k is the first that sets a terminal status, or there is none. */
  predicate FirstDecides(events: seq<Event>, k: nat)
  {
    && k <= |events| && (k < |events| ==> Decides(events[k]))
    && forall j :: 0 <= j < k ==> !Decides(events[j])
  }

  /** What an event does to a call that is running. */
  lemma RunningStep(s: Stream, e: Event)
    requires StreamInv(s) && s.task == Running && !s.cancelled && e != Return && e != Break
    ensures var s' := Handle(s, e);
      && s'.task == Running && !s'.cancelled && s'.calls != []
      && s'.calls[..|s'.calls| - 1] == s.calls[..|s.calls| - 1] && Last(s').req == Last(s).req
      && Last(s').replies == Last(s).replies + (if e == ReadCancel && s.status == PROCESS then [PROMPTED] else [])
      && s'.status == if Decides(e) && (s.status == PROCESS || s.status == PROMPTED) then e.t
                      else if e == ReadCancel && s.status == PROCESS then PROMPTED else s.status
  {
    if !e.ReadPull? { TouchesLast(s, e); }
  }

  /** The stream while a call runs: cut off by the first decision, prompted by a cancel before it. */
  ghost predicate RunsAs(s: Stream, calls: seq<Call>, req: nat, events: seq<Event>, k: nat)
    requires FirstDecides(events, k)
  {
    && s.task == Running && !s.cancelled && s.calls != [] && s.calls[..|s.calls| - 1] == calls && Last(s).req == req
    && Last(s).replies == [PROCESS] + (if ReadCancel in events[..k] then [PROMPTED] else [])
    && s.status == if k < |events| then events[k].t else if ReadCancel in events[..k] then PROMPTED else PROCESS
  }

  lemma RunsOn(s: Stream, calls: seq<Call>, req: nat, events: seq<Event>, k: nat)
    requires events != [] && FirstDecides(events, k) && StreamInv(s)
    requires var n := |events| - 1;
      FirstDecides(events[..n], if k <= n then k else n) && RunsAs(s, calls, req, events[..n], if k <= n then k else n)
    requires events[|events| - 1] != Return && events[|events| - 1] != Break
    ensures RunsAs(Handle(s, events[|events| - 1]), calls, req, events, k)
  {
    var n, e := |events| - 1, events[|events| - 1];
    RunningStep(s, e);
    if k <= n {
      assert events[..n][..k] == events[..k];
      assert k < n ==> events[..n][k] == events[k];
    } else {
      assert events[..n][..n] == events[..n] && events[..k] == events[..n] + [e];
    }
  }

  lemma {:induction false} WhileRunning(before: seq<Event>, req: nat, events: seq<Event>, k: nat)
    requires After(before).task == NoTask && !After(before).cancelled
    requires FirstDecides(events, k) && Return !in events && Break !in events
    ensures RunsAs(After(before + [ReadPull(req)] + events), After(before).calls, req, events, k)
    decreases |events|
  {
    var pulled := before + [ReadPull(req)];
    if events == [] {
      assert pulled + events == pulled;
      AcceptedIs(before, req);
    } else {
      var n := |events| - 1;
      var front, j := events[..n], if k <= n then k else n;
      assert forall i :: 0 <= i < n ==> front[i] == events[i];
      WhileRunning(before, req, front, j);
      AfterSnoc(pulled, events);
      AfterInv(pulled + front);
      RunsOn(After(pulled + front), After(before).calls, req, events, k);
    }
  }

  lemma AfterSnoc(before: seq<Event>, events: seq<Event>)
    requires events != []
    ensures After(before + events) == Handle(After(before + events[..|events| - 1]), events[|events| - 1])
  {
    var all := before + events;
    assert all[..|all| - 1] == before + events[..|events| - 1];
    AfterLast(all);
  }

  lemma AfterLast(events: seq<Event>)
    requires events != []
    ensures After(events) == Handle(After(events[..|events| - 1]), events[|events| - 1])
  {
  }

  lemma AfterOne(before: seq<Event>, e: Event) returns (s: Stream)
    ensures s == After(before) && StreamInv(s) && After(before + [e]) == Handle(s, e)
  {
    AfterInv(before);
    s := After(before);
    assert (before + [e])[..|before|] == before;
    AfterLast(before + [e]);
  }

  lemma AcceptedIs(before: seq<Event>, req: nat)
    requires After(before).task == NoTask && !After(before).cancelled
    ensures RunsAs(After(before + [ReadPull(req)]), After(before).calls, req, [], 0)
  {
    var s := AfterOne(before, ReadPull(req));
    Accepts(s, req);
  }

  lemma Accepts(s: Stream, req: nat)
    requires StreamInv(s) && s.task == NoTask && !s.cancelled
    ensures RunsAs(Handle(s, ReadPull(req)), s.calls, req, [], 0)
  {
    PullIs(s, req);
  }

  /**
   The wire of a call, told by its events alone. Between an accepted request and the return of its callback,
   let k be the first event that sets a terminal status: the replies sent are PROCESS; PROMPTED if a cancel was
   read before that event; and at the return the status set by it, or ABORTED if there is none.
   */
  lemma WireOfCall(before: seq<Event>, req: nat, events: seq<Event>, k: nat)
    requires After(before).task == NoTask && !After(before).cancelled
    requires FirstDecides(events, k) && Return !in events && Break !in events
    ensures var prompt := if ReadCancel in events[..k] then [Reply(req, PROMPTED)] else [];
      var s := After(before + [ReadPull(req)] + events + [Return]);
      && Sent(s.calls) == Sent(After(before).calls) + ([Reply(req, PROCESS)] + prompt
           + [Reply(req, if k < |events| then events[k].t else ABORTED)])
      && s.task == Replied && Terminal(s.status) && !s.cancelled
  {
    var all := before + [ReadPull(req)] + events;
    WhileRunning(before, req, events, k);
    var s := AfterOne(all, Return);
    CallReturns(s, After(before).calls, req, events, k);
  }

  lemma CallReturns(s: Stream, calls: seq<Call>, req: nat, events: seq<Event>, k: nat)
    requires StreamInv(s) && FirstDecides(events, k) && RunsAs(s, calls, req, events, k)
    ensures var prompt := if ReadCancel in events[..k] then [Reply(req, PROMPTED)] else [];
      var s' := Handle(s, Return);
      && Sent(s'.calls) == Sent(calls) + ([Reply(req, PROCESS)] + prompt
           + [Reply(req, if k < |events| then events[k].t else ABORTED)])
      && s'.task == Replied && Terminal(s'.status) && !s'.cancelled
  {
    HandleSends(s, Return);
    var last := LastWord(s, calls, req, events, k);
    SentSoFar(s, calls, req, events, k);
    Assoc(Sent(calls), [Reply(req, PROCESS)] + if ReadCancel in events[..k] then [Reply(req, PROMPTED)] else [],
          [Reply(req, last)]);
  }

  lemma LastWord(s: Stream, calls: seq<Call>, req: nat, events: seq<Event>, k: nat) returns (last: Status)
    requires StreamInv(s) && FirstDecides(events, k) && RunsAs(s, calls, req, events, k)
    ensures last == (if k < |events| then events[k].t else ABORTED) && Emits(s, Return) == [Reply(req, last)]
    ensures var s' := Handle(s, Return); s'.task == Replied && Terminal(s'.status) && !s'.cancelled
  {
    ReturnIs(s);
    last := EndStatus(s).status;
  }

  lemma SentSoFar(s: Stream, calls: seq<Call>, req: nat, events: seq<Event>, k: nat)
    requires FirstDecides(events, k) && RunsAs(s, calls, req, events, k)
    ensures Sent(s.calls) == Sent(calls) +
      ([Reply(req, PROCESS)] + if ReadCancel in events[..k] then [Reply(req, PROMPTED)] else [])
  {
    assert Tagged(req, Last(s).replies)
        == [Reply(req, PROCESS)] + if ReadCancel in events[..k] then [Reply(req, PROMPTED)] else [];
  }

  /** Behind its final reply a stream sends nothing until it is back in SUSPEND, and that is what settling does. */
  lemma AfterTheReply(s: Stream, e: Event)
    requires StreamInv(s) && s.task == Replied
    ensures Handle(s, e).calls == s.calls && Handle(s, e).cancelled == (s.cancelled || e == Break)
    ensures if e == Settle then Handle(s, e).task == NoTask && Handle(s, e).status == SUSPEND
            else Handle(s, e).task == Replied && Handle(s, e).status == s.status
  {
  }

  /** And in SUSPEND nothing but a request does anything. */
  lemma InSuspend(s: Stream, e: Event)
    requires StreamInv(s) && s.task == NoTask && !e.ReadPull?
    ensures Handle(s, e) == s.(cancelled := s.cancelled || e == Break)
  {
  }

  /** A cancelled stream sends nothing. */
  lemma CancelledSendsNothing(s: Stream, e: Event)
    requires StreamInv(s) && s.cancelled
    ensures Sent(Handle(s, e).calls) == Sent(s.calls)
  {
    HandleSends(s, e);
    assert Sent(s.calls) + [] == Sent(s.calls);
  }
}
