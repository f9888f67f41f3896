/** Service requests that are lost: exactly when, for how long, and runs that show it. */
module ServiceLosses {
  import opened Wrappers
  import opened ServiceStream
  import opened ServiceProtocol

  // ---------- Requests that are lost ----------

  /** Nothing is under way that could answer anybody. */
  ghost predicate Silent(s: Sys)
  {
    && !s.stream.cancelled && s.client.reader.Reading? && s.stream.task != Running && s.received == |Wire(s)|
    && forall i :: 0 <= i < |s.toServer| ==> s.toServer[i].Cancel?
  }

  lemma SilentServer(s: Sys, e: Event)
    requires StreamInv(s.stream) && Silent(s) && !e.ReadPull? && !e.Break?
    ensures var t := Handle(s.stream, e);
      !t.cancelled && t.task != Running && Sent(t.calls) == Wire(s)
  {
    HandleSends(s.stream, e);
    EmitsForRunning(s.stream, e);
    OnlyBreakCancels(s.stream, e);
    assert Wire(s) + [] == Wire(s);
  }

  /** It stays that way until a request is made or the stream closes. */
  lemma SilentStays(s: Sys, step: Step)
    requires Inv(s) && Silent(s) && step != Close && (s.client.requested || !s.client.user.Idle?)
    ensures Silent(Apply(s, step)) && Apply(s, step).client.promises == s.client.promises
    ensures var c, c' := s.client, Apply(s, step).client;
      && c'.issued == c.issued && c'.open == c.open && c'.early == c.early
      && (c'.requested || !c'.user.Idle? || c.user.Flagged?) && (c.requested ==> c'.requested)
      && (c.user.Idle? ==> c' == c)
  {
    match step
    case ServerRead => if s.toServer != [] { SilentRead(s); }
    case Server(e) => if e.Decide? || e.Return? || e.Settle? { SilentServer(s, e); }
    case _ =>
  }

  lemma SilentRead(s: Sys)
    requires Inv(s) && Silent(s) && s.toServer != []
    ensures Silent(Apply(s, ServerRead)) && Apply(s, ServerRead).client == s.client
  {
    SilentServer(s, ReadCancel);
    var rest := s.toServer[1..];
    assert forall i :: 0 <= i < |rest| ==> rest[i] == s.toServer[i + 1];
  }

  /** The last request was read and not accepted, and nothing on the way will answer it. */
  ghost predicate Stuck(s: Sys)
  {
    Silent(s) && s.client.open
  }

  /** Exactly when the server ignores a request: it reads it before it is back in SUSPEND. */
  lemma IgnoredIff(steps: seq<Step>)
    requires Run(steps).toServer != [] && Run(steps).toServer[0].Pull?
    ensures Stuck(Apply(Run(steps), ServerRead)) <==> Run(steps).stream.status != SUSPEND
  {
    var s := Reached(steps);
    IgnoredState(s);
  }

  lemma IgnoredState(s: Sys)
    requires Inv(s) && s.toServer != [] && s.toServer[0].Pull?
    ensures Stuck(Apply(s, ServerRead)) <==> s.stream.status != SUSPEND
  {
    var rest := s.toServer[1..];
    assert forall i :: 0 <= i < |rest| ==> rest[i] == s.toServer[i + 1];
    if s.stream.status == SUSPEND && s.stream.task == NoTask {
      PullIs(s.stream, s.toServer[0].id);
    }
  }

  /** And that is for good: until the stream closes, the request is never answered, no promise is set
      and no other request can be made. */
  lemma IgnoredForever(steps: seq<Step>, more: seq<Step>)
    requires Stuck(Run(steps)) && Close !in more
    ensures Stuck(Run(steps + more)) && Run(steps + more).client.issued == Run(steps).client.issued
    ensures Run(steps + more).client.promises == Run(steps).client.promises
  {
    var s, t := Continued(steps, more);
    StuckStays(s, more);
  }

  lemma {:induction false} StuckStays(s: Sys, more: seq<Step>)
    requires Inv(s) && Stuck(s) && Close !in more
    ensures var t := RunFrom(s, more);
      Stuck(t) && t.client.issued == s.client.issued && t.client.promises == s.client.promises
    decreases |more|
  {
    if more != [] {
      SilentStays(s, more[0]);
      ApplyKeeps(s, more[0]);
      StuckStays(Apply(s, more[0]), more[1..]);
    }
  }

  /** The client has set the flag behind the answer's back: it takes itself to be waiting, and no
      request is outstanding. */
  ghost predicate Locked(s: Sys)
  {
    Silent(s) && s.client.requested && s.client.user.Idle? && !s.client.open
  }

  /** Exactly when that happens, whatever else happens before the future is taken: the flag is set after
      the answer was read and done with. */
  lemma LockedIff(steps: seq<Step>, mid: seq<Step>)
    requires Run(steps).client.user.Wrote? && !Run(steps).stream.cancelled && Close !in mid && Take !in mid
    ensures var s := Run(steps);
      Locked(Run(steps + ([Flag] + mid + [Take]))) <==> !s.client.open && s.client.reader.Reading?
  {
    var more := [Flag] + mid + [Take];
    var s, t := Continued(steps, more);
    LockedState(s, mid);
  }

  lemma LockedState(s: Sys, mid: seq<Step>)
    requires Inv(s) && s.client.user.Wrote? && !s.stream.cancelled && Close !in mid && Take !in mid
    ensures Locked(RunFrom(s, [Flag] + mid + [Take])) <==> !s.client.open && s.client.reader.Reading?
  {
    var more := [Flag] + mid + [Take];
    assert more[0] == Flag && more[1..] == mid + [Take];
    var flagged := Apply(s, Flag);
    ApplyKeeps(s, Flag);
    RunFromSnoc(flagged, mid, Take);
    FlaggedRun(flagged, mid);
    if !s.client.open && s.client.reader.Reading? {
      NotOpenIsSilent(flagged);
    }
    TakeLocks(RunFrom(flagged, mid));
  }

  lemma {:induction false} RunFromSnoc(s: Sys, more: seq<Step>, last: Step)
    ensures RunFrom(s, more + [last]) == Apply(RunFrom(s, more), last)
    decreases |more|
  {
    var all := more + [last];
    if more == [] {
      assert all == [last] && all[1..] == [];
    } else {
      RunFromSnoc(Apply(s, more[0]), more[1..], last);
      assert all[0] == more[0] && all[1..] == more[1..] + [last];
    }
  }

  /** The answer, if it is still to come, will clear the flag. */
  predicate WillClear(s: Sys)
  {
    s.client.requested ==> s.client.open || !s.client.reader.Reading?
  }

  /** It was done with before the flag was set. */
  ghost predicate Missed(s: Sys)
  {
    Silent(s) && s.client.requested && !s.client.open
  }

  lemma FlaggedStep(s: Sys, step: Step)
    requires Inv(s) && s.client.user.Flagged? && !s.stream.cancelled && step != Close && step != Take
    ensures var t := Apply(s, step);
      t.client.user.Flagged? && (WillClear(s) ==> WillClear(t)) && (Missed(s) ==> Missed(t))
  {
    if Missed(s) {
      SilentStays(s, step);
    }
  }

  lemma StaysAlive(s: Sys, step: Step)
    requires step != Close && !s.stream.cancelled
    ensures !Apply(s, step).stream.cancelled
  {
    if step.Server? {
      OnlyBreakCancels(s.stream, step.e);
    } else if step.ServerRead? && s.toServer != [] {
      OnlyBreakCancels(s.stream, match s.toServer[0] case Pull(id) => ReadPull(id) case Cancel(_) => ReadCancel);
    }
  }

  lemma {:induction false} FlaggedRun(s: Sys, mid: seq<Step>)
    requires Inv(s) && s.client.user.Flagged? && !s.stream.cancelled && Close !in mid && Take !in mid
    ensures var t := RunFrom(s, mid);
      && Inv(t) && t.client.user.Flagged? && !t.stream.cancelled
      && (WillClear(s) ==> WillClear(t)) && (Missed(s) ==> Missed(t))
    decreases |mid|
  {
    if mid != [] {
      FlaggedStep(s, mid[0]);
      StaysAlive(s, mid[0]);
      ApplyKeeps(s, mid[0]);
      FlaggedRun(Apply(s, mid[0]), mid[1..]);
    }
  }

  lemma TakeLocks(s: Sys)
    requires Inv(s) && s.client.user.Flagged? && !s.stream.cancelled
    ensures Missed(s) ==> Locked(Apply(s, Take))
    ensures WillClear(s) ==> !Locked(Apply(s, Take))
  {
    assert Apply(s, Take) == s.(client := TakeFuture(s.client));
  }

  lemma NotOpenIsSilent(s: Sys)
    requires Inv(s) && !s.stream.cancelled && !s.client.open && s.client.reader.Reading?
    ensures Silent(s)
  {
  }

  lemma LockedForever(steps: seq<Step>, more: seq<Step>)
    requires Locked(Run(steps)) && Close !in more
    ensures Locked(Run(steps + more)) && Run(steps + more).client == Run(steps).client
  {
    var s, t := Continued(steps, more);
    LockedStays(s, more);
  }

  lemma {:induction false} LockedStays(s: Sys, more: seq<Step>)
    requires Inv(s) && Locked(s) && Close !in more
    ensures Locked(RunFrom(s, more)) && RunFrom(s, more).client == s.client
    decreases |more|
  {
    if more != [] {
      SilentStays(s, more[0]);
      ApplyKeeps(s, more[0]);
      LockedStays(Apply(s, more[0]), more[1..]);
    }
  }

  // ---------- Requests outstanding when the stream closes ----------

  /** The future of the request has an exception, of the close or of the abandoned promise. */
  predicate Told(c: Client, id: nat)
  {
    && id in c.futureOf && c.futureOf[id] < |c.promises|
    && (c.promises[c.futureOf[id]].Broken? || c.promises[c.futureOf[id]].Abandoned?)
  }

  /** Of the last request before and after the promise was replaced: it is told if and only if its future was
      taken before, and otherwise its future, if it gets one, is unset. */
  ghost predicate ToldExactly(c: Client, c': Client)
  {
    && c.issued > 0 && c'.issued == c.issued
    && var id := c.issued - 1;
       Done(c', id) ==>
         && (Told(c', id) <==> id in c.futureOf)
         && (id in c'.futureOf && !Told(c', id) ==>
               c'.futureOf[id] < |c'.promises| && c'.promises[c'.futureOf[id]] == Unset)
  }

  /**
   Exactly when the close of the stream reaches a request that is still unanswered: its future was taken
   before the promise was replaced. Otherwise, in every continuation, its future stays unset.
   */
  lemma ToldIff(steps: seq<Step>, more: seq<Step>)
    requires Run(steps).client.reader == Renewing(true) && Run(steps).client.open
    ensures ToldExactly(Run(steps).client, Run(steps + ([Renew] + more)).client)
  {
    var all := [Renew] + more;
    var s, t := Continued(steps, all);
    assert all[0] == Renew && all[1..] == more;
    var r := RunFromNext(s, all);
    ToldState(s, r, more);
  }

  lemma ToldState(s: Sys, r: Sys, more: seq<Step>)
    requires Inv(s) && s.client.reader == Renewing(true) && s.client.open && r == Apply(s, Renew)
    ensures ToldExactly(s.client, RunFrom(r, more).client)
  {
    ApplyKeeps(s, Renew);
    EndedRun(r, more);
    ToldClient(s.client, r.client, RunFrom(r, more).client);
  }

  lemma ToldClient(c: Client, r: Client, c': Client)
    requires ClientOk(c) && c.reader == Renewing(true) && c.open && r == RenewPromise(c) && c.issued > 0
    requires OnlyTakes(r, c')
    ensures ToldExactly(c, c')
  {
    var n := |c.promises|;
    assert r.promises[n] == Unset && (r.promises[n - 1].Broken? || r.promises[n - 1].Abandoned?);
    assert c.issued - 1 in c.futureOf ==> Done(c, c.issued - 1);
  }

  /**
   And what it is told: a request whose future was taken, and whose answer was not read, gets the exception of
   the close, whatever else happens.
   */
  lemma TakenIsBroken(steps: seq<Step>, more: seq<Step>)
    requires var c := Run(steps).client;
      c.reader.Reading? && c.open && c.issued > 0 && c.issued - 1 in c.futureOf && !Run(steps).stream.cancelled
    ensures var c, id := Run(steps + ([Close, Renew] + more)).client, Run(steps).client.issued - 1;
      id in c.futureOf && c.futureOf[id] < |c.promises| && c.promises[c.futureOf[id]] == Broken
  {
    var s, t := Continued(steps, [Close, Renew] + more);
    BrokenState(s, more);
  }

  ghost predicate Breaks(c: Client, id: nat)
  {
    id in c.futureOf && c.futureOf[id] < |c.promises| && c.promises[c.futureOf[id]] == Broken
  }

  lemma BrokenState(s: Sys, more: seq<Step>)
    requires Inv(s) && s.client.reader.Reading? && s.client.open && !s.stream.cancelled
    requires s.client.issued > 0 && s.client.issued - 1 in s.client.futureOf
    ensures Breaks(RunFrom(s, [Close, Renew] + more).client, s.client.issued - 1)
  {
    var a, r := ClosesAndRenews(s, more);
    BrokenByClose(s, a, r);
    EndedRun(r, more);
    StillBroken(r.client, RunFrom(r, more).client, s.client.issued - 1);
  }

  lemma ClosesAndRenews(s: Sys, more: seq<Step>) returns (a: Sys, r: Sys)
    requires Inv(s)
    ensures a == Apply(s, Close) && r == Apply(a, Renew) && Inv(r)
    ensures RunFrom(s, [Close, Renew] + more) == RunFrom(r, more)
  {
    var all, rest := [Close, Renew] + more, [Renew] + more;
    assert all[1..] == rest && rest[1..] == more;
    a := RunFromNext(s, all);
    ApplyKeeps(s, Close);
    r := RunFromNext(a, rest);
    ApplyKeeps(a, Renew);
  }

  lemma StillBroken(c: Client, c': Client, id: nat)
    requires c.promises != [] && c.issued == id + 1 && OnlyTakes(c, c') && Done(c, id) && Breaks(c, id)
    ensures Breaks(c', id)
  {
  }

  lemma BrokenByClose(s: Sys, a: Sys, r: Sys)
    requires Inv(s) && s.client.reader.Reading? && s.client.open && !s.stream.cancelled
    requires s.client.issued > 0 && s.client.issued - 1 in s.client.futureOf
    requires a == Apply(s, Close) && r == Apply(a, Renew)
    ensures var c, id := r.client, s.client.issued - 1;
      Ended(c) && Breaks(c, id) && Done(c, id) && c.promises != [] && c.issued == s.client.issued
  {
    assert s.client.futureOf[s.client.issued - 1] == |s.client.promises| - 1;
    assert Done(s.client, s.client.issued - 1) && s.client.requested;
  }

  /** The promise was replaced and nobody will set another. */
  predicate Ended(c: Client)
  {
    (c.reader.Leaving? || c.reader == Clearing(true) || c.reader.Gone?) && c.issued > 0
  }

  /** At most the last request takes its future, of a promise that stays unset. */
  ghost predicate OnlyTakes(c: Client, c': Client)
    requires c.promises != [] && c.issued > 0
  {
    && Ended(c') && c'.promises == c.promises && c'.issued == c.issued
    && (c'.futureOf == c.futureOf
        || (!Done(c, c.issued - 1) && c'.futureOf == c.futureOf[c.issued - 1 := |c.promises| - 1]))
    && (Done(c, c.issued - 1) ==> Done(c', c.issued - 1))
    && (!Done(c', c.issued - 1) ==> c'.futureOf == c.futureOf)
  }

  lemma EndedStep(s: Sys, step: Step)
    requires Inv(s) && s.stream.cancelled && Ended(s.client)
    ensures OnlyTakes(s.client, Apply(s, step).client) && Apply(s, step).stream.cancelled
  {
    match step
    case Server(e) => OnlyBreakCancels(s.stream, e);
    case Take => if s.client.user.Flagged? { EndedTake(s.client); }
    case _ =>
  }

  lemma EndedTake(c: Client)
    requires c.promises != [] && Ended(c) && c.user.Flagged?
    ensures OnlyTakes(c, TakeFuture(c))
  {
  }

  lemma {:induction false} EndedRun(s: Sys, more: seq<Step>)
    requires Inv(s) && Ended(s.client)
    ensures OnlyTakes(s.client, RunFrom(s, more).client)
    decreases |more|
  {
    if more != [] {
      EndedStep(s, more[0]);
      ApplyKeeps(s, more[0]);
      EndedRun(Apply(s, more[0]), more[1..]);
    }
  }

  // ---------- Runs that show it ----------

  const ACCEPTED := Stream(PROCESS, Running, false, [Call(0, [PROCESS], None, false)])
  const ANSWERED := Stream(ABORTED, Replied, false, [Call(0, [PROCESS, ABORTED], None, true)])

  /** One step further in a run whose state is known. */
  lemma Then(steps: seq<Step>, s: Sys, step: Step, t: Sys) returns (longer: seq<Step>)
    requires Run(steps) == s && Apply(s, step) == t
    ensures Run(longer) == t
  {
    RunSnoc(steps, step);
    longer := steps + [step];
  }

  const ASKED := Client(true, false, Wrote, Reading, 1, true, [Unset], map[], {}, {})

  /** The first request has been written. */
  lemma FirstRequest() returns (steps: seq<Step>)
    ensures Run(steps) == Sys(ASKED, FRESH, [Pull(0)], 0)
  {
    assert [] + [Pull(0)] == [Pull(0)];
    steps := Then([], START, Request, Sys(ASKED, FRESH, [Pull(0)], 0));
  }

  lemma FirstFlag() returns (steps: seq<Step>)
    ensures Run(steps) == Sys(ASKED.(requested := true, user := Flagged), FRESH, [Pull(0)], 0)
  {
    steps := FirstRequest();
    var s := Sys(ASKED, FRESH, [Pull(0)], 0);
    steps := Then(steps, s, Flag, s.(client := ASKED.(requested := true, user := Flagged)));
  }

  lemma FirstTake() returns (steps: seq<Step>)
    ensures Run(steps) == Sys(ASKED.(requested := true, user := Idle, futureOf := map[0 := 0]), FRESH, [Pull(0)], 0)
  {
    steps := FirstFlag();
    var c := ASKED.(requested := true, user := Flagged);
    var s := Sys(c, FRESH, [Pull(0)], 0);
    assert TakeFuture(c) == c.(user := Idle, futureOf := map[0 := 0]);
    steps := Then(steps, s, Take, s.(client := TakeFuture(c)));
  }

  /** The server accepts the first request, and its callback returns without a decision. */
  lemma FirstAnswer(c: Client)
    ensures Apply(Sys(c, FRESH, [Pull(0)], 0), ServerRead) == Sys(c, ACCEPTED, [], 0)
    ensures Apply(Sys(c, ACCEPTED, [], 0), Server(Return)) == Sys(c, ANSWERED, [], 0)
  {
    FirstAccepted();
    FirstReturned();
    assert [Pull(0)][1..] == [];
  }

  lemma FirstAccepted()
    ensures Handle(FRESH, ReadPull(0)) == ACCEPTED
  {
    PullIs(FRESH, 0);
  }

  lemma FirstReturned()
    ensures Handle(ACCEPTED, Return) == ANSWERED
  {
    var end := EndStatus(ACCEPTED);
    assert [PROCESS] + [ABORTED] == [PROCESS, ABORTED];
    assert Write(end, ABORTED).calls == [Call(0, [PROCESS, ABORTED], None, false)];
  }

  lemma FirstSent()
    ensures Sent(ANSWERED.calls) == [Reply(0, PROCESS), Reply(0, ABORTED)]
  {
    SentSnoc([], ANSWERED.calls[0]);
    assert [] + ANSWERED.calls == ANSWERED.calls;
    assert Tagged(0, [PROCESS, ABORTED]) == [Reply(0, PROCESS), Reply(0, ABORTED)];
  }

  lemma ReadBoth(c: Client)
    requires c.reader.Reading? && c.promises == [Unset]
    ensures Apply(Apply(Sys(c, ANSWERED, [], 0), ClientRead), ClientRead)
         == Sys(ReadReply(c, Reply(0, ABORTED)), ANSWERED, [], 2)
    ensures ReadReply(c, Reply(0, ABORTED)).promises == [Value(Reply(0, ABORTED))]
  {
    FirstSent();
    assert ReadReply(c, Reply(0, PROCESS)) == c;
    assert Apply(Sys(c, ANSWERED, [], 0), ClientRead) == Sys(c, ANSWERED, [], 1);
  }

  /** The first request is answered, and the answer is read and done with. */
  lemma AnswerAndRead(sent: seq<Step>, c: Client) returns (steps: seq<Step>)
    requires Run(sent) == Sys(c, FRESH, [Pull(0)], 0) && c.reader.Reading? && c.promises == [Unset] && c.issued == 1
    ensures Run(steps) == Sys(
      c.(promises := [Value(Reply(0, ABORTED)), Unset], open := false, requested := false,
         early := if c.user.Idle? then c.early else c.early + {0}), ANSWERED, [], 2)
  {
    RunSnoc(sent, ServerRead);
    RunSnoc(sent + [ServerRead], Server(Return));
    FirstAnswer(c);
    var answered := sent + [ServerRead] + [Server(Return)];
    RunSnoc(answered, ClientRead);
    RunSnoc(answered + [ClientRead], ClientRead);
    ReadBoth(c);
    var read := answered + [ClientRead] + [ClientRead];
    RunSnoc(read, Renew);
    RunSnoc(read + [Renew], Clear);
    DoneWith(c, Sys(ReadReply(c, Reply(0, ABORTED)), ANSWERED, [], 2));
    steps := read + [Renew] + [Clear];
  }

  lemma DoneWith(c: Client, s: Sys)
    requires c.promises == [Unset] && c.issued == 1 && s.client == ReadReply(c, Reply(0, ABORTED)) && c.reader.Reading?
    ensures Apply(Apply(s, Renew), Clear) == s.(client :=
      c.(promises := [Value(Reply(0, ABORTED)), Unset], open := false, requested := false,
         early := if c.user.Idle? then c.early else c.early + {0}))
  {
    var c1 := s.client;
    assert c1.promises == [Value(Reply(0, ABORTED))];
    assert RenewPromise(c1).promises == [Value(Reply(0, ABORTED)), Unset];
  }

  /**
   Taking the future after the write is not safe: an answer read in between goes to a promise nobody
   holds, and when the flag is set behind it, the client waits for good.
   */
  lemma EarlyAnswerIsLost() returns (steps: seq<Step>)
    ensures Locked(Run(steps))
    ensures var c := Run(steps).client;
      c.early == {0} && c.promises == [Value(Reply(0, ABORTED)), Unset] && c.futureOf == map[0 := 1]
  {
    var sent := FirstRequest();
    var answered := AnswerAndRead(sent, ASKED);
    RunSnoc(answered, Flag);
    RunSnoc(answered + [Flag], Take);
    steps := answered + [Flag] + [Take];
    assert steps == answered + ([Flag] + [] + [Take]);
    LockedIff(answered, []);
  }

  /** A request can be ignored: here the second one is read before the return to SUSPEND. */
  lemma RequestIgnored() returns (steps: seq<Step>)
    ensures Stuck(Run(steps)) && Run(steps).client.issued == 2
  {
    var sent := FirstTake();
    var c := ASKED.(requested := true, user := Idle, futureOf := map[0 := 0]);
    var answered := AnswerAndRead(sent, c);
    RunSnoc(answered, Request);
    assert [] + [Pull(1)] == [Pull(1)];
    var asked := answered + [Request];
    RunSnoc(asked, ServerRead);
    IgnoredIff(asked);
    steps := asked + [ServerRead];
  }

  const SETTLED := Stream(SUSPEND, NoTask, false, ANSWERED.calls)
  const SECOND := Call(1, [PROCESS], None, false)
  const DECIDED := Call(1, [PROCESS], Some(SUCCESS), false)
  const ENDED := Call(1, [PROCESS, SUCCESS], Some(SUCCESS), true)

  /** The server settles, accepts the second request and answers it with a success. */
  lemma SecondAccepted(c: Client)
    ensures Apply(Sys(c, ANSWERED, [], 2), Server(Settle)) == Sys(c, SETTLED, [], 2)
    ensures Apply(Sys(c, SETTLED, [Pull(1)], 2), ServerRead)
         == Sys(c, Stream(PROCESS, Running, false, ANSWERED.calls + [SECOND]), [], 2)
  {
    PullIs(SETTLED, 1);
    assert [Pull(1)][1..] == [];
  }

  lemma SecondDecided(c: Client)
    ensures Apply(Sys(c, Stream(PROCESS, Running, false, ANSWERED.calls + [SECOND]), [], 2), Server(Decide(SUCCESS)))
         == Sys(c, Stream(SUCCESS, Running, false, ANSWERED.calls + [DECIDED]), [], 2)
  {
    assert (ANSWERED.calls + [SECOND])[1 := DECIDED] == ANSWERED.calls + [DECIDED];
  }

  lemma SecondReturned(c: Client)
    ensures Apply(Sys(c, Stream(SUCCESS, Running, false, ANSWERED.calls + [DECIDED]), [], 2), Server(Return))
         == Sys(c, Stream(SUCCESS, Replied, false, ANSWERED.calls + [ENDED]), [], 2)
  {
    assert [PROCESS] + [SUCCESS] == [PROCESS, SUCCESS];
    var sent := DECIDED.(replies := [PROCESS, SUCCESS]);
    assert (ANSWERED.calls + [DECIDED])[1 := sent] == ANSWERED.calls + [sent];
    assert (ANSWERED.calls + [sent])[1 := ENDED] == ANSWERED.calls + [ENDED];
  }

  lemma SecondSent()
    ensures Sent(ANSWERED.calls + [ENDED])
         == [Reply(0, PROCESS), Reply(0, ABORTED), Reply(1, PROCESS), Reply(1, SUCCESS)]
  {
    FirstSent();
    SentSnoc(ANSWERED.calls, ENDED);
    assert Tagged(1, [PROCESS, SUCCESS]) == [Reply(1, PROCESS), Reply(1, SUCCESS)];
  }

  /**
   When the flag is set in front of the answer and the future taken behind it, the next request goes
   out, its `get_future` throws, and its answer arrives in the future of the first.
   */
  lemma ForeignAnswer() returns (steps: seq<Step>)
    ensures var c := Run(steps).client;
      && c.early == {0} && c.thrown == {1} && c.futureOf == map[0 := 1]
      && c.promises == [Value(Reply(0, ABORTED)), Value(Reply(1, SUCCESS))]
  {
    var answered := FlaggedAnswered();
    var again, c' := AskAgain(answered);
    var decided := AnswerAgain(again, c');
    steps := ReadAgain(decided, c');
  }

  lemma ReadAgain(decided: seq<Step>, c: Client) returns (steps: seq<Step>)
    requires Run(decided) == Sys(c, Stream(SUCCESS, Replied, false, ANSWERED.calls + [ENDED]), [], 2)
    requires c.reader.Reading? && c.promises == TWO_PROMISES
    ensures Run(steps).client
         == c.(promises := [Value(Reply(0, ABORTED)), Value(Reply(1, SUCCESS))], open := false,
               reader := Renewing(false))
  {
    var s := Sys(c, Stream(SUCCESS, Replied, false, ANSWERED.calls + [ENDED]), [], 2);
    RunSnoc(decided, ClientRead);
    RunSnoc(decided + [ClientRead], ClientRead);
    SecondSent();
    assert ReadReply(c, Reply(1, PROCESS)) == c;
    assert Apply(s, ClientRead) == s.(received := 3);
    var last := ReadReply(c, Reply(1, SUCCESS));
    assert last.promises == [Value(Reply(0, ABORTED)), Value(Reply(1, SUCCESS))];
    steps := decided + [ClientRead] + [ClientRead];
  }

  lemma FlaggedAnswered() returns (steps: seq<Step>)
    ensures Run(steps)
         == Sys(Client(true, false, Flagged, Reading, 1, false, TWO_PROMISES, map[], {0}, {}), ANSWERED, [], 2)
  {
    var sent := FirstFlag();
    var c := ASKED.(requested := true, user := Flagged);
    steps := AnswerAndRead(sent, c);
    assert {} + {0} == {0};
  }

  const TWO_PROMISES := [Value(Reply(0, ABORTED)), Unset]

  lemma AskAgain(answered: seq<Step>) returns (steps: seq<Step>, c: Client)
    requires Run(answered)
          == Sys(Client(true, false, Flagged, Reading, 1, false, TWO_PROMISES, map[], {0}, {}), ANSWERED, [], 2)
    ensures c == Client(true, true, Idle, Reading, 2, true, TWO_PROMISES, map[0 := 1], {0}, {1})
    ensures Run(steps) == Sys(c, SETTLED, [Pull(1)], 2)
  {
    var c0 := Client(true, false, Flagged, Reading, 1, false, TWO_PROMISES, map[], {0}, {});
    RunSnoc(answered, Take);
    var c1 := TakeFuture(c0);
    assert c1 == c0.(user := Idle, futureOf := map[0 := 1]);
    RunSnoc(answered + [Take], Server(Settle));
    SecondAccepted(c1);
    var settled := answered + [Take] + [Server(Settle)];
    RunSnoc(settled, Request);
    assert [] + [Pull(1)] == [Pull(1)];
    RunSnoc(settled + [Request], Flag);
    var c2 := c1.(user := Flagged, issued := 2, open := true, requested := true);
    var flagged := settled + [Request] + [Flag];
    assert Run(flagged) == Sys(c2, SETTLED, [Pull(1)], 2);
    RunSnoc(flagged, Take);
    assert c2.futureOf[0] == 1 && Retrieved(c2);
    c := TakeFuture(c2);
    assert {} + {1} == {1};
    steps := flagged + [Take];
  }

  lemma AnswerAgain(again: seq<Step>, c: Client) returns (steps: seq<Step>)
    requires Run(again) == Sys(c, SETTLED, [Pull(1)], 2)
    ensures Run(steps) == Sys(c, Stream(SUCCESS, Replied, false, ANSWERED.calls + [ENDED]), [], 2)
  {
    SecondAccepted(c);
    SecondDecided(c);
    SecondReturned(c);
    RunSnoc(again, ServerRead);
    RunSnoc(again + [ServerRead], Server(Decide(SUCCESS)));
    RunSnoc(again + [ServerRead] + [Server(Decide(SUCCESS))], Server(Return));
    steps := again + [ServerRead] + [Server(Decide(SUCCESS))] + [Server(Return)];
  }

  // ---------- A close that goes unnoticed ----------

  /** The stream is closed and the server did nothing. */
  function Shut(c: Client): Sys
  {
    Sys(c, FRESH.(cancelled := true), [], 0)
  }

  const CLOSED := ASKED.(reader := Leaving, promises := [Abandoned, Unset])

  lemma ThenClose() returns (steps: seq<Step>)
    ensures Run(steps) == Shut(CLOSED)
  {
    var sent := FirstRequest();
    var c := ASKED.(reader := Renewing(true));
    var closed := Then(sent, Sys(ASKED, FRESH, [Pull(0)], 0), Close, Shut(c));
    assert RenewPromise(c) == CLOSED;
    steps := Then(closed, Shut(c), Renew, Shut(CLOSED));
  }

  lemma ThenGone() returns (steps: seq<Step>)
    ensures Run(steps) == Shut(CLOSED.(connected := false, reader := Gone))
  {
    var closed := ThenClose();
    var c := CLOSED.(connected := false, reader := Clearing(true));
    var left := Then(closed, Shut(CLOSED), Leave, Shut(c));
    steps := Then(left, Shut(c), Clear, Shut(c.(reader := Gone)));
  }

  /** A run in which nobody is told: the stream closes between the write and the flag. */
  lemma CloseGoesUnnoticed() returns (steps: seq<Step>)
    ensures Run(steps).client == Client(false, true, Idle, Gone, 1, true, [Abandoned, Unset], map[0 := 1], {}, {})
  {
    var gone := ThenGone();
    var c := CLOSED.(connected := false, reader := Gone);
    var d := c.(requested := true, user := Flagged);
    var flagged := Then(gone, Shut(c), Flag, Shut(d));
    assert TakeFuture(d) == d.(user := Idle, futureOf := map[0 := 1]);
    steps := Then(flagged, Shut(d), Take, Shut(TakeFuture(d)));
  }
}
