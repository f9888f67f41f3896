/**
 The master and all its listeners: every registered node is answered with lists that its client
 replays. Steps interleave freely. A version is handed out in one step and its slot filled in a later
 one, and the log may grow between reading a bound and listing up to it.
 */
module Discovery {
  import opened Sequences
  import opened RegistryLog

  /** Where the handler of one `Regist` call stands once its node is registered. */
  datatype Phase =
    | Joined                             // registered, first list not sent yet
    | Idle(kept: nat)                    // told everything up to `kept`
    | Bounded(kept: nat, bound: nat)     // has read the bound of its next list
    | Leaving                            // has the version of its deletion, slot not filled yet
    | Gone                               // deregistered

  /** A registered node: its handler at the master, the replies under way, and what it has built.
      `delivered` has all commands it has read; `overran` tells that a list to it ran over a blank slot. */
  datatype Listener = Listener(phase: Phase, replies: seq<seq<Info>>, view: View, delivered: seq<Info>, overran: bool)

  /** What is to be filled in at a version that was handed out. */
  datatype Pending = Adding(name: string, ip: string, port: nat) | Deleting(r: nat)

  /** Listeners are known by the version they registered at. */
  datatype System = System(log: Log, alive: set<string>, waiting: map<nat, Pending>, listeners: map<nat, Listener>)

  datatype Step =
    | Join(name: string, ip: string, port: nat)   // finds the name free and gets a version
    | Leave(r: nat)                               // gets a version for the deletion
    | Fill(v: nat)                                // fills the slot of a version
    | At(r: nat, move: Move)

  /** What one listener and its handler do by themselves. */
  datatype Move = FirstList | ReadBound | Poll | Deliver

  /** A list goes out to a listener. */
  ghost function Told(log: Log, l: Listener, phase: Phase, from: nat, to: nat): (l': Listener)
    requires to <= |log|
  {
    l.(phase := phase, replies := l.replies + [Compact(log, from, to)],
       overran := l.overran || !AllFilled(log, from, to))
  }

  ghost function Advance(log: Log, r: nat, l: Listener, move: Move): (l': Listener)
    requires InRange(log, r, l)
  {
    match move
    case FirstList => if l.phase.Joined? then Told(log, l, Idle(r), 0, r) else l
    case ReadBound =>
      if l.phase.Idle? && l.phase.kept + 1 <= |log| - 1 then l.(phase := Bounded(l.phase.kept, |log| - 1)) else l
    case Poll =>
      if l.phase.Bounded? then Told(log, l, Idle(l.phase.bound), l.phase.kept + 1, l.phase.bound + 1) else l
    case Deliver =>
      if l.replies != [] then
        l.(replies := l.replies[1..], view := Replay(l.view, l.replies[0]), delivered := l.delivered + l.replies[0])
      else l
  }

  /** The name is not alive, and nobody who found it free has yet to fill his slot. */
  ghost predicate NameFree(s: System, name: string)
  {
    name !in s.alive && forall v :: v in s.waiting && s.waiting[v].Adding? ==> s.waiting[v].name != name
  }

  predicate CanLeave(l: Listener)
  {
    l.phase.Idle? || l.phase.Bounded?
  }

  ghost function Apply(s: System, step: Step): (s': System)
    requires Inv(s)
  {
    match step
    case Join(name, ip, port) =>
      if NameFree(s, name) then
        s.(log := Allocate(s.log), waiting := s.waiting[|s.log| := Adding(name, ip, port)])
      else s
    case Leave(r) =>
      if r in s.listeners && CanLeave(s.listeners[r]) then
        s.(log := Allocate(s.log), waiting := s.waiting[|s.log| := Deleting(r)],
           listeners := s.listeners[r := s.listeners[r].(phase := Leaving)])
      else s
    case Fill(v) => if v in s.waiting then Filled(s, v) else s
    case At(r, move) =>
      if r in s.listeners then s.(listeners := s.listeners[r := Advance(s.log, r, s.listeners[r], move)]) else s
  }

  ghost function Filled(s: System, v: nat): (s': System)
    requires Inv(s) && v in s.waiting
  {
    match s.waiting[v]
    case Adding(name, ip, port) =>
      System(FillAdd(s.log, v, name, ip, port), s.alive + {name}, s.waiting - {v},
             s.listeners[v := NEWCOMER])
    case Deleting(r) =>
      System(FillDelete(s.log, v, r), s.alive - {s.log[r].info.name}, s.waiting - {v},
             s.listeners[r := s.listeners[r].(phase := Gone)])
  }

  const NEWCOMER := Listener(Joined, [], map[], [], false)

  const START := System([], {}, map[], map[])

  ghost function Run(steps: seq<Step>): (s: System)
    ensures Inv(s)
  {
    if steps == [] then START
    else
      var s := Run(steps[..|steps| - 1]);
      ApplyKeeps(s, steps[|steps| - 1]);
      Apply(s, steps[|steps| - 1])
  }

  // ---------- Invariants ----------

  ghost function ReplayAll(v: View, replies: seq<seq<Info>>): (v': View)
    decreases |replies|
  {
    if replies == [] then v else ReplayAll(Replay(v, replies[0]), replies[1..])
  }

  lemma {:induction false} ReplayAllSnoc(v: View, replies: seq<seq<Info>>, last: seq<Info>)
    ensures ReplayAll(v, replies + [last]) == Replay(ReplayAll(v, replies), last)
    decreases |replies|
  {
    if replies == [] {
      assert [last][1..] == [] && replies + [last] == [last];
    } else {
      ReplayAllSnoc(Replay(v, replies[0]), replies[1..], last);
      assert (replies + [last])[1..] == replies[1..] + [last];
    }
  }

  /** The listener's entry is in the log, and the bounds it knows are too. */
  ghost predicate InRange(log: Log, r: nat, l: Listener)
  {
    && IsAdd(log, r) && (!l.phase.Gone? ==> Alive(log, r))
    && l.view == Replay(map[], l.delivered)
    && match l.phase
       case Joined => l.replies == [] && l.delivered == [] && !l.overran
       case Idle(kept) => r <= kept < |log|
       case Bounded(kept, bound) => r <= kept < bound < |log|
       case Leaving => true
       case Gone => true
  }

  /** What the listener will hold once every reply under way has arrived is right for what it was told,
      and what it was told is filled in. */
  ghost predicate Right(log: Log, r: nat, l: Listener)
  {
    l.phase.Idle? || l.phase.Bounded? ==>
      && l.phase.kept < |log| && AllFilled(log, 0, l.phase.kept + 1)
      && Sees(log, r, l.phase.kept + 1, l.phase.kept + 1, ReplayAll(l.view, l.replies))
  }

  ghost predicate ListenerInv(log: Log, r: nat, l: Listener)
  {
    InRange(log, r, l) && (!l.overran ==> Right(log, r, l))
  }

  ghost predicate PendingOk(s: System, v: nat, p: Pending)
  {
    && v < |s.log| && s.log[v] == BLANK
    && match p
       case Adding(name, _, _) => name !in s.alive && Free(s.log, v, name)
       case Deleting(r) => r < v && Alive(s.log, r) && r in s.listeners && s.listeners[r].phase.Leaving?
  }

  ghost predicate WaitingOk(s: System)
  {
    && (forall v :: v in s.waiting ==> PendingOk(s, v, s.waiting[v]))
    && (forall v, w :: v in s.waiting && w in s.waiting && v != w ==> Apart(s.waiting[v], s.waiting[w]))
  }

  /** Two versions wait for different nodes. */
  predicate Apart(p: Pending, q: Pending)
  {
    match p
    case Adding(name, _, _) => q.Adding? ==> q.name != name
    case Deleting(r) => q.Deleting? ==> q.r != r
  }

  ghost predicate Inv(s: System)
  {
    && Wf(s.log)
    && (forall n :: n in s.alive <==> NameAlive(s.log, n))
    && WaitingOk(s)
    && (forall r :: r in s.listeners ==> ListenerInv(s.log, r, s.listeners[r]))
  }

  // ---------- A version is handed out ----------

  lemma ListenerAllocate(log: Log, r: nat, l: Listener)
    requires ListenerInv(log, r, l)
    ensures ListenerInv(Allocate(log), r, l)
  {
    if !l.overran && (l.phase.Idle? || l.phase.Bounded?) {
      SeesAllocate(log, r, l.phase.kept + 1, ReplayAll(l.view, l.replies));
    }
  }

  lemma PendingAllocate(s: System, s': System, v: nat, p: Pending)
    requires PendingOk(s, v, p) && s'.log == Allocate(s.log) && s'.alive == s.alive
    requires p.Deleting? ==> p.r in s'.listeners && s'.listeners[p.r].phase.Leaving?
    ensures PendingOk(s', v, p)
  {
    assert forall a :: IsAdd(s'.log, a) <==> IsAdd(s.log, a);
  }

  /** One more version waits. */
  lemma OneMoreWaits(s: System, s': System, p: Pending)
    requires WaitingOk(s) && s'.waiting == s.waiting[|s.log| := p] && PendingOk(s', |s.log|, p)
    requires forall v :: v in s.waiting ==> PendingOk(s', v, s.waiting[v]) && Apart(s.waiting[v], p)
    ensures WaitingOk(s')
  {
    forall v | v in s.waiting ensures Apart(p, s.waiting[v]) {
      assert Apart(s.waiting[v], p);
    }
  }

  lemma JoinKeeps(s: System, name: string, ip: string, port: nat)
    requires Inv(s) && NameFree(s, name)
    ensures Inv(Apply(s, Join(name, ip, port)))
  {
    var s' := Apply(s, Join(name, ip, port));
    AllocateWf(s.log);
    forall r | r in s'.listeners ensures ListenerInv(s'.log, r, s'.listeners[r]) {
      ListenerAllocate(s.log, r, s.listeners[r]);
    }
    forall v | v in s.waiting ensures PendingOk(s', v, s.waiting[v]) && Apart(s.waiting[v], Adding(name, ip, port)) {
      PendingAllocate(s, s', v, s.waiting[v]);
    }
    OneMoreWaits(s, s', Adding(name, ip, port));
  }

  lemma LeaveKeeps(s: System, gone: nat)
    requires Inv(s) && gone in s.listeners && CanLeave(s.listeners[gone])
    ensures Inv(Apply(s, Leave(gone)))
  {
    var s' := Apply(s, Leave(gone));
    AllocateWf(s.log);
    assert ListenerInv(s.log, gone, s.listeners[gone]);
    LeaveWaits(s, s', gone);
    forall r | r in s'.listeners ensures ListenerInv(s'.log, r, s'.listeners[r]) {
      ListenerAllocate(s.log, r, s.listeners[r]);
    }
  }

  lemma LeaveWaits(s: System, s': System, gone: nat)
    requires WaitingOk(s) && gone in s.listeners && !s.listeners[gone].phase.Leaving? && Alive(s.log, gone)
    requires s'.log == Allocate(s.log) && s'.alive == s.alive && s'.waiting == s.waiting[|s.log| := Deleting(gone)]
    requires s'.listeners == s.listeners[gone := s.listeners[gone].(phase := Leaving)]
    ensures WaitingOk(s')
  {
    forall v | v in s.waiting ensures PendingOk(s', v, s.waiting[v]) && Apart(s.waiting[v], Deleting(gone)) {
      StillWaits(s, s', gone, v, s.waiting[v]);
    }
    assert Alive(s'.log, gone);
    OneMoreWaits(s, s', Deleting(gone));
  }

  lemma StillWaits(s: System, s': System, gone: nat, v: nat, p: Pending)
    requires PendingOk(s, v, p) && gone in s.listeners && !s.listeners[gone].phase.Leaving?
    requires s'.log == Allocate(s.log) && s'.alive == s.alive
    requires s'.listeners == s.listeners[gone := s.listeners[gone].(phase := Leaving)]
    ensures PendingOk(s', v, p) && Apart(p, Deleting(gone))
  {
    PendingAllocate(s, s', v, p);
  }

  // ---------- A slot is filled ----------

  /** The slot lies behind everything a listener was rightly told. */
  lemma ListenerFillAdd(log: Log, r: nat, l: Listener, v: nat, name: string, ip: string, port: nat)
    requires ListenerInv(log, r, l) && v < |log| && log[v] == BLANK
    ensures ListenerInv(FillAdd(log, v, name, ip, port), r, l)
  {
    if !l.overran && (l.phase.Idle? || l.phase.Bounded?) {
      SeesFillAdd(log, r, l.phase.kept + 1, ReplayAll(l.view, l.replies), v, name, ip, port);
    }
  }

  lemma ListenerFillDelete(log: Log, r: nat, l: Listener, d: nat, gone: nat)
    requires ListenerInv(log, r, l) && gone < d < |log| && log[d] == BLANK && Alive(log, gone)
    ensures ListenerInv(FillDelete(log, d, gone), r, if r == gone then l.(phase := Gone) else l)
  {
    if r != gone && !l.overran && (l.phase.Idle? || l.phase.Bounded?) {
      SeesFillDelete(log, r, l.phase.kept + 1, ReplayAll(l.view, l.replies), d, gone);
    }
  }

  /** Filling a slot changes nothing about another one that waits. */
  lemma PendingFilled(s: System, s': System, w: nat, p: Pending)
    requires PendingOk(s, w, p) && |s'.log| == |s.log| && s'.log[w] == s.log[w]
    requires p.Adding? ==> p.name !in s'.alive
    requires p.Adding? ==>
      forall a :: IsAdd(s'.log, a) && s'.log[a].info.name == p.name ==> IsAdd(s.log, a) && s'.log[a] == s.log[a]
    requires p.Deleting? ==> Alive(s'.log, p.r) && p.r in s'.listeners && s'.listeners[p.r].phase.Leaving?
    ensures PendingOk(s', w, p)
  {
    if p.Adding? {
      FreeKeeps(s.log, s'.log, w, p.name);
    }
  }

  lemma PendingFillAdd(s: System, s': System, v: nat, q: Pending, w: nat, p: Pending)
    requires PendingOk(s, w, p) && PendingOk(s, v, q) && q.Adding? && Apart(q, p) && v != w
    requires s'.log == FillAdd(s.log, v, q.name, q.ip, q.port) && s'.alive == s.alive + {q.name}
    requires forall r :: r in s.listeners && r != v ==> r in s'.listeners && s'.listeners[r] == s.listeners[r]
    ensures PendingOk(s', w, p)
  {
    assert forall a :: IsAdd(s'.log, a) ==> a == v || (IsAdd(s.log, a) && s'.log[a] == s.log[a]);
    PendingFilled(s, s', w, p);
  }

  lemma PendingFillDelete(s: System, s': System, d: nat, gone: nat, w: nat, p: Pending)
    requires PendingOk(s, w, p) && PendingOk(s, d, Deleting(gone)) && Apart(Deleting(gone), p) && d != w
    requires s'.log == FillDelete(s.log, d, gone) && s'.alive == s.alive - {s.log[gone].info.name}
    requires forall r :: r in s.listeners && r != gone ==> r in s'.listeners && s'.listeners[r] == s.listeners[r]
    ensures PendingOk(s', w, p)
  {
    assert IsAdd(s.log, gone);
    assert forall a :: IsAdd(s'.log, a) ==> a == gone || (IsAdd(s.log, a) && s'.log[a] == s.log[a]);
    PendingFilled(s, s', w, p);
  }

  lemma FillAddWaits(s: System, s': System, v: nat, q: Pending)
    requires WaitingOk(s) && v in s.waiting && s.waiting[v] == q && q.Adding? && s'.waiting == s.waiting - {v}
    requires v < |s.log| && s'.log == FillAdd(s.log, v, q.name, q.ip, q.port) && s'.alive == s.alive + {q.name}
    requires forall r :: r in s.listeners && r != v ==> r in s'.listeners && s'.listeners[r] == s.listeners[r]
    ensures WaitingOk(s')
  {
    forall w | w in s'.waiting ensures PendingOk(s', w, s'.waiting[w]) {
      assert Apart(s.waiting[v], s.waiting[w]);
      PendingFillAdd(s, s', v, q, w, s.waiting[w]);
    }
  }

  lemma FillDeleteWaits(s: System, s': System, d: nat, gone: nat)
    requires WaitingOk(s) && d in s.waiting && s.waiting[d] == Deleting(gone) && s'.waiting == s.waiting - {d}
    requires gone < d < |s.log| && s'.log == FillDelete(s.log, d, gone) && s'.alive == s.alive - {s.log[gone].info.name}
    requires forall r :: r in s.listeners && r != gone ==> r in s'.listeners && s'.listeners[r] == s.listeners[r]
    ensures WaitingOk(s')
  {
    forall w | w in s'.waiting ensures PendingOk(s', w, s'.waiting[w]) {
      assert Apart(s.waiting[d], s.waiting[w]);
      PendingFillDelete(s, s', d, gone, w, s.waiting[w]);
    }
  }

  lemma FillAddKeeps(s: System, v: nat)
    requires Inv(s) && v in s.waiting && s.waiting[v].Adding?
    ensures Inv(Filled(s, v))
  {
    var s', q := Filled(s, v), s.waiting[v];
    assert PendingOk(s, v, q);
    FillAddWf(s.log, v, q.name, q.ip, q.port);
    FillAddWaits(s, s', v, q);
    forall r | r in s'.listeners ensures ListenerInv(s'.log, r, s'.listeners[r]) {
      if r == v {
        NewcomerOk(s'.log, v);
      } else {
        ListenerFillAdd(s.log, r, s.listeners[r], v, q.name, q.ip, q.port);
      }
    }
  }

  lemma NewcomerOk(log: Log, v: nat)
    requires Alive(log, v)
    ensures ListenerInv(log, v, NEWCOMER)
  {
  }

  lemma FillDeleteKeeps(s: System, d: nat)
    requires Inv(s) && d in s.waiting && s.waiting[d].Deleting?
    ensures Inv(Filled(s, d))
  {
    var s', gone := Filled(s, d), s.waiting[d].r;
    assert PendingOk(s, d, s.waiting[d]);
    FillDeleteWf(s.log, d, gone);
    FillDeleteWaits(s, s', d, gone);
    FillDeleteListeners(s, s', d, gone);
  }

  lemma FillDeleteListeners(s: System, s': System, d: nat, gone: nat)
    requires gone < d < |s.log| && s.log[d] == BLANK && Alive(s.log, gone) && gone in s.listeners
    requires forall r :: r in s.listeners ==> ListenerInv(s.log, r, s.listeners[r])
    requires s'.log == FillDelete(s.log, d, gone)
    requires s'.listeners == s.listeners[gone := s.listeners[gone].(phase := Gone)]
    ensures forall r :: r in s'.listeners ==> ListenerInv(s'.log, r, s'.listeners[r])
  {
    forall r | r in s'.listeners ensures ListenerInv(s'.log, r, s'.listeners[r]) {
      ListenerFillDelete(s.log, r, s.listeners[r], d, gone);
    }
  }

  // ---------- A listener moves ----------

  lemma Polled(log: Log, r: nat, from: nat, upTo: nat, v: View)
    requires Wf(log) && r < from <= upTo <= |log| && AllFilled(log, from, upTo) && Sees(log, r, from, from, v)
    ensures Sees(log, r, upTo, upTo, Replay(v, Compact(log, from, upTo)))
  {
    var w := ReplayList(log, r, from, upTo, v);
    Rebase(log, r, from, upTo, w);
  }

  lemma FirstListed(log: Log, r: nat)
    requires Wf(log) && IsAdd(log, r) && AllFilled(log, 0, r)
    ensures Sees(log, r, r + 1, r + 1, Replay(map[], Compact(log, 0, r)))
  {
    var w := ReplayList(log, r, 0, r, map[]);
    Rebase(log, r, 0, r, w);
    SkipOwn(log, r, w);
  }

  lemma FirstTold(log: Log, r: nat, l: Listener)
    requires Wf(log) && ListenerInv(log, r, l) && l.phase.Joined?
    ensures ListenerInv(log, r, Told(log, l, Idle(r), 0, r))
  {
    if AllFilled(log, 0, r) {
      FirstListed(log, r);
      ReplayAllSnoc(l.view, l.replies, Compact(log, 0, r));
      assert AllFilled(log, 0, r + 1);
    }
  }

  lemma PollTold(log: Log, r: nat, l: Listener)
    requires Wf(log) && ListenerInv(log, r, l) && l.phase.Bounded?
    ensures ListenerInv(log, r, Told(log, l, Idle(l.phase.bound), l.phase.kept + 1, l.phase.bound + 1))
  {
    var from, upTo := l.phase.kept + 1, l.phase.bound + 1;
    if !l.overran && AllFilled(log, from, upTo) {
      var v := ReplayAll(l.view, l.replies);
      Polled(log, r, from, upTo, v);
      ReplayAllSnoc(l.view, l.replies, Compact(log, from, upTo));
      FilledOn(log, from, upTo);
      assert Right(log, r, Told(log, l, Idle(l.phase.bound), from, upTo));
    }
  }

  lemma FilledOn(log: Log, from: nat, to: nat)
    requires to <= |log| && from <= to && AllFilled(log, 0, from) && AllFilled(log, from, to)
    ensures AllFilled(log, 0, to)
  {
  }

  lemma Delivered(log: Log, r: nat, l: Listener)
    requires ListenerInv(log, r, l)
    ensures ListenerInv(log, r, Advance(log, r, l, Deliver))
  {
    if l.replies != [] {
      ReplayConcat(map[], l.delivered, l.replies[0]);
    }
  }

  lemma AdvanceKeeps(log: Log, r: nat, l: Listener, move: Move)
    requires Wf(log) && ListenerInv(log, r, l)
    ensures ListenerInv(log, r, Advance(log, r, l, move))
  {
    match move
    case FirstList => if l.phase.Joined? { FirstTold(log, r, l); }
    case Poll => if l.phase.Bounded? { PollTold(log, r, l); }
    case ReadBound => BoundRead(log, r, l);
    case Deliver => Delivered(log, r, l);
  }

  lemma BoundRead(log: Log, r: nat, l: Listener)
    requires ListenerInv(log, r, l)
    ensures ListenerInv(log, r, Advance(log, r, l, ReadBound))
  {
  }

  lemma UpdateKeeps(s: System, r: nat, l: Listener)
    requires Inv(s) && r in s.listeners && ListenerInv(s.log, r, l) && l.phase.Leaving? == s.listeners[r].phase.Leaving?
    ensures Inv(s.(listeners := s.listeners[r := l]))
  {
    var s' := s.(listeners := s.listeners[r := l]);
    forall v | v in s'.waiting ensures PendingOk(s', v, s'.waiting[v]) {
      assert PendingOk(s, v, s.waiting[v]);
    }
  }

  /** The invariants are kept by every step. */
  lemma ApplyKeeps(s: System, step: Step)
    requires Inv(s)
    ensures Inv(Apply(s, step))
  {
    match step
    case Join(name, ip, port) => if NameFree(s, name) { JoinKeeps(s, name, ip, port); }
    case Leave(r) => if r in s.listeners && CanLeave(s.listeners[r]) { LeaveKeeps(s, r); }
    case Fill(v) =>
      if v in s.waiting {
        if s.waiting[v].Adding? { FillAddKeeps(s, v); } else { FillDeleteKeeps(s, v); }
      }
    case At(r, move) => if r in s.listeners { AtKeeps(s, r, move); }
  }

  lemma AtKeeps(s: System, r: nat, move: Move)
    requires Inv(s) && r in s.listeners
    ensures Inv(s.(listeners := s.listeners[r := Advance(s.log, r, s.listeners[r], move)]))
  {
    AdvanceKeeps(s.log, r, s.listeners[r], move);
    UpdateKeeps(s, r, Advance(s.log, r, s.listeners[r], move));
  }

  // ---------- Convergence ----------

  /** The listener was told everything up to the last version and has received it. */
  ghost predicate CaughtUpAt(s: System, r: nat)
  {
    && r in s.listeners && s.listeners[r].phase.Idle? && s.listeners[r].phase.kept + 1 == |s.log|
    && s.listeners[r].replies == []
  }

  /** The listener holds exactly the names alive other than its own, each at the address of its latest
      registration. */
  ghost predicate Converged(s: System, r: nat)
    requires r in s.listeners
  {
    var view := s.listeners[r].view;
    && IsAdd(s.log, r)
    && (forall n :: n in view <==> n in s.alive && n != s.log[r].info.name)
    && (forall n :: n in view ==>
          exists a :: Latest(s.log, a) && s.log[a].info.name == n && view[n] == s.log[a].info.Addr())
  }

  /** In every interleaving, a listener that is caught up has converged, if no list to it ran over a
      blank slot. */
  lemma Convergence(steps: seq<Step>, r: nat)
    requires CaughtUpAt(Run(steps), r) && !Run(steps).listeners[r].overran
    ensures Converged(Run(steps), r)
  {
    ConvergedState(Run(steps), r);
  }

  lemma ConvergedState(s: System, r: nat)
    requires Inv(s) && CaughtUpAt(s, r) && !s.listeners[r].overran
    ensures Converged(s, r)
  {
    var l := s.listeners[r];
    assert ListenerInv(s.log, r, l);
    CaughtUp(s.log, r, |s.log|, l.view);
  }

  /** Two such listeners agree about every node other than the two of them. */
  lemma ListenersAgree(steps: seq<Step>, r: nat, q: nat, n: string)
    requires CaughtUpAt(Run(steps), r) && !Run(steps).listeners[r].overran
    requires CaughtUpAt(Run(steps), q) && !Run(steps).listeners[q].overran
    ensures IsAdd(Run(steps).log, r) && IsAdd(Run(steps).log, q)
    ensures var s := Run(steps);
      var v, w := s.listeners[r].view, s.listeners[q].view;
      n != s.log[r].info.name && n != s.log[q].info.name ==> (n in v <==> n in w) && (n in v ==> v[n] == w[n])
  {
    Convergence(steps, r);
    Convergence(steps, q);
    var s := Run(steps);
    var v, w := s.listeners[r].view, s.listeners[q].view;
    if n in v && n in w {
      var a :| Latest(s.log, a) && s.log[a].info.name == n && v[n] == s.log[a].info.Addr();
      var b :| Latest(s.log, b) && s.log[b].info.name == n && w[n] == s.log[b].info.Addr();
      assert a == b;
    }
  }

  // ---------- Lists that ran over a blank slot ----------

  /** Every node of the run has a name. */
  predicate Names(steps: seq<Step>)
  {
    forall i :: 0 <= i < |steps| && steps[i].Join? ==> steps[i].name != ""
  }

  ghost predicate NamesInv(s: System)
  {
    && Named(s.log)
    && (forall v :: v in s.waiting && s.waiting[v].Adding? ==> s.waiting[v].name != "")
    && (forall r :: r in s.listeners && s.listeners[r].overran ==>
          "" in ReplayAll(s.listeners[r].view, s.listeners[r].replies))
  }

  lemma NamesAdvance(log: Log, r: nat, l: Listener, move: Move)
    requires Wf(log) && Named(log) && InRange(log, r, l)
    requires l.overran ==> "" in ReplayAll(l.view, l.replies)
    ensures var l' := Advance(log, r, l, move);
      l'.overran ==> "" in ReplayAll(l'.view, l'.replies)
  {
    var v := ReplayAll(l.view, l.replies);
    if move.FirstList? && l.phase.Joined? {
      ReplayAllSnoc(l.view, l.replies, Compact(log, 0, r));
      var w := NamelessStays(log, 0, r, v);
    } else if move.Poll? && l.phase.Bounded? {
      var from, upTo := l.phase.kept + 1, l.phase.bound + 1;
      ReplayAllSnoc(l.view, l.replies, Compact(log, from, upTo));
      var w := NamelessStays(log, from, upTo, v);
    }
  }

  lemma NamesFill(s: System, v: nat)
    requires Inv(s) && NamesInv(s) && v in s.waiting
    ensures NamesInv(Filled(s, v))
  {
    var s' := Filled(s, v);
    assert PendingOk(s, v, s.waiting[v]);
    assert Named(s'.log);
    forall r | r in s'.listeners && s'.listeners[r].overran
      ensures "" in ReplayAll(s'.listeners[r].view, s'.listeners[r].replies)
    {
      assert r in s.listeners && s'.listeners[r].view == s.listeners[r].view;
    }
  }

  lemma NamesAt(s: System, r: nat, move: Move)
    requires Inv(s) && NamesInv(s) && r in s.listeners
    ensures NamesInv(s.(listeners := s.listeners[r := Advance(s.log, r, s.listeners[r], move)]))
  {
    assert ListenerInv(s.log, r, s.listeners[r]);
    NamesAdvance(s.log, r, s.listeners[r], move);
  }

  lemma NamesApply(s: System, step: Step)
    requires Inv(s) && NamesInv(s) && (step.Join? ==> step.name != "")
    ensures NamesInv(Apply(s, step))
  {
    match step
    case Fill(v) => if v in s.waiting { NamesFill(s, v); }
    case At(r, move) => if r in s.listeners { NamesAt(s, r, move); }
    case _ =>
  }

  lemma {:induction false} NamesRun(steps: seq<Step>)
    requires Names(steps)
    ensures NamesInv(Run(steps))
    decreases |steps|
  {
    if steps != [] {
      NamesRun(steps[..|steps| - 1]);
      NamesApply(Run(steps[..|steps| - 1]), steps[|steps| - 1]);
    }
  }

  /** Exactly when a caught-up listener has converged: no list to it ran over a blank slot. */
  lemma ConvergedIffNoOverrun(steps: seq<Step>, r: nat)
    requires Names(steps) && CaughtUpAt(Run(steps), r)
    ensures Converged(Run(steps), r) <==> !Run(steps).listeners[r].overran
  {
    var s := Run(steps);
    if s.listeners[r].overran {
      NamesRun(steps);
      assert "" in s.listeners[r].view;
      assert !NameAlive(s.log, "");
    } else {
      Convergence(steps, r);
    }
  }

  lemma RunSnoc(steps: seq<Step>, step: Step)
    ensures Run(steps + [step]) == Apply(Run(steps), step)
  {
    assert (steps + [step])[..|steps|] == steps;
  }

  /** No command adds the name. */
  predicate AddsNot(cmds: seq<Info>, name: string)
  {
    forall j :: 0 <= j < |cmds| ==> !(cmds[j].isAdd && cmds[j].name == name)
  }

  lemma {:induction false} ReplayAbsent(v: View, cmds: seq<Info>, name: string)
    requires name !in v && AddsNot(cmds, name)
    ensures name !in Replay(v, cmds)
    decreases |cmds|
  {
    if cmds != [] {
      ReplayAbsent(v, cmds[..|cmds| - 1], name);
    }
  }

  /** The listener was told past the addition at v, does not have it and is not about to get it. */
  predicate Past(l: Listener, v: nat, name: string)
  {
    && !l.phase.Joined? && (l.phase.Idle? || l.phase.Bounded? ==> v <= l.phase.kept)
    && name !in l.view && forall i :: 0 <= i < |l.replies| ==> AddsNot(l.replies[i], name)
  }

  /** As long as the node added at v is there, the listener misses it. */
  ghost predicate Misses(s: System, r: nat, v: nat, name: string)
  {
    && r in s.listeners && IsAdd(s.log, v) && s.log[v].info.name == name && name != ""
    && (Alive(s.log, v) ==> Past(s.listeners[r], v, name))
  }

  /** Behind a node that is alive no list adds its name. */
  lemma ListAddsNot(log: Log, v: nat, from: nat, to: nat)
    requires Wf(log) && Alive(log, v) && v < from && to <= |log| && log[v].info.name != ""
    ensures AddsNot(Compact(log, from, to), log[v].info.name)
  {
    var cmds := Compact(log, from, to);
    forall j | 0 <= j < |cmds| ensures cmds[j].name != log[v].info.name {
      var i := CompactOrigin(log, from, to, j);
      if log[i] != BLANK {
        OthersName(log, v, i);
      }
    }
  }

  lemma PastAdvance(log: Log, r: nat, l: Listener, move: Move, v: nat)
    requires Wf(log) && InRange(log, r, l) && Alive(log, v) && log[v].info.name != "" && Past(l, v, log[v].info.name)
    ensures Past(Advance(log, r, l, move), v, log[v].info.name)
  {
    match move
    case Poll => if l.phase.Bounded? { PastTold(log, l, v); }
    case Deliver => if l.replies != [] { PastDelivered(l, v, log[v].info.name); }
    case _ =>
  }

  lemma PastTold(log: Log, l: Listener, v: nat)
    requires Wf(log) && Alive(log, v) && log[v].info.name != "" && Past(l, v, log[v].info.name)
    requires l.phase.Bounded? && l.phase.kept < l.phase.bound < |log|
    ensures Past(Told(log, l, Idle(l.phase.bound), l.phase.kept + 1, l.phase.bound + 1), v, log[v].info.name)
  {
    ListAddsNot(log, v, l.phase.kept + 1, l.phase.bound + 1);
  }

  lemma PastDelivered(l: Listener, v: nat, name: string)
    requires Past(l, v, name) && l.replies != []
    ensures Past(l.(replies := l.replies[1..], view := Replay(l.view, l.replies[0]),
                    delivered := l.delivered + l.replies[0]), v, name)
  {
    ReplayAbsent(l.view, l.replies[0], name);
  }

  /** An addition stays where it is, and once deleted it stays deleted. */
  lemma EntryStays(s: System, step: Step, v: nat)
    requires Inv(s) && IsAdd(s.log, v)
    ensures IsAdd(Apply(s, step).log, v) && Apply(s, step).log[v].info == s.log[v].info
    ensures Alive(Apply(s, step).log, v) ==> Alive(s.log, v)
  {
    match step
    case Fill(w) => if w in s.waiting { EntryFilled(s, w, v); }
    case _ =>
  }

  lemma EntryFilled(s: System, w: nat, v: nat)
    requires Inv(s) && w in s.waiting && IsAdd(s.log, v)
    ensures var log := Filled(s, w).log;
      IsAdd(log, v) && log[v].info == s.log[v].info && (Alive(log, v) ==> Alive(s.log, v))
  {
    assert PendingOk(s, w, s.waiting[w]);
  }

  /** Nobody but the listener itself moves it on. */
  lemma ListenerAfter(s: System, step: Step, r: nat)
    requires Inv(s) && r in s.listeners
    ensures var s' := Apply(s, step);
      && r in s'.listeners
      && var l, l' := s.listeners[r], s'.listeners[r];
         || l' == l
         || l' == l.(phase := Leaving)
         || l' == l.(phase := Gone)
         || (step.At? && step.r == r && InRange(s.log, r, l) && l' == Advance(s.log, r, l, step.move))
  {
    assert ListenerInv(s.log, r, s.listeners[r]);
    match step
    case Fill(v) => if v in s.waiting { ListenerFilled(s, v, r); }
    case _ =>
  }

  lemma ListenerFilled(s: System, v: nat, r: nat)
    requires Inv(s) && v in s.waiting && r in s.listeners
    ensures var s' := Filled(s, v);
      r in s'.listeners && (s'.listeners[r] == s.listeners[r] || s'.listeners[r] == s.listeners[r].(phase := Gone))
  {
    assert PendingOk(s, v, s.waiting[v]);
    assert ListenerInv(s.log, r, s.listeners[r]);
  }

  lemma MissesStep(s: System, step: Step, r: nat, v: nat, name: string)
    requires Inv(s) && Misses(s, r, v, name)
    ensures Misses(Apply(s, step), r, v, name)
  {
    EntryStays(s, step, v);
    ListenerAfter(s, step, r);
    if Alive(s.log, v) && step.At? && step.r == r {
      assert ListenerInv(s.log, r, s.listeners[r]);
      PastAdvance(s.log, r, s.listeners[r], step.move, v);
    }
  }

  /** The state that further steps lead to. */
  ghost function RunFrom(s: System, more: seq<Step>): (t: System)
    requires Inv(s)
    ensures Inv(t)
    decreases |more|
  {
    if more == [] then s
    else
      ApplyKeeps(s, more[0]);
      RunFrom(Apply(s, more[0]), more[1..])
  }

  lemma RunFromNext(s: System, more: seq<Step>) returns (next: System)
    requires Inv(s) && more != []
    ensures next == Apply(s, more[0]) && Inv(next) && RunFrom(s, more) == RunFrom(next, more[1..])
  {
    ApplyKeeps(s, more[0]);
    next := Apply(s, more[0]);
  }

  lemma RunNext(steps: seq<Step>, step: Step, s: System, next: System)
    requires s == Run(steps) && next == Apply(s, step)
    ensures next == Run(steps + [step])
  {
    RunSnoc(steps, step);
  }

  lemma {:induction false} RunOn(s: System, steps: seq<Step>, more: seq<Step>) returns (t: System)
    requires s == Run(steps)
    ensures t == Run(steps + more) && t == RunFrom(s, more)
    decreases |more|
  {
    if more == [] {
      assert steps + more == steps;
      t := s;
    } else {
      var next := RunFromNext(s, more);
      RunNext(steps, more[0], s, next);
      Shift(steps, more);
      t := RunOn(next, steps + [more[0]], more[1..]);
    }
  }

  lemma {:induction false} MissesRun(s: System, more: seq<Step>, r: nat, v: nat, name: string)
    requires Inv(s) && Misses(s, r, v, name)
    ensures Misses(RunFrom(s, more), r, v, name)
    decreases |more|
  {
    if more != [] {
      var next := RunFromNext(s, more);
      MissesStep(s, more[0], r, v, name);
      MissesRun(next, more[1..], r, v, name);
    }
  }

  /** In every continuation of the run, a listener that misses a node misses it until it leaves. */
  lemma MissedForever(steps: seq<Step>, more: seq<Step>, r: nat, v: nat, name: string)
    requires Misses(Run(steps), r, v, name)
    ensures Misses(Run(steps + more), r, v, name)
  {
    var s := Run(steps);
    MissesRun(s, more, r, v, name);
    var t := RunOn(s, steps, more);
  }

  // ---------- News arrives ----------

  /** The handler of the call is still in its loop, or about to enter it. */
  predicate Listens(l: Listener)
  {
    l.phase.Joined? || l.phase.Idle? || l.phase.Bounded?
  }

  /** Twice what the listener was not told yet, one less if it has read the next bound. */
  function Behind(log: Log, l: Listener): int
  {
    match l.phase
    case Joined => 2 * |log| + 1
    case Idle(kept) => 2 * (|log| - kept - 1)
    case Bounded(kept, _) => 2 * (|log| - kept - 1) - 1
    case _ => 0
  }

  lemma NextMove(log: Log, r: nat, l: Listener) returns (move: Move)
    requires Wf(log) && ListenerInv(log, r, l) && Listens(l)
    ensures var l' := Advance(log, r, l, move);
      && Listens(l') && ListenerInv(log, r, l')
      && (AllFilled(log, 0, |log|) && !l.overran ==> !l'.overran)
      && (|| (l.phase.Idle? && l.phase.kept + 1 == |log| && l.replies == [])
          || 0 <= Behind(log, l') < Behind(log, l)
          || (Behind(log, l') == Behind(log, l) && |l'.replies| < |l.replies|))
  {
    move := match l.phase
            case Joined => FirstList
            case Bounded(_, _) => Poll
            case Idle(kept) => if kept + 1 < |log| then ReadBound else Deliver
            case _ => Deliver;
    AdvanceKeeps(log, r, l, move);
  }

  /** Only the listeners of the two states differ, and only in r. */
  predicate OnlyMoved(s: System, t: System, r: nat)
  {
    && t.log == s.log && t.alive == s.alive && t.waiting == s.waiting && t.listeners.Keys == s.listeners.Keys
    && forall q :: q in s.listeners && q != r ==> t.listeners[q] == s.listeners[q]
  }

  lemma RunFromCons(s: System, step: Step, next: System, rest: seq<Step>) returns (more: seq<Step>)
    requires Inv(s) && next == Apply(s, step) && Inv(next)
    ensures more == [step] + rest && RunFrom(s, more) == RunFrom(next, rest)
  {
    more := [step] + rest;
    assert more[1..] == rest;
    var n := RunFromNext(s, more);
  }

  /** From every state a listener that has not begun to leave catches up with the log by its own moves,
      and no list to it runs over a blank slot if the log has none. */
  lemma {:induction false} CatchesUp(s: System, r: nat) returns (more: seq<Step>, t: System)
    requires Inv(s) && r in s.listeners && Listens(s.listeners[r])
    ensures forall x :: x in more ==> x.At? && x.r == r
    ensures t == RunFrom(s, more) && Inv(t) && OnlyMoved(s, t, r) && CaughtUpAt(t, r)
    ensures AllFilled(s.log, 0, |s.log|) && !s.listeners[r].overran ==> !t.listeners[r].overran
    decreases Behind(s.log, s.listeners[r]), |s.listeners[r].replies|
  {
    if CaughtUpAt(s, r) {
      more, t := [], s;
    } else {
      var l := s.listeners[r];
      assert ListenerInv(s.log, r, l);
      var move := NextMove(s.log, r, l);
      var next := MovesOn(s, r, move);
      var rest;
      rest, t := CatchesUp(next, r);
      more := RunFromCons(s, At(r, move), next, rest);
    }
  }

  lemma MovesOn(s: System, r: nat, move: Move) returns (t: System)
    requires Inv(s) && r in s.listeners && InRange(s.log, r, s.listeners[r])
    ensures t == Apply(s, At(r, move)) && Inv(t) && OnlyMoved(s, t, r)
    ensures t.listeners[r] == Advance(s.log, r, s.listeners[r], move)
  {
    AtKeeps(s, r, move);
    t := Put(s, r, Advance(s.log, r, s.listeners[r], move));
  }

  lemma Put(s: System, r: nat, l: Listener) returns (t: System)
    requires r in s.listeners
    ensures t == s.(listeners := s.listeners[r := l]) && OnlyMoved(s, t, r) && t.listeners[r] == l
  {
    t := s.(listeners := s.listeners[r := l]);
  }

  /** A slot is blank exactly until what waits for it is filled in. */
  ghost predicate BlankWaits(s: System)
  {
    forall v :: 0 <= v < |s.log| ==> (s.log[v] == BLANK <==> v in s.waiting)
  }

  lemma {:induction false} BlankIffWaiting(steps: seq<Step>)
    ensures BlankWaits(Run(steps))
    decreases |steps|
  {
    if steps != [] {
      BlankIffWaiting(steps[..|steps| - 1]);
      BlankApply(Run(steps[..|steps| - 1]), steps[|steps| - 1]);
    }
  }

  lemma BlankApply(s: System, step: Step)
    requires Inv(s) && BlankWaits(s)
    ensures BlankWaits(Apply(s, step))
  {
    match step
    case Join(name, ip, port) => BlankHandedOut(s, Adding(name, ip, port), s.listeners);
    case Leave(r) =>
      if r in s.listeners { BlankHandedOut(s, Deleting(r), s.listeners[r := s.listeners[r].(phase := Leaving)]); }
    case Fill(v) => if v in s.waiting { BlankFilled(s, v); }
    case At(r, move) =>
  }

  lemma BlankHandedOut(s: System, p: Pending, listeners: map<nat, Listener>)
    requires BlankWaits(s)
    ensures BlankWaits(System(Allocate(s.log), s.alive, s.waiting[|s.log| := p], listeners))
  {
  }

  lemma BlankFilled(s: System, v: nat)
    requires Inv(s) && BlankWaits(s) && v in s.waiting
    ensures BlankWaits(Filled(s, v))
  {
    assert PendingOk(s, v, s.waiting[v]);
    var log := Filled(s, v).log;
    match s.waiting[v]
    case Adding(name, ip, port) =>
      assert log[v] != BLANK && forall w :: 0 <= w < |log| && w != v ==> log[w] == s.log[w];
    case Deleting(r) => BlankDeleted(s.log, v, r);
  }

  lemma BlankDeleted(log: Log, d: nat, r: nat)
    requires r < d < |log| && log[d] == BLANK && log[r] != BLANK
    ensures var log' := FillDelete(log, d, r);
      |log'| == |log| && forall w :: 0 <= w < |log| ==> (log'[w] == BLANK <==> w != d && log[w] == BLANK)
  {
  }

  /** Nothing waits, so that the log has no blank slot. */
  ghost predicate Quiet(s: System)
  {
    s.waiting == map[] && AllFilled(s.log, 0, |s.log|)
  }

  lemma TwoSteps(s: System, a: Step, mid: System, b: Step, t: System) returns (more: seq<Step>)
    requires Inv(s) && mid == Apply(s, a) && Inv(mid) && t == Apply(mid, b) && Inv(t)
    ensures more == [a, b] && RunFrom(s, more) == t
  {
    var one := RunFromCons(mid, b, t, []);
    more := RunFromCons(s, a, mid, [b]);
  }

  lemma GetsVersion(s: System, name: string, ip: string, port: nat) returns (t: System)
    requires Inv(s) && s.waiting == map[] && name !in s.alive
    ensures t == Apply(s, Join(name, ip, port)) && Inv(t)
    ensures t == s.(log := Allocate(s.log), waiting := map[|s.log| := Adding(name, ip, port)])
  {
    assert NameFree(s, name);
    ApplyKeeps(s, Join(name, ip, port));
    t := Apply(s, Join(name, ip, port));
  }

  /** A node joins under a name that is not there, and is registered. */
  lemma Joins(s: System, name: string, ip: string, port: nat) returns (more: seq<Step>, t: System)
    requires Inv(s) && Quiet(s) && name !in s.alive
    ensures t == RunFrom(s, more) && Inv(t) && Quiet(t) && |t.log| == |s.log| + 1 && t.alive == s.alive + {name}
    ensures Latest(t.log, |s.log|) && t.log[|s.log|].info == Info(ip, port, name, true)
    ensures t.listeners == s.listeners[|s.log| := NEWCOMER]
    ensures forall v :: 0 <= v < |s.log| ==> t.log[v] == s.log[v]
  {
    var v := |s.log|;
    var a := GetsVersion(s, name, ip, port);
    ApplyKeeps(a, Fill(v));
    t := Apply(a, Fill(v));
    LatestAdded(t.log, v);
    more := TwoSteps(s, Join(name, ip, port), a, Fill(v), t);
  }

  lemma LatestAdded(log: Log, a: nat)
    requires Wf(log) && Alive(log, a)
    ensures Latest(log, a)
  {
  }

  lemma GetsDeletion(s: System, q: nat) returns (t: System)
    requires Inv(s) && s.waiting == map[] && q in s.listeners
    requires s.listeners[q].phase.Idle? || s.listeners[q].phase.Bounded?
    ensures t == Apply(s, Leave(q)) && Inv(t) && Alive(s.log, q)
    ensures t == s.(log := Allocate(s.log), waiting := map[|s.log| := Deleting(q)],
                    listeners := s.listeners[q := s.listeners[q].(phase := Leaving)])
  {
    assert ListenerInv(s.log, q, s.listeners[q]);
    ApplyKeeps(s, Leave(q));
    t := Apply(s, Leave(q));
  }

  lemma Deletes(s: System, d: nat, q: nat) returns (t: System)
    requires Inv(s) && s.waiting == map[d := Deleting(q)] && q in s.listeners
    requires d < |s.log| && forall v :: 0 <= v < |s.log| && v != d ==> s.log[v] != BLANK
    ensures t == Apply(s, Fill(d)) && Inv(t) && Quiet(t) && |t.log| == |s.log| && q < |s.log|
    ensures t.alive == s.alive - {s.log[q].info.name}
    ensures t.listeners == s.listeners[q := s.listeners[q].(phase := Gone)]
  {
    assert PendingOk(s, d, s.waiting[d]);
    ApplyKeeps(s, Fill(d));
    t := Apply(s, Fill(d));
    BlankDeleted(s.log, d, q);
  }

  /** The node registered at version q leaves. */
  lemma Leaves(s: System, q: nat) returns (more: seq<Step>, t: System)
    requires Inv(s) && Quiet(s) && q in s.listeners
    requires s.listeners[q].phase.Idle? || s.listeners[q].phase.Bounded?
    ensures t == RunFrom(s, more) && Inv(t) && Quiet(t) && IsAdd(s.log, q)
    ensures |t.log| == |s.log| + 1 && t.alive == s.alive - {s.log[q].info.name}
    ensures t.listeners == s.listeners[q := s.listeners[q].(phase := Gone)]
  {
    var a := GetsDeletion(s, q);
    t := Deletes(a, |s.log|, q);
    LeavesAndGoes(s.listeners, q);
    more := TwoSteps(s, Leave(q), a, Fill(|s.log|), t);
  }

  lemma LeavesAndGoes(m: map<nat, Listener>, q: nat)
    requires q in m
    ensures var n := m[q := m[q].(phase := Leaving)];
      n[q := n[q].(phase := Gone)] == m[q := m[q].(phase := Gone)]
  {
  }

  /** Two pieces of a run in a row. */
  lemma Then(steps: seq<Step>, more: seq<Step>, t: System, rest: seq<Step>, u: System)
    requires t == RunFrom(Run(steps), more) && u == RunFrom(t, rest)
    ensures u == Run(steps + (more + rest))
  {
    var t' := RunOn(Run(steps), steps, more);
    var u' := RunOn(t, steps + more, rest);
    Assoc(steps, more, rest);
  }

  lemma Quietness(steps: seq<Step>) returns (s: System)
    ensures s == Run(steps) && (s.waiting == map[] ==> Quiet(s))
  {
    BlankIffWaiting(steps);
    s := Run(steps);
  }

  /** After every run in which nothing waits: a node joins, and a listener that no list overran learns
      its name and address. */
  lemma ArrivalIsLearnt(steps: seq<Step>, r: nat, name: string, ip: string, port: nat) returns (more: seq<Step>)
    requires var s := Run(steps);
      s.waiting == map[] && name !in s.alive && r in s.listeners && Listens(s.listeners[r]) && !s.listeners[r].overran
    ensures var s := Run(steps + more);
      && CaughtUpAt(s, r) && s.alive == Run(steps).alive + {name}
      && name in s.listeners[r].view && s.listeners[r].view[name] == (ip, port)
  {
    var s := Quietness(steps);
    var joins, t := Joins(s, name, ip, port);
    OwnName(s, r, name);
    var rest, u := CatchesUp(t, r);
    Then(steps, joins, t, rest, u);
    more := joins + rest;
    ConvergedState(u, r);
    LatestOnly(u, r, |s.log|, name);
  }

  /** A name that is not there is not the listener's own. */
  lemma OwnName(s: System, r: nat, name: string)
    requires Inv(s) && r in s.listeners && Listens(s.listeners[r]) && name !in s.alive
    ensures IsAdd(s.log, r) && s.log[r].info.name != name && r < |s.log|
  {
    assert ListenerInv(s.log, r, s.listeners[r]);
    assert NameAlive(s.log, s.log[r].info.name);
  }

  lemma LatestOnly(u: System, r: nat, v: nat, name: string)
    requires r in u.listeners && Converged(u, r) && name in u.listeners[r].view
    requires Latest(u.log, v) && u.log[v].info.name == name
    ensures u.listeners[r].view[name] == u.log[v].info.Addr()
  {
    var a :| Latest(u.log, a) && u.log[a].info.name == name && u.listeners[r].view[name] == u.log[a].info.Addr();
  }

  /** And when a node leaves, such a listener forgets it. */
  lemma DepartureIsLearnt(steps: seq<Step>, r: nat, q: nat) returns (more: seq<Step>)
    requires var s := Run(steps);
      && s.waiting == map[] && q in s.listeners && (s.listeners[q].phase.Idle? || s.listeners[q].phase.Bounded?)
      && r != q && r in s.listeners && Listens(s.listeners[r]) && !s.listeners[r].overran
    ensures IsAdd(Run(steps).log, q)
    ensures var s, name := Run(steps + more), Run(steps).log[q].info.name;
      CaughtUpAt(s, r) && s.alive == Run(steps).alive - {name} && name !in s.listeners[r].view
  {
    var s := Quietness(steps);
    var leaves, t := Leaves(s, q);
    var rest, u := CatchesUp(t, r);
    Then(steps, leaves, t, rest, u);
    more := leaves + rest;
    ConvergedState(u, r);
  }

  /** Two nodes get versions 0 and 1, and the second is registered first. */
  lemma TwoJoin(a: string, b: string) returns (steps: seq<Step>)
    requires a != b
    ensures Run(steps) == System([BLANK, AddOf(b)], {b}, map[0 := Adding(a, "", 0)], map[1 := NEWCOMER])
  {
    RunSnoc([], Join(a, "", 0));
    FirstJoin(Run([]), a);
    var one := [] + [Join(a, "", 0)];
    RunSnoc(one, Join(b, "", 0));
    SecondJoin(Run(one), a, b);
    var two := one + [Join(b, "", 0)];
    RunSnoc(two, Fill(1));
    SecondFill(Run(two), a, b);
    steps := two + [Fill(1)];
  }

  function AddOf(name: string): Entry
  {
    Entry(-1, Info("", 0, name, true))
  }

  lemma FirstJoin(s: System, a: string)
    requires Inv(s) && s == START
    ensures Apply(s, Join(a, "", 0)) == System([BLANK], {}, map[0 := Adding(a, "", 0)], map[])
  {
  }

  lemma SecondJoin(s: System, a: string, b: string)
    requires a != b && Inv(s) && s == System([BLANK], {}, map[0 := Adding(a, "", 0)], map[])
    ensures Apply(s, Join(b, "", 0))
         == System([BLANK, BLANK], {}, map[0 := Adding(a, "", 0), 1 := Adding(b, "", 0)], map[])
  {
    assert NameFree(s, b);
  }

  lemma SecondFill(s: System, a: string, b: string)
    requires Inv(s) && s == System([BLANK, BLANK], {}, map[0 := Adding(a, "", 0), 1 := Adding(b, "", 0)], map[])
    ensures Apply(s, Fill(1)) == System([BLANK, AddOf(b)], {b}, map[0 := Adding(a, "", 0)], map[1 := NEWCOMER])
  {
    assert s.waiting - {1} == map[0 := Adding(a, "", 0)];
    assert {} + {b} == {b};
  }

  lemma ListOverBlank(s: System, a: string, b: string)
    requires Inv(s) && s == System([BLANK, AddOf(b)], {b}, map[0 := Adding(a, "", 0)], map[1 := NEWCOMER])
    ensures Apply(s, At(1, FirstList))
         == s.(listeners := map[1 := Listener(Idle(1), [[BLANK.info]], map[], [], true)])
  {
    var log := s.log;
    assert Kept(log, 0, 0) && Compact(log, 0, 0) == [];
    assert Compact(log, 0, 1) == [BLANK.info];
    assert log[0] == BLANK && !AllFilled(log, 0, 1);
    assert Advance(log, 1, NEWCOMER, FirstList) == Listener(Idle(1), [[BLANK.info]], map[], [], true);
  }

  lemma DeliverBlank(s: System, b: string)
    requires Inv(s) && s.listeners == map[1 := Listener(Idle(1), [[BLANK.info]], map[], [], true)]
    ensures Apply(s, At(1, Deliver))
         == s.(listeners := map[1 := Listener(Idle(1), [], map["" := ("", 0)], [BLANK.info], true)])
  {
    var list := [BLANK.info];
    assert list[..0] == [] && Replay(map[], list) == map["" := ("", 0)];
    var replies: seq<seq<Info>> := [list];
    assert replies[1..] == [];
    var l := s.listeners[1];
    assert InRange(s.log, 1, l);
    assert Advance(s.log, 1, l, Deliver) == Listener(Idle(1), [], map["" := ("", 0)], [BLANK.info], true);
  }

  lemma FirstFill(s: System, a: string, b: string)
    requires Inv(s) && s.log == [BLANK, AddOf(b)] && s.waiting == map[0 := Adding(a, "", 0)]
    requires s.listeners == map[1 := Listener(Idle(1), [], map["" := ("", 0)], [BLANK.info], true)] && a != ""
    ensures var s' := Apply(s, Fill(0));
      CaughtUpAt(s', 1) && Alive(s'.log, 0) && a in s'.alive && Misses(s', 1, 0, a) && "" in s'.listeners[1].view
  {
  }

  /** The second node is listed the blank slot of the first. */
  lemma ReadsBlank(a: string, b: string) returns (steps: seq<Step>)
    requires a != b
    ensures Run(steps) == System([BLANK, AddOf(b)], {b}, map[0 := Adding(a, "", 0)],
                                 map[1 := Listener(Idle(1), [], map["" := ("", 0)], [BLANK.info], true)])
  {
    var joined := TwoJoin(a, b);
    RunSnoc(joined, At(1, FirstList));
    ListOverBlank(Run(joined), a, b);
    var told := joined + [At(1, FirstList)];
    RunSnoc(told, At(1, Deliver));
    DeliverBlank(Run(told), b);
    steps := told + [At(1, Deliver)];
  }

  /** A run in which it happens: the second node was listed the blank slot of the first, is caught up, and
      misses the first, which is alive; by `MissedForever` it does so until that one leaves. */
  lemma OverrunMissesNode(a: string, b: string) returns (steps: seq<Step>)
    requires a != b && a != "" && b != ""
    ensures CaughtUpAt(Run(steps), 1) && Alive(Run(steps).log, 0) && a in Run(steps).alive
    ensures Misses(Run(steps), 1, 0, a) && "" in Run(steps).listeners[1].view
  {
    var read := ReadsBlank(a, b);
    RunSnoc(read, Fill(0));
    FirstFill(Run(read), a, b);
    steps := read + [Fill(0)];
  }

  /** Why `ConvergedIffNoOverrun` is about nodes with names: a node without one looks like its own blank
      slot, so that the overrun does no harm. */
  lemma NamelessNodeHidesOverrun(b: string) returns (steps: seq<Step>)
    requires b != ""
    ensures CaughtUpAt(Run(steps), 1) && Run(steps).listeners[1].overran && Converged(Run(steps), 1)
  {
    var read := ReadsBlank("", b);
    RunSnoc(read, Fill(0));
    NamelessFill(Run(read), b);
    steps := read + [Fill(0)];
  }

  lemma NamelessFill(s: System, b: string)
    requires Inv(s) && b != ""
    requires s == System([BLANK, AddOf(b)], {b}, map[0 := Adding("", "", 0)],
                         map[1 := Listener(Idle(1), [], map["" := ("", 0)], [BLANK.info], true)])
    ensures var s' := Apply(s, Fill(0)); CaughtUpAt(s', 1) && s'.listeners[1].overran && Converged(s', 1)
  {
    var s' := Apply(s, Fill(0));
    assert s'.log == [AddOf(""), AddOf(b)] && s'.alive == {b} + {""};
    assert Latest(s'.log, 0);
  }
}
