/**
 From the registrar to the peers: a node turns the commands it reads, one by one, into clients added to
 its club or removed from it, while its own threads make requests. The master, its listeners and the
 nodes behind them are one system whose steps interleave freely.
 */
module NodeHandlers {
  import opened Wrappers
  import opened Sequences
  import opened RegistryLog
  import Discovery
  import R = Rendezvous

  function Digits(n: nat): string
  {
    if n < 10 then [['0', '1', '2', '3', '4', '5', '6', '7', '8', '9'][n]] else Digits(n / 10) + Digits(n % 10)
  }

  function Endpoint(a: Address): string
  {
    a.0 + ":" + Digits(a.1)
  }

  /** The number a decimal numeral stands for. */
  function Number(digits: string): (n: int)
  {
    if digits == [] then 0
    else 10 * Number(digits[..|digits| - 1]) + (digits[|digits| - 1] as int - '0' as int)
  }

  predicate Numeral(digits: string)
  {
    && digits != [] && (forall i :: 0 <= i < |digits| ==> '0' <= digits[i] <= '9')
    && (digits[0] == '0' ==> |digits| == 1)
  }

  /** A port is written as the decimal numeral, without leading zeros, that stands for it. */
  lemma {:induction false} DigitsAreDecimal(n: nat)
    ensures Numeral(Digits(n)) && Number(Digits(n)) == n && (n > 0 ==> Digits(n)[0] != '0')
    decreases n
  {
    if n < 10 {
      OneDigit(n);
    } else {
      DigitsAreDecimal(n / 10);
      OneDigit(n % 10);
      NumberSnoc(Digits(n / 10), Digits(n % 10));
    }
  }

  lemma OneDigit(n: nat)
    requires n < 10
    ensures |Digits(n)| == 1 && Digits(n)[0] as int - '0' as int == n && Number(Digits(n)) == n
  {
    assert Digits(n)[..0] == [];
  }

  lemma NumberSnoc(front: string, last: string)
    requires |last| == 1
    ensures Number(front + last) == 10 * Number(front) + (last[0] as int - '0' as int)
  {
    assert (front + last)[..|front|] == front;
  }

  /** The address a peer is connected to is its ip, a colon, and the port in decimal; so two peers with
      different addresses are reached at different ones, whatever their ips. */
  lemma EndpointIs(a: Address, b: Address)
    ensures Endpoint(a) == a.0 + ":" + Digits(a.1) && Numeral(Digits(a.1)) && Number(Digits(a.1)) == a.1
    ensures Endpoint(a) == Endpoint(b) <==> a == b
  {
    DigitsAreDecimal(a.1);
    DigitsAreDecimal(b.1);
    if Endpoint(a) == Endpoint(b) {
      var x, y := Digits(a.1), Digits(b.1);
      LastColon(a.0, x, b.0, y);
    }
  }

  /** The last colon splits a string in one way. */
  lemma LastColon(a: string, x: string, b: string, y: string)
    requires a + ":" + x == b + ":" + y && ':' !in x && ':' !in y
    ensures a == b && x == y
  {
    var s := a + ":" + x;
    assert s[|a|] == ':' && s[|b|] == ':';
    assert forall i :: |a| < i < |s| ==> s[i] == x[i - |a| - 1];
    assert forall i :: |b| < i < |s| ==> s[i] == y[i - |b| - 1];
    assert |a| == |b|;
    assert a == s[..|a|] && b == s[..|b|] && x == s[|a| + 1..] && y == s[|b| + 1..];
  }

  /** `regist_node` and `delete_node`. */
  function EventOf(cmd: Info): R.Event
  {
    if cmd.isAdd then R.Join(cmd.name, Endpoint(cmd.Addr())) else R.Leave(cmd.name)
  }

  function EventsOf(cmds: seq<Info>): (events: seq<R.Event>)
    ensures |events| == |cmds|
  {
    if cmds == [] then [] else EventsOf(cmds[..|cmds| - 1]) + [EventOf(cmds[|cmds| - 1])]
  }

  /** The comings and goings in a history. */
  function Moves(history: seq<R.Event>): seq<R.Event>
  {
    if history == [] then
      []
    else
      var last, before := history[|history| - 1], Moves(history[..|history| - 1]);
      if last.Ask? then before else before + [last]
  }

  /** Requests in between do not matter to who is there. */
  lemma {:induction false} PresentMoves(history: seq<R.Event>, p: string)
    ensures R.Present(history, p) == R.Present(Moves(history), p)
  {
    if history != [] {
      var last, before := history[|history| - 1], history[..|history| - 1];
      PresentMoves(before, p);
      if !last.Ask? {
        R.PresentSnoc(Moves(before), last, p);
      }
    }
  }

  /** The club holds what the node's view of the registry holds. */
  lemma {:induction false} PresentIsView(cmds: seq<Info>, p: string)
    ensures var v := Replay(map[], cmds);
      R.Present(EventsOf(cmds), p) == if p in v then Some(Endpoint(v[p])) else None
  {
    if cmds != [] {
      var before, last := cmds[..|cmds| - 1], cmds[|cmds| - 1];
      PresentIsView(before, p);
      R.PresentSnoc(EventsOf(before), EventOf(last), p);
      assert cmds == before + [last];
      ReplaySnoc(map[], before, last);
    }
  }

  // ---------- The whole system ----------

  /** A node: what its club has been through, and the commands of the reply it is working on. */
  datatype Node = Node(history: seq<R.Event>, todo: seq<Info>)

  /** Nodes are known by the version they register at, also before they do. */
  datatype World = World(master: Discovery.System, nodes: map<nat, Node>)

  datatype Step =
    | Master(step: Discovery.Step)
    | Act(r: nat)                  // the node applies the next command
    | Ask(r: nat, rpc: R.Rpc)      // one of its threads makes a request

  function NodeOf(w: World, r: nat): Node
  {
    if r in w.nodes then w.nodes[r] else Node([], [])
  }

  ghost function Apply(w: World, step: Step): (w': World)
    requires Discovery.Inv(w.master)
  {
    match step
    case Master(m) =>
      if m.At? && m.move.Deliver? && m.r in w.master.listeners then
        var replies := w.master.listeners[m.r].replies;
        if replies != [] && NodeOf(w, m.r).todo == [] then
          World(Discovery.Apply(w.master, m), w.nodes[m.r := NodeOf(w, m.r).(todo := replies[0])])
        else w
      else w.(master := Discovery.Apply(w.master, m))
    case Act(r) =>
      var n := NodeOf(w, r);
      if n.todo == [] then w
      else w.(nodes := w.nodes[r := Node(n.history + [EventOf(n.todo[0])], n.todo[1..])])
    case Ask(r, rpc) =>
      var n := NodeOf(w, r);
      w.(nodes := w.nodes[r := n.(history := n.history + [R.Ask(rpc)])])
  }

  ghost function Run(steps: seq<Step>): (w: World)
    ensures Inv(w)
  {
    if steps == [] then World(Discovery.START, map[])
    else
      var w := Run(steps[..|steps| - 1]);
      ApplyKeeps(w, steps[|steps| - 1]);
      Apply(w, steps[|steps| - 1])
  }

  ghost function Delivered(s: Discovery.System, r: nat): seq<Info>
  {
    if r in s.listeners then s.listeners[r].delivered else []
  }

  /** The club went through the commands that were delivered, up to those still to be applied. */
  ghost predicate Follows(delivered: seq<Info>, n: Node)
  {
    EventsOf(delivered) == Moves(n.history) + EventsOf(n.todo)
  }

  ghost predicate Inv(w: World)
  {
    Discovery.Inv(w.master) && forall r: nat :: Follows(Delivered(w.master, r), NodeOf(w, r))
  }

  lemma {:induction false} EventsConcat(a: seq<Info>, b: seq<Info>)
    ensures EventsOf(a + b) == EventsOf(a) + EventsOf(b)
    decreases |b|
  {
    if b == [] {
      assert a + b == a;
    } else {
      EventsConcat(a, b[..|b| - 1]);
      assert (a + b)[..|a + b| - 1] == a + b[..|b| - 1];
    }
  }

  lemma MovesSnoc(history: seq<R.Event>, e: R.Event)
    ensures Moves(history + [e]) == if e.Ask? then Moves(history) else Moves(history) + [e]
  {
    assert (history + [e])[..|history|] == history;
  }

  /** A slot that is filled with an addition had no listener. */
  lemma NoListenerYet(s: Discovery.System, v: nat)
    requires Discovery.Inv(s) && v in s.waiting
    ensures v !in s.listeners
  {
    assert Discovery.PendingOk(s, v, s.waiting[v]);
    assert !IsAdd(s.log, v);
    assert v in s.listeners ==> Discovery.ListenerInv(s.log, v, s.listeners[v]);
  }

  lemma FillDelivered(s: Discovery.System, v: nat, r: nat)
    requires Discovery.Inv(s) && v in s.waiting
    ensures Delivered(Discovery.Filled(s, v), r) == Delivered(s, r)
  {
    NoListenerYet(s, v);
    assert Discovery.PendingOk(s, v, s.waiting[v]);
  }

  lemma AdvanceDelivered(log: Log, r: nat, l: Discovery.Listener, move: Discovery.Move)
    requires Discovery.InRange(log, r, l)
    ensures var l' := Discovery.Advance(log, r, l, move);
      l'.delivered == if move.Deliver? && l.replies != [] then l.delivered + l.replies[0] else l.delivered
  {
  }

  /** Only a delivery adds to what was delivered. */
  lemma DeliveredAfter(s: Discovery.System, m: Discovery.Step, r: nat)
    requires Discovery.Inv(s)
    ensures Delivered(Discovery.Apply(s, m), r) ==
      if m.At? && m.move.Deliver? && m.r == r && r in s.listeners && s.listeners[r].replies != []
      then Delivered(s, r) + s.listeners[r].replies[0] else Delivered(s, r)
  {
    match m
    case Fill(v) => if v in s.waiting { FillDelivered(s, v, r); }
    case At(q, move) => if q in s.listeners { AtDelivered(s, q, move, r); }
    case _ =>
  }

  lemma AtDelivered(s: Discovery.System, q: nat, move: Discovery.Move, r: nat)
    requires Discovery.Inv(s) && q in s.listeners
    ensures Delivered(Discovery.Apply(s, Discovery.At(q, move)), r) ==
      if move.Deliver? && q == r && s.listeners[r].replies != []
      then Delivered(s, r) + s.listeners[r].replies[0] else Delivered(s, r)
  {
    assert Discovery.ListenerInv(s.log, q, s.listeners[q]);
    AdvanceDelivered(s.log, q, s.listeners[q], move);
  }

  lemma DeliverFollows(w: World, r: nat)
    requires Inv(w) && r in w.master.listeners && w.master.listeners[r].replies != [] && NodeOf(w, r).todo == []
    ensures Follows(Delivered(w.master, r) + w.master.listeners[r].replies[0],
                    NodeOf(w, r).(todo := w.master.listeners[r].replies[0]))
  {
    var n, more := NodeOf(w, r), w.master.listeners[r].replies[0];
    assert Follows(Delivered(w.master, r), n);
    EventsConcat(Delivered(w.master, r), more);
    assert Moves(n.history) + [] == Moves(n.history);
  }

  lemma ActFollows(delivered: seq<Info>, n: Node)
    requires Follows(delivered, n) && n.todo != []
    ensures Follows(delivered, Node(n.history + [EventOf(n.todo[0])], n.todo[1..]))
  {
    var e := EventOf(n.todo[0]);
    MovesSnoc(n.history, e);
    EventsFront(n.todo);
    Assoc(Moves(n.history), [e], EventsOf(n.todo[1..]));
  }

  lemma EventsFront(cmds: seq<Info>)
    requires cmds != []
    ensures EventsOf(cmds) == [EventOf(cmds[0])] + EventsOf(cmds[1..])
  {
    assert cmds == [cmds[0]] + cmds[1..];
    EventsConcat([cmds[0]], cmds[1..]);
    EventsOne(cmds[0]);
  }

  lemma EventsOne(cmd: Info)
    ensures EventsOf([cmd]) == [EventOf(cmd)]
  {
    assert [cmd][..0] == [];
  }

  lemma MasterKeeps(w: World, m: Discovery.Step)
    requires Inv(w)
    ensures Inv(Apply(w, Master(m)))
  {
    Discovery.ApplyKeeps(w.master, m);
    forall r: nat ensures Follows(Delivered(Apply(w, Master(m)).master, r), NodeOf(Apply(w, Master(m)), r)) {
      assert Follows(Delivered(w.master, r), NodeOf(w, r));
      DeliveredAfter(w.master, m, r);
      if Handed(w, m) && m.r == r {
        DeliverFollows(w, r);
      }
      NodeAfter(w, m, r);
    }
  }

  /** A reply is handed to a node that is done with the one before. */
  ghost predicate Handed(w: World, m: Discovery.Step)
  {
    && m.At? && m.move.Deliver? && m.r in w.master.listeners
    && w.master.listeners[m.r].replies != [] && NodeOf(w, m.r).todo == []
  }

  lemma NodeAfter(w: World, m: Discovery.Step, r: nat)
    requires Discovery.Inv(w.master)
    ensures var w' := Apply(w, Master(m));
      && (Handed(w, m) && m.r == r ==>
            && w'.master == Discovery.Apply(w.master, m)
            && NodeOf(w', r) == NodeOf(w, r).(todo := w.master.listeners[r].replies[0]))
      && (!(Handed(w, m) && m.r == r) ==> NodeOf(w', r) == NodeOf(w, r))
      && (w'.master == w.master || w'.master == Discovery.Apply(w.master, m))
      && (m.At? && m.move.Deliver? && m.r == r && !Handed(w, m) && r in w.master.listeners ==> w'.master == w.master)
  {
  }

  lemma ApplyKeeps(w: World, step: Step)
    requires Inv(w)
    ensures Inv(Apply(w, step))
  {
    match step
    case Master(m) => MasterKeeps(w, m);
    case Act(r) => if NodeOf(w, r).todo != [] { ActKeeps(w, r); }
    case Ask(r, rpc) => AskKeeps(w, r, rpc);
  }

  lemma ActKeeps(w: World, r: nat)
    requires Inv(w) && NodeOf(w, r).todo != []
    ensures Inv(Apply(w, Act(r)))
  {
    var n := NodeOf(w, r);
    assert Follows(Delivered(w.master, r), n);
    ActFollows(Delivered(w.master, r), n);
    NodeKeeps(w, r, Node(n.history + [EventOf(n.todo[0])], n.todo[1..]));
  }

  lemma AskKeeps(w: World, r: nat, rpc: R.Rpc)
    requires Inv(w)
    ensures Inv(Apply(w, Ask(r, rpc)))
  {
    var n := NodeOf(w, r);
    assert Follows(Delivered(w.master, r), n);
    MovesSnoc(n.history, R.Ask(rpc));
    NodeKeeps(w, r, n.(history := n.history + [R.Ask(rpc)]));
  }

  lemma NodeKeeps(w: World, r: nat, n: Node)
    requires Inv(w) && Follows(Delivered(w.master, r), n)
    ensures Inv(w.(nodes := w.nodes[r := n]))
  {
    var w' := w.(nodes := w.nodes[r := n]);
    forall q: nat ensures Follows(Delivered(w'.master, q), NodeOf(w', q)) {
      assert NodeOf(w', q) == if q == r then n else NodeOf(w, q);
    }
  }

  /** Nothing but its own requests gets into what a node's club was asked. */
  lemma {:induction false} RequestsRecorded(steps: seq<Step>, r: nat, rpc: R.Rpc)
    ensures multiset(NodeOf(Run(steps), r).history)[R.Ask(rpc)] == multiset(steps)[Ask(r, rpc)]
    decreases |steps|
  {
    if steps != [] {
      var init, s := steps[..|steps| - 1], steps[|steps| - 1];
      RequestsRecorded(init, r, rpc);
      assert steps == init + [s];
      RecordedNext(Run(init), s, r, rpc);
    }
  }

  /** What a step adds to the history of a node. */
  function Adds(n: Node, s: Step, r: nat): (more: seq<R.Event>)
  {
    if s == Act(r) && n.todo != [] then [EventOf(n.todo[0])]
    else if s.Ask? && s.r == r then [R.Ask(s.rpc)] else []
  }

  lemma HistoryAfter(w: World, s: Step, r: nat) returns (history: seq<R.Event>, more: seq<R.Event>)
    requires Inv(w)
    ensures history == NodeOf(w, r).history && NodeOf(Apply(w, s), r).history == history + more
    ensures more == Adds(NodeOf(w, r), s, r)
  {
    history, more := NodeOf(w, r).history, Adds(NodeOf(w, r), s, r);
    assert history + [] == history;
    match s
    case Master(m) => MasterHistory(w, m, r);
    case _ => OwnHistory(w, s, r);
  }

  lemma MasterHistory(w: World, m: Discovery.Step, r: nat)
    requires Inv(w)
    ensures NodeOf(Apply(w, Master(m)), r).history == NodeOf(w, r).history
  {
    NodeAfter(w, m, r);
  }

  lemma OwnHistory(w: World, s: Step, r: nat)
    requires Inv(w) && !s.Master?
    ensures NodeOf(Apply(w, s), r).history == NodeOf(w, r).history + Adds(NodeOf(w, r), s, r)
  {
    assert NodeOf(w, r).history + [] == NodeOf(w, r).history;
  }

  lemma RecordedNext(w: World, s: Step, r: nat, rpc: R.Rpc)
    requires Inv(w)
    ensures multiset(NodeOf(Apply(w, s), r).history)[R.Ask(rpc)]
         == multiset(NodeOf(w, r).history)[R.Ask(rpc)] + if s == Ask(r, rpc) then 1 else 0
  {
    var history, more := HistoryAfter(w, s, r);
    if more == [] {
      assert history + more == history;
    } else {
      OneMore(history, more[0], rpc);
      assert more == [more[0]];
    }
  }

  lemma OneMore(history: seq<R.Event>, e: R.Event, rpc: R.Rpc)
    ensures multiset(history + [e])[R.Ask(rpc)] == multiset(history)[R.Ask(rpc)] + if e == R.Ask(rpc) then 1 else 0
  {
  }

  /**
   In every run of the whole system: once a node is caught up, no list to it ran over a blank slot and it
   has applied what it read, its club has a client for exactly the other nodes that are alive, at the
   address of their latest registration, and each of these clients was sent every request exactly as
   often as it was made.
   */
  lemma PeersMeet(
    steps: seq<Step>, r: nat, clients: map<string, R.Peer>, topics: seq<R.Request>, services: seq<R.Request>)
    requires var w := Run(steps);
      && Discovery.CaughtUpAt(w.master, r) && !w.master.listeners[r].overran && NodeOf(w, r).todo == []
      && R.Reflects(NodeOf(w, r).history, clients, topics, services)
    ensures var w := Run(steps);
      && IsAdd(w.master.log, r)
      && (forall p :: p in clients <==> p in w.master.alive && p != w.master.log[r].info.name)
      && (forall p :: p in clients ==>
            exists a :: Latest(w.master.log, a) && Reaches(w.master.log, a, p, clients[p].address))
      && (forall p, rpc :: p in clients ==>
            multiset(clients[p].issued)[rpc] == multiset(steps)[Ask(r, rpc)])
  {
    var w := Run(steps);
    var history := NodeOf(w, r).history;
    PeersAre(w, r, clients, topics, services);
    forall p, rpc | p in clients ensures multiset(clients[p].issued)[rpc] == multiset(steps)[Ask(r, rpc)] {
      RequestsRecorded(steps, r, rpc);
      R.EachPeerSentEachRequestOnce(history, clients, topics, services, p, rpc);
    }
  }

  lemma PeersAre(w: World, r: nat, clients: map<string, R.Peer>, topics: seq<R.Request>, services: seq<R.Request>)
    requires Inv(w) && Discovery.CaughtUpAt(w.master, r) && !w.master.listeners[r].overran && NodeOf(w, r).todo == []
    requires R.Reflects(NodeOf(w, r).history, clients, topics, services)
    ensures IsAdd(w.master.log, r)
    ensures forall p :: p in clients <==> p in w.master.alive && p != w.master.log[r].info.name
    ensures forall p :: p in clients ==>
      exists a :: Latest(w.master.log, a) && Reaches(w.master.log, a, p, clients[p].address)
  {
    var log, view := w.master.log, w.master.listeners[r].view;
    Discovery.ConvergedState(w.master, r);
    forall p ensures R.Present(NodeOf(w, r).history, p) == if p in view then Some(Endpoint(view[p])) else None {
      ClubIsView(w, r, p);
    }
    forall p | p in clients ensures exists a :: Latest(log, a) && Reaches(log, a, p, clients[p].address) {
      assert p in view;
      var a :| Latest(log, a) && log[a].info.name == p && view[p] == log[a].info.Addr();
      assert Reaches(log, a, p, clients[p].address);
    }
  }

  lemma ClubIsView(w: World, r: nat, p: string)
    requires Inv(w) && r in w.master.listeners && NodeOf(w, r).todo == []
    ensures var view := w.master.listeners[r].view;
      R.Present(NodeOf(w, r).history, p) == if p in view then Some(Endpoint(view[p])) else None
  {
    var l, n := w.master.listeners[r], NodeOf(w, r);
    assert Discovery.ListenerInv(w.master.log, r, l);
    assert Follows(Delivered(w.master, r), n);
    assert Moves(n.history) + [] == Moves(n.history);
    PresentMoves(n.history, p);
    PresentIsView(l.delivered, p);
  }

  /** The node added at version a has this name and is connected to at this address. */
  ghost predicate Reaches(log: Log, a: int, name: string, address: string)
  {
    0 <= a < |log| && log[a].info.name == name && Endpoint(log[a].info.Addr()) == address
  }

  // ---------- Every node gets there ----------

  ghost function RunFrom(w: World, more: seq<Step>): (x: World)
    requires Inv(w)
    ensures Inv(x)
    decreases |more|
  {
    if more == [] then w
    else
      ApplyKeeps(w, more[0]);
      RunFrom(Apply(w, more[0]), more[1..])
  }

  lemma RunFromCons(w: World, step: Step, next: World, rest: seq<Step>) returns (more: seq<Step>)
    requires Inv(w) && next == Apply(w, step) && Inv(next)
    ensures more == [step] + rest && RunFrom(w, more) == RunFrom(next, rest)
  {
    more := [step] + rest;
    assert more[1..] == rest;
  }

  lemma RunNext(steps: seq<Step>, step: Step, w: World, next: World)
    requires w == Run(steps) && next == Apply(w, step)
    ensures next == Run(steps + [step])
  {
    assert (steps + [step])[..|steps|] == steps;
  }

  lemma RunFromNext(w: World, more: seq<Step>) returns (next: World)
    requires Inv(w) && more != []
    ensures next == Apply(w, more[0]) && Inv(next) && RunFrom(w, more) == RunFrom(next, more[1..])
  {
    ApplyKeeps(w, more[0]);
    next := Apply(w, more[0]);
  }

  lemma {:induction false} RunOn(w: World, steps: seq<Step>, more: seq<Step>) returns (x: World)
    requires w == Run(steps)
    ensures x == Run(steps + more) && x == RunFrom(w, more)
    decreases |more|
  {
    if more == [] {
      assert steps + more == steps;
      x := w;
    } else {
      var next := RunFromNext(w, more);
      RunNext(steps, more[0], w, next);
      Shift(steps, more);
      x := RunOn(next, steps + [more[0]], more[1..]);
    }
  }

  /** The node applies the next command. */
  lemma Acts(w: World, r: nat) returns (x: World)
    requires Inv(w) && NodeOf(w, r).todo != []
    ensures x == Apply(w, Act(r)) && Inv(x) && x.master == w.master
    ensures NodeOf(x, r).todo == NodeOf(w, r).todo[1..]
    ensures forall q: nat :: q != r ==> NodeOf(x, q) == NodeOf(w, q)
  {
    ApplyKeeps(w, Act(r));
    x := Apply(w, Act(r));
  }

  /** The master answers the node, or the node, done with its work, takes the next reply. */
  lemma Moved(w: World, r: nat, move: Discovery.Move) returns (x: World)
    requires Inv(w) && r in w.master.listeners && NodeOf(w, r).todo == []
    requires move.Deliver? ==> w.master.listeners[r].replies != []
    ensures x == Apply(w, Master(Discovery.At(r, move))) && Inv(x)
    ensures Discovery.InRange(w.master.log, r, w.master.listeners[r]) && Discovery.OnlyMoved(w.master, x.master, r)
    ensures x.master.listeners[r] == Discovery.Advance(w.master.log, r, w.master.listeners[r], move)
    ensures forall q: nat :: q != r ==> NodeOf(x, q) == NodeOf(w, q)
  {
    assert Discovery.ListenerInv(w.master.log, r, w.master.listeners[r]);
    var m := Discovery.MovesOn(w.master, r, move);
    ApplyKeeps(w, Master(Discovery.At(r, move)));
    x := Apply(w, Master(Discovery.At(r, move)));
  }

  /** Nobody else is touched, and a log without blank slots overruns nobody. */
  ghost predicate Beside(w: World, x: World, r: nat)
    requires r in w.master.listeners
  {
    && Discovery.OnlyMoved(w.master, x.master, r) && (forall q: nat :: q != r ==> NodeOf(x, q) == NodeOf(w, q))
    && (AllFilled(w.master.log, 0, |w.master.log|) && !w.master.listeners[r].overran ==>
          !x.master.listeners[r].overran)
  }

  ghost predicate Listening(w: World, r: nat)
  {
    r in w.master.listeners && Discovery.Listens(w.master.listeners[r])
  }

  ghost predicate Done(w: World, r: nat)
  {
    Discovery.CaughtUpAt(w.master, r) && NodeOf(w, r).todo == []
  }

  predicate OwnStep(step: Step, r: nat)
  {
    step == Act(r) || (step.Master? && step.step.At? && step.step.r == r)
  }

  function Distance(w: World, r: nat): (int, nat, nat)
    requires r in w.master.listeners
  {
    var l := w.master.listeners[r];
    (Discovery.Behind(w.master.log, l), |l.replies|, |NodeOf(w, r).todo|)
  }

  predicate Nearer(a: (int, nat, nat), b: (int, nat, nat))
  {
    0 <= a.0 < b.0 || (a.0 == b.0 && (a.1 < b.1 || (a.1 == b.1 && a.2 < b.2)))
  }

  lemma ActsNext(w: World, r: nat) returns (x: World)
    requires Inv(w) && Listening(w, r) && NodeOf(w, r).todo != []
    ensures x == Apply(w, Act(r)) && Inv(x)
    ensures Beside(w, x, r) && Listening(x, r) && Nearer(Distance(x, r), Distance(w, r))
  {
    x := Acts(w, r);
    assert |NodeOf(x, r).todo| < |NodeOf(w, r).todo|;
  }

  lemma MovesNext(w: World, r: nat) returns (move: Discovery.Move, x: World)
    requires Inv(w) && Listening(w, r) && NodeOf(w, r).todo == [] && !Done(w, r)
    ensures x == Apply(w, Master(Discovery.At(r, move))) && Inv(x)
    ensures Beside(w, x, r) && Listening(x, r) && Nearer(Distance(x, r), Distance(w, r))
  {
    move := NextOf(w.master, r);
    x := Moved(w, r, move);
  }

  lemma NextOf(s: Discovery.System, r: nat) returns (move: Discovery.Move)
    requires Discovery.Inv(s) && r in s.listeners && Discovery.Listens(s.listeners[r]) && !Discovery.CaughtUpAt(s, r)
    ensures Discovery.InRange(s.log, r, s.listeners[r]) && (move.Deliver? ==> s.listeners[r].replies != [])
    ensures var l := s.listeners[r]; var l' := Discovery.Advance(s.log, r, l, move);
      && Discovery.Listens(l') && (AllFilled(s.log, 0, |s.log|) && !l.overran ==> !l'.overran)
      && (|| 0 <= Discovery.Behind(s.log, l') < Discovery.Behind(s.log, l)
          || (Discovery.Behind(s.log, l') == Discovery.Behind(s.log, l) && |l'.replies| < |l.replies|))
  {
    assert Discovery.ListenerInv(s.log, r, s.listeners[r]);
    move := Discovery.NextMove(s.log, r, s.listeners[r]);
  }

  lemma OwnNext(w: World, r: nat) returns (step: Step, x: World)
    requires Inv(w) && Listening(w, r) && !Done(w, r)
    ensures OwnStep(step, r) && x == Apply(w, step) && Inv(x)
    ensures Beside(w, x, r) && Listening(x, r) && Nearer(Distance(x, r), Distance(w, r))
  {
    if NodeOf(w, r).todo != [] {
      x := ActsNext(w, r);
      step := Act(r);
    } else {
      var move;
      move, x := MovesNext(w, r);
      step := Master(Discovery.At(r, move));
    }
  }

  /** From every state a node that has not begun to leave catches up and applies all it was told, by its
      own steps and those of its handler. */
  lemma {:induction false} CatchesUp(w: World, r: nat) returns (more: seq<Step>, x: World)
    requires Inv(w) && Listening(w, r)
    ensures forall s :: s in more ==> OwnStep(s, r)
    ensures x == RunFrom(w, more) && Inv(x) && Beside(w, x, r) && Done(x, r)
    decreases Distance(w, r).0, Distance(w, r).1, Distance(w, r).2
  {
    if Done(w, r) {
      more, x := [], w;
    } else {
      var step, next := OwnNext(w, r);
      var rest;
      rest, x := CatchesUp(next, r);
      more := RunFromCons(w, step, next, rest);
    }
  }

  lemma {:induction false} BlankWaits(steps: seq<Step>)
    ensures Discovery.BlankWaits(Run(steps).master)
    decreases |steps|
  {
    if steps != [] {
      var w, s := Run(steps[..|steps| - 1]), steps[|steps| - 1];
      BlankWaits(steps[..|steps| - 1]);
      if s.Master? {
        Discovery.BlankApply(w.master, s.step);
      }
    }
  }

  /** After every run in which nothing waits, a node that no list overran can come to meet its peers, as
      `PeersMeet` says, without anybody else's doing. */
  lemma MeetsAll(steps: seq<Step>, r: nat) returns (more: seq<Step>)
    requires var s := Run(steps).master;
      s.waiting == map[] && r in s.listeners && Discovery.Listens(s.listeners[r]) && !s.listeners[r].overran
    ensures var x := Run(steps + more);
      && Discovery.CaughtUpAt(x.master, r) && !x.master.listeners[r].overran && NodeOf(x, r).todo == []
      && x.master.alive == Run(steps).master.alive && x.master.log == Run(steps).master.log
      && (forall p :: R.Present(NodeOf(x, r).history, p).Some? <==>
            p in x.master.alive && IsAdd(x.master.log, r) && p != x.master.log[r].info.name)
  {
    var w := Run(steps);
    BlankWaits(steps);
    var x;
    more, x := CatchesUp(w, r);
    var x' := RunOn(w, steps, more);
    Discovery.ConvergedState(x.master, r);
    forall p
      ensures R.Present(NodeOf(x, r).history, p).Some? <==>
        p in x.master.alive && IsAdd(x.master.log, r) && p != x.master.log[r].info.name
    {
      ClubIsView(x, r, p);
    }
  }
}
