/**
 The parameters of other nodes, as a node sees them. For every peer there is a client, and in it a slot
 and a reader per parameter asked for. A callback asked for is remembered by the club, so that it is
 asked for again when the peer comes back.
 */
module ParamClub {
  import opened Wrappers
  import ParamWatch

  type Reply<V> = ParamWatch.Reply<V>

  /** A callback is known by its number. */
  type Callback = nat

  datatype Slot<V> = Slot(callback: Option<Callback>, data: Reply<V>)

  /** One incarnation of a peer's client: its slots, and the readers started, oldest first. */
  datatype Client<V> = Client(slots: map<string, Slot<V>>, readers: seq<string>)

  datatype Wish = Wish(name: string, callback: Callback)

  datatype Event<V> =
    | AddClient(node: string)
    | DeleteClient(node: string)
    | Watch(node: string, name: string, callback: Callback)
    | Get(node: string, name: string)
    | Arrive(node: string, name: string, reply: Reply<V>)

  // ------------------------------------------------------------------ one client

  /** `ParamRPCClient::getRemoteParam`: a slot that exists keeps its reader; a callback always gets a
      slot of its own. */
  function Ask<V>(c: Client<V>, name: string, callback: Option<Callback>): Client<V>
  {
    var renewed := Slot(callback, ParamWatch.NotAvailable);
    if name in c.slots then
      if callback.Some? then c.(slots := c.slots[name := renewed]) else c
    else
      Client(c.slots[name := renewed], c.readers + [name])
  }

  /** The reader of `name` got a reply. */
  function Store<V>(c: Client<V>, name: string, reply: Reply<V>): Client<V>
  {
    if name in c.slots then c.(slots := c.slots[name := c.slots[name].(data := reply)]) else c
  }

  /** Each slot has one reader. */
  ghost predicate OneReader<V>(c: Client<V>)
  {
    && (forall n :: n in c.slots <==> n in c.readers)
    && (forall i, j :: 0 <= i < j < |c.readers| ==> c.readers[i] != c.readers[j])
  }

  lemma AskKeepsReaders<V>(c: Client<V>, name: string, callback: Option<Callback>)
    requires OneReader(c)
    ensures OneReader(Ask(c, name, callback)) && c.readers <= Ask(c, name, callback).readers
  {
  }

  // ------------------------------------------------------------------ what a history says

  /** Whether a client of the node is there: it was added and not deleted since. */
  predicate Present<V>(history: seq<Event<V>>, node: string)
  {
    history != [] &&
    var last := history[|history| - 1];
    if last.AddClient? && last.node == node then true
    else if last.DeleteClient? && last.node == node then false
    else Present(history[..|history| - 1], node)
  }

  /** The callback most recently asked for. */
  function Latest<V>(history: seq<Event<V>>, node: string, name: string): Option<Callback>
  {
    if history == [] then
      None
    else
      var last := history[|history| - 1];
      if last.Watch? && last.node == node && last.name == name then Some(last.callback)
      else Latest(history[..|history| - 1], node, name)
  }

  /** Whether the parameter was asked for, with a callback ever or without one in this incarnation. */
  predicate Wanted<V>(history: seq<Event<V>>, node: string, name: string)
  {
    Latest(history, node, name).Some? || Peeked(history, node, name)
  }

  predicate Peeked<V>(history: seq<Event<V>>, node: string, name: string)
  {
    history != [] &&
    var last := history[|history| - 1];
    if last.AddClient? && last.node == node then false
    else if last.Get? && last.node == node && last.name == name then true
    else Peeked(history[..|history| - 1], node, name)
  }

  /** The last reply that came after the client was added and after the callback was last asked for. */
  function Newest<V>(history: seq<Event<V>>, node: string, name: string): Reply<V>
  {
    if history == [] then
      ParamWatch.NotAvailable
    else
      var last := history[|history| - 1];
      if last.node != node || last.DeleteClient? then Newest(history[..|history| - 1], node, name)
      else if last.AddClient? then ParamWatch.NotAvailable
      else if last.name != name then Newest(history[..|history| - 1], node, name)
      else if last.Watch? then ParamWatch.NotAvailable
      else if last.Arrive? then last.reply
      else Newest(history[..|history| - 1], node, name)
  }

  /** The history says that the callback was asked for, and none was later. */
  lemma {:induction false} LatestIff<V>(history: seq<Event<V>>, node: string, name: string, callback: Callback)
    ensures Latest(history, node, name) == Some(callback) <==>
      exists i :: 0 <= i < |history| && history[i] == Watch(node, name, callback) && NotWatched(history, node, name, i)
  {
    if history != [] {
      var n := |history| - 1;
      var last, before := history[n], history[..n];
      LatestIff(before, node, name, callback);
      if last.Watch? && last.node == node && last.name == name {
        assert NotWatched(history, node, name, n);
      } else {
        forall i | 0 <= i < n ensures NotWatched(history, node, name, i) <==> NotWatched(before, node, name, i) {
        }
      }
    }
  }

  /** Nobody asks for the parameter with a callback behind event i. */
  predicate NotWatched<V>(history: seq<Event<V>>, node: string, name: string, i: int)
  {
    forall j :: i < j < |history| && j >= 0 ==>
      !(history[j].Watch? && history[j].node == node && history[j].name == name)
  }

  /** The client is there exactly when the node was added and not deleted since. */
  lemma {:induction false} PresentIff<V>(history: seq<Event<V>>, node: string)
    ensures Present(history, node) <==>
      exists i :: 0 <= i < |history| && history[i] == AddClient(node) && NotDeleted(history, node, i)
  {
    if history != [] {
      var n := |history| - 1;
      var last, before := history[n], history[..n];
      PresentIff(before, node);
      if last == AddClient(node) {
        assert NotDeleted(history, node, n);
      } else if !last.DeleteClient? || last.node != node {
        forall i | 0 <= i < n ensures NotDeleted(history, node, i) <==> NotDeleted(before, node, i) {
        }
      }
    }
  }

  predicate NotDeleted<V>(history: seq<Event<V>>, node: string, i: int)
  {
    forall j :: i < j < |history| && j >= 0 ==> history[j] != DeleteClient(node)
  }

  /** A reply is the newest exactly when it came and nothing since has taken its place: no later reply, no
      callback asked for, no new client. */
  lemma {:induction false} NewestIff<V>(history: seq<Event<V>>, node: string, name: string, reply: Reply<V>)
    requires reply.Normal?
    ensures Newest(history, node, name) == reply <==>
      exists i :: 0 <= i < |history| && history[i] == Arrive(node, name, reply) && NotReplaced(history, node, name, i)
  {
    if history != [] {
      var n := |history| - 1;
      var last, before := history[n], history[..n];
      NewestIff(before, node, name, reply);
      if Replaces(last, node, name) {
        assert NotReplaced(history, node, name, n);
      } else {
        forall i | 0 <= i < n ensures NotReplaced(history, node, name, i) <==> NotReplaced(before, node, name, i) {
        }
      }
    }
  }

  predicate Replaces<V>(e: Event<V>, node: string, name: string)
  {
    e.node == node && (e.AddClient? || ((e.Watch? || e.Arrive?) && e.name == name))
  }

  predicate NotReplaced<V>(history: seq<Event<V>>, node: string, name: string, i: int)
  {
    forall j :: i < j < |history| && j >= 0 ==> !Replaces(history[j], node, name)
  }

  /** Replies come only to readers there are. */
  predicate Legal<V>(history: seq<Event<V>>)
  {
    history == [] ||
    var last, before := history[|history| - 1], history[..|history| - 1];
    Legal(before) && (last.Arrive? ==> Present(before, last.node) && Wanted(before, last.node, last.name))
  }

  /** A slot is what the history says of it. */
  ghost predicate SlotOk<V>(history: seq<Event<V>>, node: string, name: string, c: Client<V>)
  {
    && (name in c.slots <==> Wanted(history, node, name))
    && (name in c.slots ==>
          && c.slots[name].callback == Latest(history, node, name)
          && c.slots[name].data == Newest(history, node, name))
  }

  ghost predicate ClientOk<V>(history: seq<Event<V>>, node: string, c: Client<V>)
  {
    OneReader(c) && forall name :: SlotOk(history, node, name, c)
  }

  /** The wishes of a node are its `Watch` events. */
  function Wishes<V>(history: seq<Event<V>>, node: string): seq<Wish>
  {
    if history == [] then
      []
    else
      var last, before := history[|history| - 1], Wishes(history[..|history| - 1], node);
      if last.Watch? && last.node == node then before + [Wish(last.name, last.callback)] else before
  }

  ghost predicate Reflects<V>(history: seq<Event<V>>, clients: map<string, Client<V>>, queue: map<string, seq<Wish>>)
  {
    && (forall node :: node in clients <==> Present(history, node))
    && (forall node :: node in clients ==> ClientOk(history, node, clients[node]))
    && (forall node :: QueueOf(queue, node) == Wishes(history, node))
  }

  function QueueOf(queue: map<string, seq<Wish>>, node: string): seq<Wish>
  {
    if node in queue then queue[node] else []
  }

  // ------------------------------------------------------------------ events one by one

  /** An event of another node is none of a client's business. */
  lemma OtherNode<V>(history: seq<Event<V>>, e: Event<V>, node: string)
    requires e.node != node
    ensures Present(history + [e], node) == Present(history, node)
    ensures Wishes(history + [e], node) == Wishes(history, node)
    ensures forall c :: ClientOk(history, node, c) ==> ClientOk(history + [e], node, c)
  {
    var all := history + [e];
    assert all[..|all| - 1] == history;
    forall c, name | ClientOk(history, node, c) ensures SlotOk(all, node, name, c) {
      assert SlotOk(history, node, name, c);
    }
  }

  lemma WatchKeeps<V>(history: seq<Event<V>>, node: string, c: Client<V>, name: string, callback: Callback)
    requires ClientOk(history, node, c)
    ensures ClientOk(history + [Watch(node, name, callback)], node, Ask(c, name, Some(callback)))
  {
    var all := history + [Watch(node, name, callback)];
    assert all[..|all| - 1] == history;
    AskKeepsReaders(c, name, Some(callback));
    forall n ensures SlotOk(all, node, n, Ask(c, name, Some(callback))) {
      assert SlotOk(history, node, n, c);
    }
  }

  /** A parameter nobody asked for has no data. */
  lemma {:induction false} UnwantedIsEmpty<V>(history: seq<Event<V>>, node: string, name: string)
    requires Legal(history) && Present(history, node) && !Wanted(history, node, name)
    ensures Newest(history, node, name) == ParamWatch.NotAvailable
  {
    var last, before := history[|history| - 1], history[..|history| - 1];
    if !(last.AddClient? && last.node == node) {
      UnwantedIsEmpty(before, node, name);
    }
  }

  lemma GetKeeps<V>(history: seq<Event<V>>, node: string, c: Client<V>, name: string)
    requires Legal(history) && Present(history, node) && ClientOk(history, node, c)
    ensures ClientOk(history + [Get(node, name)], node, Ask(c, name, None))
  {
    var all := history + [Get(node, name)];
    assert all[..|all| - 1] == history;
    AskKeepsReaders(c, name, None);
    forall n ensures SlotOk(all, node, n, Ask(c, name, None)) {
      assert SlotOk(history, node, n, c);
      if n == name && name !in c.slots {
        UnwantedIsEmpty(history, node, name);
      }
    }
  }

  lemma ArriveKeeps<V>(history: seq<Event<V>>, node: string, c: Client<V>, name: string, reply: Reply<V>)
    requires Wanted(history, node, name) && ClientOk(history, node, c)
    ensures ClientOk(history + [Arrive(node, name, reply)], node, Store(c, name, reply))
  {
    var all := history + [Arrive(node, name, reply)];
    assert all[..|all| - 1] == history;
    assert SlotOk(history, node, name, c);
    forall n ensures SlotOk(all, node, n, Store(c, name, reply)) {
      assert SlotOk(history, node, n, c);
    }
  }

  /** Events change the entries of their own node only. */
  ghost predicate OnlyAt<T>(node: string, before: map<string, T>, after: map<string, T>)
  {
    forall n :: n != node ==> (n in before <==> n in after) && (n in before ==> before[n] == after[n])
  }

  /** When the entries of the event's own node are right after it, everything is. */
  lemma Extend<V>(history: seq<Event<V>>, e: Event<V>,
                  clients: map<string, Client<V>>, after: map<string, Client<V>>,
                  queue: map<string, seq<Wish>>, longer: map<string, seq<Wish>>)
    requires Reflects(history, clients, queue) && OnlyAt(e.node, clients, after) && OnlyAt(e.node, queue, longer)
    requires e.node in after <==> Present(history + [e], e.node)
    requires e.node in after ==> ClientOk(history + [e], e.node, after[e.node])
    requires QueueOf(longer, e.node) == Wishes(history + [e], e.node)
    ensures Reflects(history + [e], after, longer)
  {
    forall node | node != e.node
      ensures node in after <==> Present(history + [e], node)
      ensures node in after ==> ClientOk(history + [e], node, after[node])
      ensures QueueOf(longer, node) == Wishes(history + [e], node)
    {
      OtherNode(history, e, node);
      assert QueueOf(longer, node) == QueueOf(queue, node);
    }
  }

  /** An event at the end of a history. */
  lemma Snoc<V>(history: seq<Event<V>>, e: Event<V>)
    ensures (history + [e])[..|history + [e]| - 1] == history && (history + [e])[|history|] == e
    ensures Legal(history) && !e.Arrive? ==> Legal(history + [e])
  {
    var all := history + [e];
    assert all[..|all| - 1] == history;
  }

  // ------------------------------------------------------------------ a peer comes back

  /** What replaying wishes makes of a new client. */
  function Replay<V>(wishes: seq<Wish>): Client<V>
  {
    if wishes == [] then
      Client(map[], [])
    else
      var last := wishes[|wishes| - 1];
      Ask(Replay(wishes[..|wishes| - 1]), last.name, Some(last.callback))
  }

  /** Replaying the wishes brings back the callbacks most recently asked for, each with one reader. */
  lemma {:induction false} ReplayRestores<V>(history: seq<Event<V>>, node: string, name: string)
    ensures var c := Replay<V>(Wishes(history, node));
      && OneReader(c)
      && (name in c.slots <==> Latest(history, node, name).Some?)
      && (name in c.slots ==> c.slots[name] == Slot(Latest(history, node, name), ParamWatch.NotAvailable))
  {
    if history != [] {
      var last, before := history[|history| - 1], history[..|history| - 1];
      ReplayRestores(before, node, name);
      if last.Watch? && last.node == node {
        var wishes := Wishes(history, node);
        assert wishes[..|wishes| - 1] == Wishes(before, node);
        AskKeepsReaders(Replay<V>(Wishes(before, node)), last.name, Some(last.callback));
      }
    }
  }

  lemma AddKeeps<V>(history: seq<Event<V>>, node: string)
    ensures ClientOk(history + [AddClient(node)], node, Replay<V>(Wishes(history, node)))
  {
    var all := history + [AddClient(node)];
    assert all[..|all| - 1] == history;
    ReplayRestores(history, node, "");
    forall name ensures SlotOk(all, node, name, Replay<V>(Wishes(history, node))) {
      ReplayRestores(history, node, name);
    }
  }

  /** The loop of `add_client` over a copy of the queue. */
  method ReplayLoop<V>(wishes: seq<Wish>) returns (c: Client<V>)
    ensures c == Replay(wishes)
  {
    c := Client(map[], []);
    var i := 0;
    while i < |wishes|
      invariant 0 <= i <= |wishes| && c == Replay(wishes[..i])
    {
      assert wishes[..i + 1][..i] == wishes[..i];
      c := Ask(c, wishes[i].name, Some(wishes[i].callback));
      i := i + 1;
    }
    assert wishes[..i] == wishes;
  }

  // ------------------------------------------------------------------ every run

  lemma {:induction false} CountDistinct(names: seq<string>, name: string)
    requires forall i, j :: 0 <= i < j < |names| ==> names[i] != names[j]
    ensures multiset(names)[name] == if name in names then 1 else 0
  {
    if names != [] {
      CountDistinct(names[1..], name);
      assert names == [names[0]] + names[1..];
      assert names[0] !in names[1..] by {
        assert forall i :: 0 <= i < |names| - 1 ==> names[1..][i] == names[i + 1];
      }
    }
  }

  /** Across all disconnections and reconnections: while the peer is there, the callback in force is the
      one most recently asked for, and its parameter has one reader in the present client; a parameter
      nobody asked for has none. */
  lemma CallbackContinuity<V>(
    history: seq<Event<V>>, clients: map<string, Client<V>>, queue: map<string, seq<Wish>>, node: string, name: string)
    requires Reflects(history, clients, queue) && Present(history, node)
    ensures node in clients
    ensures Latest(history, node, name).Some? ==>
      name in clients[node].slots && clients[node].slots[name].callback == Latest(history, node, name)
    ensures multiset(clients[node].readers)[name] == if Wanted(history, node, name) then 1 else 0
  {
    assert SlotOk(history, node, name, clients[node]);
    CountDistinct(clients[node].readers, name);
  }

  // ------------------------------------------------------------------ the club

  class ParamRpcClientClub<V(!new)> {
    var clients: map<string, Client<V>>
    var queue: map<string, seq<Wish>>
    /** Everything that happened, for the specification. */
    ghost var history: seq<Event<V>>

    ghost predicate Valid()
      reads this
    {
      Legal(history) && Reflects(history, clients, queue)
    }

    constructor ()
      ensures Valid() && history == []
    {
      clients, queue, history := map[], map[], [];
    }

    method AddPeer(node: string)
      requires Valid()
      modifies this
      ensures Valid() && history == old(history) + [AddClient(node)] && queue == old(queue)
    {
      var c := ReplayLoop<V>(QueueOf(queue, node));
      AddKeeps(history, node);
      Snoc(history, AddClient(node));
      Extend(history, AddClient(node), clients, clients[node := c], queue, queue);
      clients := clients[node := c];
      history := history + [AddClient(node)];
    }

    method DeletePeer(node: string)
      requires Valid()
      modifies this
      ensures Valid() && history == old(history) + [DeleteClient(node)] && clients == old(clients) - {node}
    {
      Snoc(history, DeleteClient(node));
      Extend(history, DeleteClient(node), clients, clients - {node}, queue, queue);
      clients := clients - {node};
      history := history + [DeleteClient(node)];
    }

    /** Asks for a callback; it is remembered whether the peer is there or not. */
    method WatchParam(node: string, name: string, callback: Callback) returns (reply: Reply<V>)
      requires Valid()
      modifies this
      ensures Valid() && history == old(history) + [Watch(node, name, callback)]
      ensures reply == ParamWatch.NotAvailable
    {
      ghost var e, before := Watch(node, name, callback), clients;
      Snoc(history, e);
      var longer := queue[node := QueueOf(queue, node) + [Wish(name, callback)]];
      reply := ParamWatch.NotAvailable;
      if node in clients {
        WatchKeeps(history, node, clients[node], name, callback);
        clients := clients[node := Ask(clients[node], name, Some(callback))];
        reply := clients[node].slots[name].data;
      }
      Extend(history, e, before, clients, queue, longer);
      queue := longer;
      history := history + [e];
    }

    /** Asks for the value known by now. */
    method GetParam(node: string, name: string) returns (reply: Reply<V>)
      requires Valid()
      modifies this
      ensures Valid() && history == old(history) + [Get(node, name)] && queue == old(queue)
      ensures reply == if Present(old(history), node) then Newest(old(history), node, name) else ParamWatch.NotAvailable
    {
      ghost var e, before := Get(node, name), clients;
      Snoc(history, e);
      reply := ParamWatch.NotAvailable;
      if node in clients {
        assert SlotOk(history, node, name, clients[node]);
        if name in clients[node].slots {
          reply := clients[node].slots[name].data;
        } else {
          UnwantedIsEmpty(history, node, name);
        }
        GetKeeps(history, node, clients[node], name);
        clients := clients[node := Ask(clients[node], name, None)];
      }
      Extend(history, e, before, clients, queue, queue);
      history := history + [e];
    }

    /** A reader got a reply. */
    method HandleReply(node: string, name: string, reply: Reply<V>)
      requires Valid() && node in clients && name in clients[node].readers
      modifies this
      ensures Valid() && history == old(history) + [Arrive(node, name, reply)] && queue == old(queue)
      ensures node in clients && name in clients[node].slots && clients[node].slots[name].data == reply
    {
      ghost var e, before := Arrive(node, name, reply), clients;
      Snoc(history, e);
      assert SlotOk(history, node, name, clients[node]);
      ArriveKeeps(history, node, clients[node], name, reply);
      clients := clients[node := Store(clients[node], name, reply)];
      Extend(history, e, before, clients, queue, queue);
      history := history + [e];
    }
  }
}
