/**
 Static transforms flood the network. A listener republishes every `/tf_static` message it gets, and
 publishing goes through a cache that lets each message pass once. Publishing is two steps, the cache
 first and the sockets afterwards, and other threads may run in between. A socket over its limit drops
 the message. A new subscriber is sent the whole cache, in three steps without a lock: the socket joins
 the topic, the cache is copied, and the copy takes the place of whatever the socket's buffer holds.
 */
module Gossip {
  import opened Sequences

  /** A node: the messages in its cache, and those cached but not yet written to the sockets. */
  datatype Node<M> = Node(cache: set<M>, pending: set<M>)

  /** How far a connection has come up. */
  datatype Setup<M> = Inserted | Copied(replay: seq<M>) | Live

  /** A connection from a publisher to a listener, with what is on its way, what it dropped and what was
      overwritten in its buffer. A reconnection is another channel. */
  datatype Channel<M> = Channel(
    src: nat, dst: nat, open: bool, setup: Setup<M>, queue: seq<M>, dropped: set<M>, overwritten: set<M>)

  datatype Net<M> = Net(nodes: seq<Node<M>>, channels: seq<Channel<M>>)

  datatype Step<M> =
    | Broadcast(u: nat, m: M)
    | Flush(u: nat, m: M, drops: set<nat>)
    | Deliver(c: nat)
    | Insert(src: nat, dst: nat)
    | Copy(c: nat, replay: seq<M>)
    | Assign(c: nat, written: nat)   // the messages written by then are out of the buffer
    | Hangup(c: nat)

  /** The cache gate: a message seen before goes no further. */
  function Publish<M>(n: Node<M>, m: M): (r: Node<M>)
    ensures m in r.cache && n.cache <= r.cache
    ensures m in n.cache <==> r == n
  {
    if m in n.cache then n else Node(n.cache + {m}, n.pending + {m})
  }

  /** One socket is offered a message. */
  function Offer<M>(c: Channel<M>, m: M, drop: bool): Channel<M>
  {
    if drop then c.(dropped := c.dropped + {m}) else c.(queue := c.queue + [m])
  }

  /** All sockets of `u` are offered a message. */
  function Send<M>(channels: seq<Channel<M>>, u: nat, m: M, drops: set<nat>): (r: seq<Channel<M>>)
    ensures |r| == |channels|
  {
    if channels == [] then
      []
    else
      var last := |channels| - 1;
      var c := channels[last];
      Send(channels[..last], u, m, drops) + [if c.open && c.src == u then Offer(c, m, last in drops) else c]
  }

  /** The copy of the cache replaces the part of the queue that is still in the buffer. */
  function Assigned<M>(c: Channel<M>, written: nat): (d: Channel<M>)
    requires c.setup.Copied? && written <= |c.queue|
  {
    var out, left := c.queue[..written], c.queue[written..];
    c.(setup := Live, queue := out + c.setup.replay,
       overwritten := c.overwritten + set m | m in left && m !in c.setup.replay && m !in out)
  }

  predicate Internal<M>(step: Step<M>)
  {
    step.Flush? || step.Deliver?
  }

  ghost predicate Enabled<M>(s: Net<M>, step: Step<M>)
  {
    match step
    case Broadcast(u, m) => u < |s.nodes|
    case Flush(u, m, drops) => u < |s.nodes| && m in s.nodes[u].pending
    case Deliver(c) =>
      c < |s.channels| && s.channels[c].open && s.channels[c].queue != [] && s.channels[c].dst < |s.nodes|
    case Insert(src, dst) => src < |s.nodes| && dst < |s.nodes|
    case Copy(c, replay) =>
      && c < |s.channels| && s.channels[c].open && s.channels[c].setup.Inserted? && s.channels[c].src < |s.nodes|
      && s.nodes[s.channels[c].src].cache == (set m | m in replay)
    case Assign(c, written) =>
      c < |s.channels| && s.channels[c].open && s.channels[c].setup.Copied? && written <= |s.channels[c].queue|
    case Hangup(c) => c < |s.channels|
  }

  ghost function Apply<M>(s: Net<M>, step: Step<M>): (r: Net<M>)
    requires Enabled(s, step)
    ensures |r.nodes| == |s.nodes|
  {
    match step
    case Broadcast(u, m) => s.(nodes := s.nodes[u := Publish(s.nodes[u], m)])
    case Flush(u, m, drops) =>
      Net(s.nodes[u := s.nodes[u].(pending := s.nodes[u].pending - {m})], Send(s.channels, u, m, drops))
    case Deliver(i) =>
      var c := s.channels[i];
      Net(s.nodes[c.dst := Publish(s.nodes[c.dst], c.queue[0])], s.channels[i := c.(queue := c.queue[1..])])
    case Insert(src, dst) => s.(channels := s.channels + [Channel(src, dst, true, Inserted, [], {}, {})])
    case Copy(c, replay) => s.(channels := s.channels[c := s.channels[c].(setup := Copied(replay))])
    case Assign(c, written) => s.(channels := s.channels[c := Assigned(s.channels[c], written)])
    case Hangup(c) => s.(channels := s.channels[c := s.channels[c].(open := false, queue := [])])
  }

  /** Every step is enabled when its turn comes. */
  ghost predicate Legal<M>(s: Net<M>, steps: seq<Step<M>>)
    decreases |steps|
  {
    steps == [] || (Enabled(s, steps[0]) && Legal(Apply(s, steps[0]), steps[1..]))
  }

  ghost function Run<M>(s: Net<M>, steps: seq<Step<M>>): (r: Net<M>)
    requires Legal(s, steps)
    ensures |r.nodes| == |s.nodes|
    decreases |steps|
  {
    if steps == [] then s else Run(Apply(s, steps[0]), steps[1..])
  }

  /** `n` nodes that have seen nothing and are not connected. */
  function Start<M>(n: nat): Net<M>
  {
    Net(seq(n, i => Node({}, {})), [])
  }

  // ------------------------------------------------------------------ what every step keeps

  /** A cached message is at the other end of the channel, on its way there, or was lost there. */
  ghost predicate Covered<M>(s: Net<M>, c: Channel<M>, m: M)
    requires c.src < |s.nodes| && c.dst < |s.nodes|
  {
    || m in s.nodes[c.dst].cache || m in c.queue || m in s.nodes[c.src].pending || m in c.dropped || m in c.overwritten
    || (c.setup.Copied? && m in c.setup.replay)
  }

  ghost predicate ChannelOk<M>(s: Net<M>, c: Channel<M>)
  {
    && c.src < |s.nodes| && c.dst < |s.nodes|
    && (forall m :: m in c.queue ==> m in s.nodes[c.src].cache)
    && (c.setup.Copied? ==> forall m :: m in c.setup.replay ==> m in s.nodes[c.src].cache)
    && (c.open && !c.setup.Inserted? ==> forall m :: m in s.nodes[c.src].cache ==> Covered(s, c, m))
  }

  ghost predicate Inv<M>(s: Net<M>)
  {
    && (forall u :: 0 <= u < |s.nodes| ==> s.nodes[u].pending <= s.nodes[u].cache)
    && (forall i :: 0 <= i < |s.channels| ==> ChannelOk(s, s.channels[i]))
  }

  lemma {:induction false} SendAt<M>(channels: seq<Channel<M>>, u: nat, m: M, drops: set<nat>, i: nat)
    requires i < |channels|
    ensures Send(channels, u, m, drops)[i] ==
      if channels[i].open && channels[i].src == u then Offer(channels[i], m, i in drops) else channels[i]
  {
    if i < |channels| - 1 {
      SendAt(channels[..|channels| - 1], u, m, drops, i);
    }
  }

  /** The nodes grow and nothing becomes pending but what was not cached: channels stay as they were. */
  lemma PublishKeepsChannel<M>(s: Net<M>, u: nat, m: M, c: Channel<M>)
    requires u < |s.nodes| && ChannelOk(s, c)
    ensures ChannelOk(s.(nodes := s.nodes[u := Publish(s.nodes[u], m)]), c)
  {
    var r := s.(nodes := s.nodes[u := Publish(s.nodes[u], m)]);
    if c.open && !c.setup.Inserted? {
      forall x | x in r.nodes[c.src].cache ensures Covered(r, c, x) {
        if x in s.nodes[c.src].cache {
          assert Covered(s, c, x);
        }
      }
    }
  }

  lemma FlushKeepsChannel<M>(s: Net<M>, u: nat, m: M, c: Channel<M>, drop: bool)
    requires u < |s.nodes| && m in s.nodes[u].cache && ChannelOk(s, c)
    ensures ChannelOk(s.(nodes := s.nodes[u := s.nodes[u].(pending := s.nodes[u].pending - {m})]),
                      if c.open && c.src == u then Offer(c, m, drop) else c)
  {
    var r := s.(nodes := s.nodes[u := s.nodes[u].(pending := s.nodes[u].pending - {m})]);
    var d := if c.open && c.src == u then Offer(c, m, drop) else c;
    if c.open && !c.setup.Inserted? {
      forall x | x in r.nodes[c.src].cache ensures Covered(r, d, x) {
        assert Covered(s, c, x);
      }
    }
  }

  lemma BroadcastKeeps<M>(s: Net<M>, u: nat, m: M)
    requires Inv(s) && u < |s.nodes|
    ensures Inv(s.(nodes := s.nodes[u := Publish(s.nodes[u], m)]))
  {
    forall i | 0 <= i < |s.channels|
      ensures ChannelOk(s.(nodes := s.nodes[u := Publish(s.nodes[u], m)]), s.channels[i])
    {
      PublishKeepsChannel(s, u, m, s.channels[i]);
    }
  }

  lemma FlushKeeps<M>(s: Net<M>, u: nat, m: M, drops: set<nat>)
    requires Inv(s) && Enabled(s, Flush(u, m, drops))
    ensures Inv(Apply(s, Flush(u, m, drops)))
  {
    var r := Apply(s, Flush(u, m, drops));
    forall i | 0 <= i < |r.channels| ensures ChannelOk(r, r.channels[i]) {
      SendAt(s.channels, u, m, drops, i);
      FlushKeepsChannel(s, u, m, s.channels[i], i in drops);
    }
  }

  /** A message leaves the channel it was covered by only into the cache at its end. */
  lemma PopKeepsChannel<M>(s: Net<M>, c: Channel<M>)
    requires ChannelOk(s, c) && c.queue != [] && c.queue[0] in s.nodes[c.dst].cache
    ensures ChannelOk(s, c.(queue := c.queue[1..]))
  {
    var d := c.(queue := c.queue[1..]);
    if c.open && !c.setup.Inserted? {
      forall x | x in s.nodes[c.src].cache ensures Covered(s, d, x) {
        assert Covered(s, c, x);
        assert c.queue == [c.queue[0]] + d.queue;
      }
    }
  }

  lemma DeliverKeeps<M>(s: Net<M>, c: nat)
    requires Inv(s) && Enabled(s, Deliver(c))
    ensures Inv(Apply(s, Deliver(c)))
  {
    var v, m := s.channels[c].dst, s.channels[c].queue[0];
    var mid := s.(nodes := s.nodes[v := Publish(s.nodes[v], m)]);
    BroadcastKeeps(s, v, m);
    PopKeepsChannel(mid, mid.channels[c]);
    var r := Apply(s, Deliver(c));
    forall i | 0 <= i < |r.channels| ensures ChannelOk(r, r.channels[i]) {
      assert ChannelOk(mid, mid.channels[i]);
      SameNodes(mid, r, r.channels[i]);
    }
  }

  lemma SameNodes<M>(s: Net<M>, r: Net<M>, c: Channel<M>)
    requires s.nodes == r.nodes && ChannelOk(s, c)
    ensures ChannelOk(r, c)
  {
    if c.open && !c.setup.Inserted? {
      forall x | x in r.nodes[c.src].cache ensures Covered(r, c, x) {
        assert Covered(s, c, x);
      }
    }
  }

  /** The copy covers all that is cached when it is made. */
  lemma CopyKeepsChannel<M>(s: Net<M>, c: Channel<M>, replay: seq<M>)
    requires ChannelOk(s, c) && s.nodes[c.src].cache == (set m | m in replay)
    ensures ChannelOk(s, c.(setup := Copied(replay)))
  {
  }

  /** What the copy overwrites is lost, unless it is in the copy too. */
  lemma AssignKeepsChannel<M>(s: Net<M>, c: Channel<M>, written: nat)
    requires ChannelOk(s, c) && c.setup.Copied? && written <= |c.queue|
    ensures ChannelOk(s, Assigned(c, written))
  {
    var d := Assigned(c, written);
    Cut(c.queue, written);
    if c.open {
      forall x | x in s.nodes[c.src].cache ensures Covered(s, d, x) {
        assert Covered(s, c, x);
      }
    }
  }

  lemma LinksKeep<M>(s: Net<M>, step: Step<M>)
    requires Inv(s) && Enabled(s, step) && !Internal(step) && !step.Broadcast?
    ensures Inv(Apply(s, step))
  {
    var r := Apply(s, step);
    forall i | 0 <= i < |r.channels| ensures ChannelOk(r, r.channels[i]) {
      if i < |s.channels| {
        var c := s.channels[i];
        assert ChannelOk(s, c);
        if step.Copy? && step.c == i {
          CopyKeepsChannel(s, c, step.replay);
          SameNodes(s, r, r.channels[i]);
        } else if step.Assign? && step.c == i {
          AssignKeepsChannel(s, c, step.written);
          SameNodes(s, r, r.channels[i]);
        } else if r.channels[i] == c {
          SameNodes(s, r, c);
        }
      }
    }
  }

  lemma ApplyKeeps<M>(s: Net<M>, step: Step<M>)
    requires Inv(s) && Enabled(s, step)
    ensures Inv(Apply(s, step))
  {
    match step
    case Broadcast(u, m) => BroadcastKeeps(s, u, m);
    case Flush(u, m, drops) => FlushKeeps(s, u, m, drops);
    case Deliver(c) => DeliverKeeps(s, c);
    case _ => LinksKeep(s, step);
  }

  lemma {:induction false} RunKeeps<M>(s: Net<M>, steps: seq<Step<M>>)
    requires Inv(s) && Legal(s, steps)
    ensures Inv(Run(s, steps))
    decreases |steps|
  {
    if steps != [] {
      ApplyKeeps(s, steps[0]);
      RunKeeps(Apply(s, steps[0]), steps[1..]);
    }
  }

  // ------------------------------------------------------------------ termination

  /** Nothing is cached but members of `all`. */
  ghost predicate Knows<M>(s: Net<M>, all: set<M>)
  {
    forall u :: 0 <= u < |s.nodes| ==> s.nodes[u].cache <= all
  }

  /** What a node may still cause over `d` channels. */
  function NodeLoad<M>(n: Node<M>, all: set<M>, d: nat): nat
  {
    |all - n.cache| * (d + 2) + |n.pending| * (d + 1)
  }

  function NodesLoad<M>(nodes: seq<Node<M>>, all: set<M>, d: nat): nat
  {
    if nodes == [] then 0 else NodeLoad(nodes[0], all, d) + NodesLoad(nodes[1..], all, d)
  }

  function ChannelsLoad<M>(channels: seq<Channel<M>>): nat
  {
    if channels == [] then
      0
    else
      ChannelsLoad(channels[..|channels| - 1]) + |channels[|channels| - 1].queue|
  }

  /** How many deliveries and flushes are left at most. */
  function Potential<M>(s: Net<M>, all: set<M>): nat
  {
    NodesLoad(s.nodes, all, |s.channels|) + ChannelsLoad(s.channels)
  }

  lemma {:induction false} NodesLoadUpdate<M>(nodes: seq<Node<M>>, all: set<M>, d: nat, u: nat, n: Node<M>)
    requires u < |nodes|
    ensures NodesLoad(nodes[u := n], all, d) + NodeLoad(nodes[u], all, d)
         == NodesLoad(nodes, all, d) + NodeLoad(n, all, d)
  {
    var after := nodes[u := n];
    if u == 0 {
      assert after[1..] == nodes[1..];
    } else {
      NodesLoadUpdate(nodes[1..], all, d, u - 1, n);
      assert after[1..] == nodes[1..][u - 1 := n];
    }
  }

  lemma {:induction false} ChannelsLoadUpdate<M>(channels: seq<Channel<M>>, i: nat, c: Channel<M>)
    requires i < |channels|
    ensures ChannelsLoad(channels[i := c]) + |channels[i].queue| == ChannelsLoad(channels) + |c.queue|
  {
    var after, last := channels[i := c], |channels| - 1;
    if i == last {
      assert after[..last] == channels[..last];
    } else {
      ChannelsLoadUpdate(channels[..last], i, c);
      assert after[..last] == channels[..last][i := c];
    }
  }

  lemma {:induction false} SendLoad<M>(channels: seq<Channel<M>>, u: nat, m: M, drops: set<nat>)
    ensures ChannelsLoad(Send(channels, u, m, drops)) <= ChannelsLoad(channels) + |channels|
  {
    if channels != [] {
      var last := |channels| - 1;
      SendLoad(channels[..last], u, m, drops);
      assert Send(channels, u, m, drops)[..last] == Send(channels[..last], u, m, drops);
    }
  }

  /** A message new to a node costs more while it is missing than once it is pending. */
  lemma PublishLoad<M>(n: Node<M>, m: M, all: set<M>, d: nat)
    requires n.pending <= n.cache <= all && m in all
    ensures NodeLoad(Publish(n, m), all, d) <= NodeLoad(n, all, d)
  {
    if m !in n.cache {
      assert all - (n.cache + {m}) == all - n.cache - {m};
      var k, p := |all - n.cache|, |n.pending|;
      assert |(n.pending + {m})| == p + 1;
      assert (k - 1) * (d + 2) + (p + 1) * (d + 1) == k * (d + 2) + p * (d + 1) - 1;
    }
  }

  lemma FlushLoad<M>(n: Node<M>, m: M, all: set<M>, d: nat)
    requires m in n.pending
    ensures NodeLoad(n.(pending := n.pending - {m}), all, d) + d + 1 == NodeLoad(n, all, d)
  {
    var p := |n.pending|;
    assert |n.pending - {m}| == p - 1;
    assert (p - 1) * (d + 1) + d + 1 == p * (d + 1);
  }

  /** Every delivery and every flush uses up potential. */
  lemma Decreases<M>(s: Net<M>, step: Step<M>, all: set<M>)
    requires Inv(s) && Knows(s, all) && Enabled(s, step) && Internal(step)
    ensures Potential(Apply(s, step), all) < Potential(s, all) && Knows(Apply(s, step), all)
  {
    var d := |s.channels|;
    match step
    case Flush(u, m, drops) =>
      FlushLoad(s.nodes[u], m, all, d);
      NodesLoadUpdate(s.nodes, all, d, u, s.nodes[u].(pending := s.nodes[u].pending - {m}));
      SendLoad(s.channels, u, m, drops);
    case Deliver(i) =>
      var c := s.channels[i];
      var v, m := c.dst, c.queue[0];
      assert ChannelOk(s, c) && m in c.queue;
      PublishLoad(s.nodes[v], m, all, d);
      NodesLoadUpdate(s.nodes, all, d, v, Publish(s.nodes[v], m));
      ChannelsLoadUpdate(s.channels, i, c.(queue := c.queue[1..]));
  }

  /** Flooding over fixed channels ends: no run of deliveries and flushes is longer than the potential. */
  lemma {:induction false} FloodingEnds<M>(s: Net<M>, steps: seq<Step<M>>, all: set<M>)
    requires Inv(s) && Knows(s, all) && Legal(s, steps)
    requires forall i :: 0 <= i < |steps| ==> Internal(steps[i])
    ensures |steps| + Potential(Run(s, steps), all) <= Potential(s, all)
    decreases |steps|
  {
    if steps != [] {
      assert Internal(steps[0]);
      Decreases(s, steps[0], all);
      ApplyKeeps(s, steps[0]);
      FloodingEnds(Apply(s, steps[0]), steps[1..], all);
    }
  }

  // ------------------------------------------------------------------ what is lost, and that nothing else is

  /** What a step drops on channel i. */
  ghost function DroppedBy<M>(s: Net<M>, step: Step<M>, i: nat): (lost: set<M>)
    requires i < |s.channels|
  {
    if step.Flush? && i in step.drops && s.channels[i].open && s.channels[i].src == step.u then {step.m} else {}
  }

  /** What a step overwrites on channel i: what was on its way and no longer is. */
  ghost function OverwrittenBy<M>(s: Net<M>, step: Step<M>, i: nat): (lost: set<M>)
    requires i < |s.channels| && Enabled(s, step)
  {
    if step.Assign? && step.c == i then
      set m | m in s.channels[i].queue && m !in Apply(s, step).channels[i].queue
    else {}
  }

  /** A channel loses what a flush says it drops there, and what the copy of the cache overwrites; any other
      message flushed by its publisher gets to the end of its queue. */
  lemma LossesOf<M>(s: Net<M>, step: Step<M>, i: nat)
    requires Enabled(s, step) && i < |s.channels|
    ensures i < |Apply(s, step).channels|
    ensures var c, d := s.channels[i], Apply(s, step).channels[i];
      && d.src == c.src && d.dst == c.dst
      && d.dropped == c.dropped + DroppedBy(s, step, i)
      && d.overwritten == c.overwritten + OverwrittenBy(s, step, i)
      && (step.Flush? ==>
            d.queue == if c.open && c.src == step.u && i !in step.drops then c.queue + [step.m] else c.queue)
  {
    var c := s.channels[i];
    match step
    case Flush(u, m, drops) => SendAt(s.channels, u, m, drops, i);
    case Assign(k, written) => if k == i { Cut(c.queue, written); }
    case _ =>
  }

  /** The step loses nothing on channel i: no flush drops there, and the copy is put into an empty buffer. */
  predicate Spares<M>(s: Net<M>, step: Step<M>, i: nat)
  {
    && (step.Flush? ==> i !in step.drops)
    && (step.Assign? && step.c == i && i < |s.channels| ==> step.written == |s.channels[i].queue|)
  }

  ghost predicate SparesAll<M>(s: Net<M>, steps: seq<Step<M>>, i: nat)
    requires Legal(s, steps)
    decreases |steps|
  {
    steps == [] || (Spares(s, steps[0], i) && SparesAll(Apply(s, steps[0]), steps[1..], i))
  }

  lemma SparedStep<M>(s: Net<M>, step: Step<M>, i: nat)
    requires Enabled(s, step) && Spares(s, step, i) && i < |s.channels|
    requires s.channels[i].dropped == {} && s.channels[i].overwritten == {}
    ensures i < |Apply(s, step).channels|
    ensures Apply(s, step).channels[i].dropped == {} && Apply(s, step).channels[i].overwritten == {}
  {
    LossesOf(s, step, i);
    if step.Assign? && step.c == i {
      var c := s.channels[i];
      Cut(c.queue, step.written);
      assert c.queue[..step.written] == c.queue;
      assert Apply(s, step).channels[i].queue == c.queue + c.setup.replay;
    }
  }

  lemma JoinedStep<M>(s: Net<M>, step: Step<M>)
    requires Enabled(s, step) && |Apply(s, step).channels| > |s.channels|
    ensures step.Insert? && |Apply(s, step).channels| == |s.channels| + 1
    ensures Apply(s, step).channels[|s.channels|] == Channel(step.src, step.dst, true, Inserted, [], {}, {})
  {
  }

  /** A channel that every step of a run spares has lost nothing. */
  lemma {:induction false} SparedRun<M>(s: Net<M>, steps: seq<Step<M>>, i: nat)
    requires Legal(s, steps) && SparesAll(s, steps, i) && i < |Run(s, steps).channels|
    requires i < |s.channels| ==> s.channels[i].dropped == {} && s.channels[i].overwritten == {}
    ensures Run(s, steps).channels[i].dropped == {} && Run(s, steps).channels[i].overwritten == {}
    decreases |steps|
  {
    if steps != [] {
      var r := Apply(s, steps[0]);
      if i < |s.channels| {
        SparedStep(s, steps[0], i);
      } else if i < |r.channels| {
        JoinedStep(s, steps[0]);
      }
      SparedRun(r, steps[1..], i);
    }
  }

  ghost predicate Assigns<M>(steps: seq<Step<M>>, i: nat)
  {
    exists w :: Assign(i, w) in steps
  }

  lemma StateOf<M>(s: Net<M>, step: Step<M>, i: nat)
    requires Enabled(s, step) && i < |s.channels|
    ensures i < |Apply(s, step).channels|
    ensures Apply(s, step).channels[i].open <==> s.channels[i].open && step != Hangup(i)
    ensures Apply(s, step).channels[i].setup.Live? <==> s.channels[i].setup.Live? || Assigns([step], i)
  {
    if step.Flush? { SendAt(s.channels, step.u, step.m, step.drops, i); }
    if step.Assign? && step.c == i { assert Assign(i, step.written) in [step]; }
  }

  /** A channel is open until it is hung up, and live once the copy was assigned. */
  lemma {:induction false} StateAfter<M>(s: Net<M>, steps: seq<Step<M>>, i: nat)
    requires Legal(s, steps) && i < |Run(s, steps).channels|
    ensures var c := Run(s, steps).channels[i];
      && (c.open <==> (i < |s.channels| ==> s.channels[i].open) && Hangup(i) !in steps)
      && (c.setup.Live? <==> (i < |s.channels| && s.channels[i].setup.Live?) || Assigns(steps, i))
    decreases |steps|
  {
    if steps != [] {
      var r := Apply(s, steps[0]);
      if i < |s.channels| {
        StateOf(s, steps[0], i);
      } else if i < |r.channels| {
        JoinedStep(s, steps[0]);
      }
      StateAfter(r, steps[1..], i);
      AssignsSplit(steps, i);
      assert steps == [steps[0]] + steps[1..];
    }
  }

  lemma AssignsSplit<M>(steps: seq<Step<M>>, i: nat)
    requires steps != []
    ensures Assigns(steps, i) <==> Assigns([steps[0]], i) || Assigns(steps[1..], i)
  {
    assert steps == [steps[0]] + steps[1..];
    if Assigns(steps, i) {
      var w :| Assign(i, w) in steps;
      assert Assign(i, w) in [steps[0]] || Assign(i, w) in steps[1..];
    }
    if w :| Assign(i, w) in [steps[0]] { assert Assign(i, w) in steps; }
    if w :| Assign(i, w) in steps[1..] { assert Assign(i, w) in steps; }
  }

  // ------------------------------------------------------------------ completion

  /** Nothing is on its way. */
  ghost predicate Quiescent<M>(s: Net<M>)
  {
    && (forall u :: 0 <= u < |s.nodes| ==> s.nodes[u].pending == {})
    && (forall i :: 0 <= i < |s.channels| && s.channels[i].open ==> s.channels[i].queue == [])
  }

  /** A network is quiescent exactly when no delivery and no flush can happen. */
  lemma QuiescentIffStuck<M>(s: Net<M>)
    requires Inv(s)
    ensures Quiescent(s) <==> forall step :: Internal(step) ==> !Enabled(s, step)
  {
    if !Quiescent(s) {
      var step := Busy(s);
      assert Internal(step) && Enabled(s, step);
    }
  }

  /** A delivery or flush that can happen in a network that is not quiescent; the flush drops nothing. */
  lemma Busy<M>(s: Net<M>) returns (step: Step<M>)
    requires Inv(s) && !Quiescent(s)
    ensures Internal(step) && Enabled(s, step) && (step.Flush? ==> step.drops == {})
  {
    if u :| 0 <= u < |s.nodes| && s.nodes[u].pending != {} {
      var m :| m in s.nodes[u].pending;
      step := Flush(u, m, {});
    } else {
      var i :| 0 <= i < |s.channels| && s.channels[i].open && s.channels[i].queue != [];
      assert ChannelOk(s, s.channels[i]);
      step := Deliver(i);
    }
  }

  /** From every state some run of deliveries and flushes that drop nothing ends quiescent, and no channel has
      lost anything more by then. */
  lemma {:induction false} Settles<M>(s: Net<M>, all: set<M>) returns (steps: seq<Step<M>>)
    requires Inv(s) && Knows(s, all)
    ensures Legal(s, steps) && Quiescent(Run(s, steps)) && Harmless(steps)
    ensures SameLosses(s, Run(s, steps))
    decreases Potential(s, all)
  {
    if Quiescent(s) {
      steps := [];
    } else {
      var step := Busy(s);
      Decreases(s, step, all);
      ApplyKeeps(s, step);
      LosesNoMore(s, step);
      var rest := Settles(Apply(s, step), all);
      steps := Prepend(s, step, rest);
      Prepended(step, rest);
    }
  }

  predicate Harmless<M>(steps: seq<Step<M>>)
  {
    forall i :: 0 <= i < |steps| ==> Internal(steps[i]) && (steps[i].Flush? ==> steps[i].drops == {})
  }

  lemma Prepended<M>(step: Step<M>, rest: seq<Step<M>>)
    requires Harmless([step]) && Harmless(rest)
    ensures Harmless([step] + rest)
  {
    assert [step][0] == step;
  }

  /** No channel has lost anything more. */
  ghost predicate SameLosses<M>(s: Net<M>, r: Net<M>)
  {
    && |r.channels| == |s.channels|
    && forall i :: 0 <= i < |s.channels| ==>
         r.channels[i].dropped == s.channels[i].dropped && r.channels[i].overwritten == s.channels[i].overwritten
  }

  lemma LosesNoMore<M>(s: Net<M>, step: Step<M>)
    requires Enabled(s, step) && Harmless([step])
    ensures SameLosses(s, Apply(s, step))
  {
    assert [step][0] == step;
    forall i | 0 <= i < |s.channels| ensures
        Apply(s, step).channels[i].dropped == s.channels[i].dropped
        && Apply(s, step).channels[i].overwritten == s.channels[i].overwritten
    {
      LossesOf(s, step, i);
    }
  }

  /** `path` follows channels that are up and have lost nothing. */
  ghost predicate Path<M>(s: Net<M>, path: seq<nat>)
  {
    forall k :: 0 < k < |path| ==> Linked(s, path[k - 1], path[k])
  }

  ghost predicate Linked<M>(s: Net<M>, u: nat, v: nat)
  {
    exists i :: 0 <= i < |s.channels| && IsLink(s.channels[i], u, v)
  }

  ghost predicate IsLink<M>(c: Channel<M>, u: nat, v: nat)
  {
    c.open && c.setup.Live? && c.src == u && c.dst == v && c.dropped == {} && c.overwritten == {}
  }

  /** In a quiescent network a listener has all its publisher has, but for what its channel dropped or
      had overwritten while it came up. */
  lemma CompleteAtListeners<M>(s: Net<M>, i: nat)
    requires Inv(s) && Quiescent(s) && i < |s.channels| && s.channels[i].open && s.channels[i].setup.Live?
    ensures s.channels[i].src < |s.nodes| && s.channels[i].dst < |s.nodes|
    ensures var c := s.channels[i];
      s.nodes[c.src].cache - c.dropped - c.overwritten <= s.nodes[c.dst].cache
  {
    var c := s.channels[i];
    assert ChannelOk(s, c);
    forall m | m in s.nodes[c.src].cache && m !in c.dropped && m !in c.overwritten ensures m in s.nodes[c.dst].cache {
      assert Covered(s, c, m);
    }
  }

  lemma {:induction false} CompleteAlong<M>(s: Net<M>, path: seq<nat>)
    requires Inv(s) && Quiescent(s) && Path(s, path) && path != [] && path[0] < |s.nodes|
    ensures path[|path| - 1] < |s.nodes|
    ensures s.nodes[path[0]].cache <= s.nodes[path[|path| - 1]].cache
    decreases |path|
  {
    var last := |path| - 1;
    if last > 0 {
      assert Linked(s, path[last - 1], path[last]);
      var i :| 0 <= i < |s.channels| && IsLink(s.channels[i], path[last - 1], path[last]);
      var front := path[..last];
      assert front[last - 1] == path[last - 1];
      CompleteAlong(s, front);
      CompleteAtListeners(s, i);
    }
  }

  /** `u` broadcast `m` in the run. */
  ghost predicate Broadcasts<M>(steps: seq<Step<M>>, u: nat, m: M)
  {
    Step.Broadcast(u, m) in steps
  }

  /** Caches only grow, every broadcast is cached where it was made, nothing else ever is. */
  lemma {:induction false} RunCaches<M>(s: Net<M>, steps: seq<Step<M>>)
    requires Inv(s) && Legal(s, steps)
    ensures forall u :: 0 <= u < |s.nodes| ==> s.nodes[u].cache <= Run(s, steps).nodes[u].cache
    ensures forall u: nat, m :: u < |s.nodes| && Broadcasts(steps, u, m) ==> m in Run(s, steps).nodes[u].cache
    ensures forall u, m :: 0 <= u < |s.nodes| && m in Run(s, steps).nodes[u].cache ==> Origin(s, steps, m)
    decreases |steps|
  {
    if steps == [] {
      forall u, m | 0 <= u < |s.nodes| && m in s.nodes[u].cache ensures Origin(s, steps, m) {}
    } else {
      var mid := Apply(s, steps[0]);
      ApplyKeeps(s, steps[0]);
      RunCaches(mid, steps[1..]);
      StepCaches(s, steps[0]);
      var r := Run(mid, steps[1..]);
      assert Run(s, steps) == r;
      forall u: nat, m | u < |s.nodes| && Broadcasts(steps, u, m) ensures m in Run(s, steps).nodes[u].cache {
        if Broadcasts(steps[1..], u, m) {
        } else {
          assert steps[0] == Step.Broadcast(u, m);
        }
      }
      forall u, m | 0 <= u < |s.nodes| && m in r.nodes[u].cache ensures Origin(s, steps, m) {
        assert Origin(mid, steps[1..], m);
        OriginBack(s, steps, m);
      }
    }
  }

  /** A message comes from a cache of the start or from a broadcast of the run. */
  ghost predicate Origin<M>(s: Net<M>, steps: seq<Step<M>>, m: M)
  {
    (exists u :: 0 <= u < |s.nodes| && m in s.nodes[u].cache) || (exists u :: Broadcasts(steps, u, m))
  }

  lemma StepCaches<M>(s: Net<M>, step: Step<M>)
    requires Inv(s) && Enabled(s, step)
    ensures forall u :: 0 <= u < |s.nodes| ==> s.nodes[u].cache <= Apply(s, step).nodes[u].cache
    ensures step.Broadcast? ==> step.m in Apply(s, step).nodes[step.u].cache
    ensures forall u, m :: 0 <= u < |s.nodes| && m in Apply(s, step).nodes[u].cache ==> Origin(s, [step], m)
  {
    var r := Apply(s, step);
    forall u, m | 0 <= u < |s.nodes| && m in r.nodes[u].cache ensures Origin(s, [step], m) {
      if m !in s.nodes[u].cache {
        if step.Broadcast? {
          assert Broadcasts([step], u, m);
        } else {
          assert step.Deliver?;
          var c := s.channels[step.c];
          assert ChannelOk(s, c) && m == c.queue[0];
          assert m in s.nodes[c.src].cache;
        }
      }
    }
  }

  lemma OriginBack<M>(s: Net<M>, steps: seq<Step<M>>, m: M)
    requires Inv(s) && steps != [] && Enabled(s, steps[0]) && Origin(Apply(s, steps[0]), steps[1..], m)
    ensures Origin(s, steps, m)
  {
    var mid := Apply(s, steps[0]);
    StepCaches(s, steps[0]);
    if u :| 0 <= u < |mid.nodes| && m in mid.nodes[u].cache {
      assert Origin(s, [steps[0]], m);
      if v :| Broadcasts([steps[0]], v, m) {
        assert Broadcasts(steps, v, m);
      }
    } else {
      var u :| Broadcasts(steps[1..], u, m);
      assert Broadcasts(steps, u, m);
    }
  }

  /** In the run a channel from u to v came up, over an empty buffer, was not hung up, and no flush dropped
      anything on it. */
  ghost predicate Carries<M>(n: nat, steps: seq<Step<M>>, u: nat, v: nat)
    requires Legal(Start<M>(n), steps)
  {
    exists i :: 0 <= i < |Run(Start<M>(n), steps).channels| && CarriesAt(n, steps, i, u, v)
  }

  ghost predicate CarriesAt<M>(n: nat, steps: seq<Step<M>>, i: nat, u: nat, v: nat)
    requires Legal(Start<M>(n), steps) && i < |Run(Start<M>(n), steps).channels|
  {
    && Run(Start<M>(n), steps).channels[i].src == u && Run(Start<M>(n), steps).channels[i].dst == v
    && Assigns(steps, i) && Hangup(i) !in steps && SparesAll(Start(n), steps, i)
  }

  lemma CarriesIsLink<M>(n: nat, steps: seq<Step<M>>, u: nat, v: nat)
    requires Legal(Start<M>(n), steps) && Carries(n, steps, u, v)
    ensures Linked(Run(Start<M>(n), steps), u, v)
  {
    var s := Run(Start<M>(n), steps);
    var i :| 0 <= i < |s.channels| && CarriesAt(n, steps, i, u, v);
    SparedRun(Start(n), steps, i);
    StateAfter(Start(n), steps, i);
    assert IsLink(s.channels[i], u, v);
  }

  /** The run connects u to v by a path of such channels. */
  ghost predicate Connects<M>(n: nat, steps: seq<Step<M>>, u: nat, v: nat)
    requires Legal(Start<M>(n), steps)
  {
    exists path: seq<nat> ::
      path != [] && path[0] == u && path[|path| - 1] == v && CarriesAlong(n, steps, path)
  }

  ghost predicate CarriesAlong<M>(n: nat, steps: seq<Step<M>>, path: seq<nat>)
    requires Legal(Start<M>(n), steps)
  {
    forall k :: 0 < k < |path| ==> Carries(n, steps, path[k - 1], path[k])
  }

  lemma ConnectsIsPath<M>(n: nat, steps: seq<Step<M>>, u: nat, v: nat) returns (path: seq<nat>)
    requires Legal(Start<M>(n), steps) && Connects(n, steps, u, v)
    ensures path != [] && path[0] == u && path[|path| - 1] == v && Path(Run(Start<M>(n), steps), path)
  {
    path :| path != [] && path[0] == u && path[|path| - 1] == v && CarriesAlong(n, steps, path);
    forall k | 0 < k < |path| ensures Linked(Run(Start<M>(n), steps), path[k - 1], path[k]) {
      CarriesIsLink(n, steps, path[k - 1], path[k]);
    }
  }

  /** After every run of broadcasts, flushes, deliveries, connections and hangups that has become
      quiescent: a node to which the run connects every broadcaster, by channels on which no flush dropped
      anything and no copy overwrote anything, has cached exactly the messages that were broadcast. */
  lemma EveryoneHasEverything<M>(n: nat, steps: seq<Step<M>>, v: nat, m: M)
    requires Legal(Start<M>(n), steps) && v < n
    requires Quiescent(Run(Start(n), steps))
    requires forall u: nat, x :: Broadcasts(steps, u, x) ==> u < n && Connects(n, steps, u, v)
    ensures m in Run(Start(n), steps).nodes[v].cache <==> exists u :: Broadcasts(steps, u, m)
  {
    var s := Run(Start<M>(n), steps);
    RunKeeps(Start(n), steps);
    RunCaches(Start(n), steps);
    if u: nat :| Broadcasts(steps, u, m) {
      var path := ConnectsIsPath(n, steps, u, v);
      CompleteAlong(s, path);
    }
    if m in s.nodes[v].cache {
      assert Origin(Start(n), steps, m);
    }
  }

  lemma Prepend<M>(s: Net<M>, step: Step<M>, rest: seq<Step<M>>) returns (steps: seq<Step<M>>)
    requires Enabled(s, step) && Legal(Apply(s, step), rest)
    ensures steps == [step] + rest && Legal(s, steps) && Run(s, steps) == Run(Apply(s, step), rest)
  {
    steps := [step] + rest;
    assert steps[1..] == rest;
  }

  /** A channel coming up can lose a message without dropping it: published behind the copy of the cache and
      still in the buffer when the copy is put there. The network is quiescent, the channel is up, and
      the listener never gets it. */
  lemma OvertakenConnectionLoses<M>(m: M) returns (steps: seq<Step<M>>)
    ensures Legal(Start<M>(2), steps)
    ensures var s := Run(Start<M>(2), steps);
      && Quiescent(s) && s.channels == [Channel(0, 1, true, Live, [], {}, {m})]
      && s.nodes[0].cache == {m} && s.nodes[1].cache == {}
  {
    var e: Node<M> := Node({}, {});
    var s0: Net<M> := Net([e, e], []);
    assert Start<M>(2) == s0;
    var c: Channel<M> := Channel(0, 1, true, Copied([]), [], {}, {});
    var s1 := Apply(s0, Insert(0, 1));
    var s2: Net<M> := Net([e, e], [c]);
    CopyEmpty(s1, s2, c);
    var s3 := Net([Node({m}, {m}), e], [c]);
    BroadcastFirst(s2, m, s3);
    var s4 := Net([Node({m}, {}), e], [c.(queue := [m])]);
    FlushFirst(s3, m, c, s4);
    AssignLast(s4, m, c);
    steps := Prepend(s4, Assign(0, 0), []);
    steps := Prepend(s3, Flush(0, m, {}), steps);
    steps := Prepend(s2, Step.Broadcast(0, m), steps);
    steps := Prepend(s1, Copy(0, []), steps);
    steps := Prepend(s0, Insert(0, 1), steps);
  }

  /** A connection made while nothing is published comes up without loss, the whole cache in its queue. */
  lemma ConnectsCleanly<M>(s: Net<M>, u: nat, v: nat, replay: seq<M>) returns (steps: seq<Step<M>>)
    requires u < |s.nodes| && v < |s.nodes| && s.nodes[u].cache == (set m | m in replay)
    ensures Legal(s, steps) && Run(s, steps).nodes == s.nodes
    ensures Run(s, steps).channels == s.channels + [Channel(u, v, true, Live, replay, {}, {})]
  {
    var i := |s.channels|;
    var a := Apply(s, Insert(u, v));
    var b := Joined(s, a, Channel(u, v, true, Copied(replay), [], {}, {}));
    assert Apply(a, Copy(i, replay)) == b;
    var c := Channel(u, v, true, Copied(replay), [], {}, {});
    AssignedToEmpty(c, replay);
    var d := Joined(s, b, Channel(u, v, true, Live, replay, {}, {}));
    assert Apply(b, Assign(i, 0)) == d;
    steps := Prepend(b, Assign(i, 0), []);
    steps := Prepend(a, Copy(i, replay), steps);
    steps := Prepend(s, Insert(u, v), steps);
  }

  /** The last channel, just joined, becomes c. */
  lemma Joined<M>(s: Net<M>, a: Net<M>, c: Channel<M>) returns (b: Net<M>)
    requires a.nodes == s.nodes && |a.channels| == |s.channels| + 1 && a.channels[..|s.channels|] == s.channels
    ensures b == a.(channels := a.channels[|s.channels| := c]) && b == s.(channels := s.channels + [c])
  {
    b := a.(channels := a.channels[|s.channels| := c]);
    assert b.channels == s.channels + [c];
  }

  lemma AssignedToEmpty<M>(c: Channel<M>, replay: seq<M>)
    requires c.setup == Copied(replay) && c.queue == []
    ensures Assigned(c, 0) == c.(setup := Live, queue := replay)
  {
    var out, left := c.queue[..0], c.queue[0..];
    assert out + replay == replay && left == [];
    assert c.overwritten + (set m | m in left && m !in replay && m !in out) == c.overwritten;
  }

  lemma CopyEmpty<M>(s: Net<M>, r: Net<M>, c: Channel<M>)
    requires s.nodes == [Node({}, {}), Node({}, {})] == r.nodes
    requires s.channels == [Channel(0, 1, true, Inserted, [], {}, {})]
    requires r.channels == [c] && c == s.channels[0].(setup := Copied([]))
    ensures Enabled(s, Copy(0, [])) && Apply(s, Copy(0, [])) == r
  {
    var none: seq<M> := [];
    assert s.nodes[0].cache == (set x | x in none);
  }

  lemma BroadcastFirst<M>(s: Net<M>, m: M, r: Net<M>)
    requires |s.nodes| == 2 && s.nodes[0] == Node({}, {}) && r == s.(nodes := [Node({m}, {m}), s.nodes[1]])
    ensures Enabled(s, Step.Broadcast(0, m)) && Apply(s, Step.Broadcast(0, m)) == r
  {
    assert Publish(s.nodes[0], m) == Node({m}, {m});
  }

  lemma FlushFirst<M>(s: Net<M>, m: M, c: Channel<M>, r: Net<M>)
    requires |s.nodes| == 2 && s.nodes[0] == Node({m}, {m})
    requires s.channels == [c] && c.open && c.src == 0 && c.queue == []
    requires r == Net([Node({m}, {}), s.nodes[1]], [c.(queue := [m])])
    ensures Enabled(s, Flush(0, m, {})) && Apply(s, Flush(0, m, {})) == r
  {
    SendAt(s.channels, 0, m, {}, 0);
    assert c.queue + [m] == [m];
    assert Send(s.channels, 0, m, {})[0] == c.(queue := [m]);
    assert Send(s.channels, 0, m, {}) == [c.(queue := [m])];
    assert {m} - {m} == {};
  }

  lemma AssignLast<M>(s: Net<M>, m: M, c: Channel<M>)
    requires c == Channel(0, 1, true, Copied([]), [], {}, {}) && s.channels == [c.(queue := [m])]
    ensures Enabled(s, Assign(0, 0))
    ensures Apply(s, Assign(0, 0)) == s.(channels := [Channel(0, 1, true, Live, [], {}, {m})])
  {
    assert Assigned(s.channels[0], 0) == Channel(0, 1, true, Live, [], {}, {m});
  }
}
