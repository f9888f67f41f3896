/**
 The class `ServiceServer`: the streams it keeps listening, the ids it hands out and recycles, and
 the events of its completion queue.
 */
module ServiceServers {
  import opened Wrappers
  import opened ServiceStream

  /** What the completion queue still holds for a stream. */
  datatype Phase = Listening | Connected | Recycled

  /** A completed operation. */
  datatype Tag = CONNECT(id: nat) | READ(id: nat, e: Event) | WRITE(id: nat) | BROKEN_PIPE(id: nat)

  const PORTS := 10

  ghost function InPhase(phase: seq<Phase>, p: Phase): (ids: set<nat>)
  {
    set i: nat | i < |phase| && phase[i] == p
  }

  /** A stream that moves to `p` leaves the listening ones, if it was among them. */
  lemma Leaves(phase: seq<Phase>, id: nat, p: Phase)
    requires id < |phase| && p != Listening
    ensures InPhase(phase[id := p], Listening) == InPhase(phase, Listening) - {id}
    ensures phase[id] == Listening ==> id in InPhase(phase, Listening)
    ensures phase[id] != Listening ==> InPhase(phase, Listening) - {id} == InPhase(phase, Listening)
  {
  }

  /** A stream that starts to listen, recycled or new, joins the listening ones. */
  lemma Joins(before: seq<Phase>, after: seq<Phase>, id: nat)
    requires id <= |before| && (id < |before| ==> before[id] == Recycled)
    requires |after| == (if id == |before| then id + 1 else |before|) && after[id] == Listening
    requires forall i :: 0 <= i < |before| && i != id ==> after[i] == before[i]
    ensures InPhase(after, Listening) == InPhase(before, Listening) + {id} && id !in InPhase(before, Listening)
  {
  }

  /** Every id ever handed out has a stream, and the listening ones are fresh. */
  ghost predicate StreamsOk(streams: seq<Stream>, phase: seq<Phase>)
  {
    && |streams| == |phase|
    && (forall i :: 0 <= i < |streams| ==> StreamInv(streams[i]))
    && (forall i :: 0 <= i < |streams| && phase[i] == Listening ==> streams[i] == FRESH)
  }

  /** The recycled ids, and only they, are in the queue, each once. */
  ghost predicate QueueOk(reusable: seq<nat>, phase: seq<Phase>)
  {
    && (forall k :: 0 <= k < |reusable| ==> reusable[k] < |phase| && phase[reusable[k]] == Recycled)
    && (forall k, l :: 0 <= k < l < |reusable| ==> reusable[k] != reusable[l])
    && (forall i :: 0 <= i < |phase| && phase[i] == Recycled ==> i in reusable)
  }

  lemma StreamChanged(streams: seq<Stream>, phase: seq<Phase>, id: nat, s: Stream, p: Phase)
    requires StreamsOk(streams, phase) && id < |phase| && StreamInv(s) && (p == Listening ==> s == FRESH)
    ensures StreamsOk(streams[id := s], phase[id := p])
  {
  }

  lemma QueueUntouched(reusable: seq<nat>, phase: seq<Phase>, id: nat, p: Phase)
    requires QueueOk(reusable, phase) && id < |phase| && phase[id] != Recycled && p != Recycled
    ensures QueueOk(reusable, phase[id := p])
  {
  }

  lemma QueuePushed(reusable: seq<nat>, phase: seq<Phase>, id: nat)
    requires QueueOk(reusable, phase) && id < |phase| && phase[id] != Recycled
    ensures QueueOk(reusable + [id], phase[id := Recycled])
  {
    var after, queue := phase[id := Recycled], reusable + [id];
    forall i | 0 <= i < |after| && after[i] == Recycled ensures i in queue {
      if i == id {
        assert queue[|reusable|] == id;
      }
    }
  }

  lemma QueuePopped(reusable: seq<nat>, phase: seq<Phase>)
    requires QueueOk(reusable, phase) && reusable != []
    ensures reusable[0] < |phase| && phase[reusable[0]] == Recycled
    ensures QueueOk(reusable[1..], phase[reusable[0] := Listening])
  {
    var id, rest := reusable[0], reusable[1..];
    var after := phase[id := Listening];
    forall i | 0 <= i < |after| && after[i] == Recycled ensures i in rest {
      var k :| 0 <= k < |reusable| && reusable[k] == i;
      assert rest[k - 1] == i;
    }
  }

  lemma QueueGrown(phase: seq<Phase>)
    requires QueueOk([], phase)
    ensures QueueOk([], phase + [Listening])
  {
  }

  /** What a broken pipe does to the tables. */
  lemma Broken(streams: seq<Stream>, phase: seq<Phase>, reusable: seq<nat>, id: nat)
    requires StreamsOk(streams, phase) && QueueOk(reusable, phase) && id < |phase| && phase[id] == Connected
    ensures Handle(streams[id], Break) == streams[id].(cancelled := true)
    ensures StreamsOk(streams[id := streams[id].(cancelled := true)], phase[id := Recycled])
    ensures QueueOk(reusable + [id], phase[id := Recycled])
    ensures InPhase(phase[id := Recycled], Listening) == InPhase(phase, Listening)
  {
    BreakKeeps(streams[id]);
    StreamChanged(streams, phase, id, streams[id].(cancelled := true), Recycled);
    QueuePushed(reusable, phase, id);
    Leaves(phase, id, Recycled);
  }

  /** What serving a client that connected does to the tables. */
  lemma Served(streams: seq<Stream>, phase: seq<Phase>, reusable: seq<nat>, id: nat)
    requires StreamsOk(streams, phase) && QueueOk(reusable, phase) && id < |phase| && phase[id] == Listening
    ensures SetSuspend(streams[id]) == streams[id] == FRESH
    ensures StreamsOk(streams[id := streams[id]], phase[id := Connected])
    ensures QueueOk(reusable, phase[id := Connected])
    ensures |InPhase(phase[id := Connected], Listening)| == |InPhase(phase, Listening)| - 1
  {
    StreamChanged(streams, phase, id, streams[id], Connected);
    QueueUntouched(reusable, phase, id, Connected);
    Leaves(phase, id, Connected);
  }

  /** A port that was opened and a client that is served change nothing for the other live streams. */
  lemma LiveKept(was: seq<Phase>, phase: seq<Phase>, had: seq<Stream>, streams: seq<Stream>, next: nat, id: nat)
    requires |was| == |had| && |phase| == |streams| && |was| <= |phase| && id < |was| && next < |phase|
    requires next < |was| ==> was[next] == Recycled
    requires forall i :: 0 <= i < |was| && i != next ==> phase[i] == was[i] && streams[i] == had[i]
    ensures forall i :: 0 <= i < |was| && i != id && was[i] != Recycled ==>
      phase[id := Connected][i] == was[i] && streams[id := streams[id]][i] == had[i]
  {
  }

  /** What opening a port does to the tables. */
  lemma Opened(
    streams: seq<Stream>, phase: seq<Phase>, before: seq<Phase>, queue: seq<nat>, reusable: seq<nat>, id: nat)
    requires StreamsOk(streams, phase) && QueueOk(queue, before) && id < |phase| && phase[id] == Recycled
    requires if queue == [] then id == |before| && phase == before + [Recycled] && reusable == []
             else id == queue[0] && phase == before && reusable == queue[1..]
    ensures StreamsOk(streams[id := FRESH], phase[id := Listening]) && QueueOk(reusable, phase[id := Listening])
    ensures InPhase(phase[id := Listening], Listening) == InPhase(before, Listening) + {id}
    ensures |InPhase(phase[id := Listening], Listening)| == |InPhase(before, Listening)| + 1
  {
    StreamChanged(streams, phase, id, FRESH, Listening);
    if queue == [] {
      QueueGrown(before);
      assert phase[id := Listening] == before + [Listening];
    } else {
      QueuePopped(queue, before);
    }
    Joins(before, phase[id := Listening], id);
  }

  class ServiceServer {
    /** The next id never used. */
    var streamId: nat
    /** Ids whose client is gone, oldest first. */
    var reusable: seq<nat>
    /** The streams, indexed by id. */
    var streams: seq<Stream>
    ghost var phase: seq<Phase>

    ghost predicate Ids()
      reads this
    {
      streamId == |phase| && StreamsOk(streams, phase) && QueueOk(reusable, phase)
    }

    ghost predicate Valid()
      reads this
    {
      Ids() && |InPhase(phase, Listening)| == PORTS
    }

    constructor ()
      ensures Valid() && streamId == PORTS && reusable == []
    {
      streamId, reusable, streams, phase := 0, [], [], [];
      new;
      assert InPhase(phase, Listening) == {};
      for i := 0 to PORTS
        invariant Ids() && streamId == i && reusable == [] && |InPhase(phase, Listening)| == i
      {
        ghost var id := OpenPort();
      }
    }

    /** A recycled id if there is one, otherwise a new one. */
    method GenerateStreamId() returns (id: nat)
      modifies this`streamId, this`reusable
      ensures old(reusable) != [] ==>
        id == old(reusable)[0] && reusable == old(reusable)[1..] && streamId == old(streamId)
      ensures old(reusable) == [] ==> id == old(streamId) && reusable == [] && streamId == old(streamId) + 1
    {
      if reusable != [] {
        id := reusable[0];
        reusable := reusable[1..];
      } else {
        id := streamId;
        streamId := streamId + 1;
      }
    }

    /** `setAborted` and the wait for the callback of the stream's previous client. */
    method AwaitTask(id: nat)
      requires id < |streams| && StreamInv(streams[id])
      modifies this`streams
      ensures |streams| == |old(streams)| && streams == old(streams)[id := streams[id]]
      ensures StreamInv(streams[id]) && streams[id].task == NoTask && streams[id].status == SUSPEND
    {
      ghost var s0 := streams[id];
      HandleKeeps(s0, Decide(ABORTED));
      streams := streams[id := Handle(streams[id], Decide(ABORTED))];
      if streams[id].task == Running {
        HandleKeeps(streams[id], Return);
        streams := streams[id := Handle(streams[id], Return)];
      }
      if streams[id].task == Replied {
        HandleKeeps(streams[id], Settle);
        streams := streams[id := Handle(streams[id], Settle)];
      }
    }

    /** Hands out an id and makes its stream listen; a recycled stream starts as a fresh one does. */
    method OpenPort() returns (id: nat)
      requires Ids()
      modifies this
      ensures Ids() && id < |streams| && streams[id] == FRESH
      ensures id < |old(phase)| ==> old(phase)[id] == Recycled
      ensures id <= |old(phase)| && |phase| == (if id == |old(phase)| then id + 1 else |old(phase)|)
      ensures forall i :: 0 <= i < |old(phase)| && i != id ==>
        phase[i] == old(phase)[i] && streams[i] == old(streams)[i]
      ensures phase[id] == Listening
      ensures InPhase(phase, Listening) == old(InPhase(phase, Listening)) + {id}
      ensures |InPhase(phase, Listening)| == old(|InPhase(phase, Listening)|) + 1
      ensures reusable == if old(reusable) == [] then [] else old(reusable)[1..]
    {
      ghost var queue, before := reusable, phase;
      if reusable != [] { QueuePopped(reusable, phase); }
      id := GenerateStreamId();
      if |streams| <= id {
        streams := streams + [FRESH];
        phase := phase + [Recycled];
      }
      Opened(streams, phase, before, queue, reusable, id);
      ghost var ready := streams;
      AwaitTask(id);
      streams := streams[id := streams[id].(cancelled := false, calls := [])];
      assert streams == ready[id := FRESH];
      phase := phase[id := Listening];
    }

    /** `write_reply`. */
    method WriteReply(id: nat, status: Status)
      requires id < |streams|
      modifies this`streams
      ensures streams == old(streams)[id := Write(old(streams)[id], status)]
    {
      var s := streams[id];
      if s.cancelled || s.calls == [] {
        return;
      }
      var call := s.calls[|s.calls| - 1];
      streams := streams[id := s.(calls := s.calls[|s.calls| - 1 := call.(replies := call.replies + [status])])];
    }

    /** A message was read: a request in SUSPEND is accepted, a cancel in PROCESS prompts, anything
        else is ignored. */
    method HandleRead(id: nat, e: Event)
      requires id < |streams| && StreamInv(streams[id]) && (e.ReadPull? || e.ReadCancel?)
      modifies this`streams
      ensures streams == old(streams)[id := Handle(old(streams)[id], e)]
    {
      var s := streams[id];
      if s.status == SUSPEND && e.ReadPull? {
        var call := Call(e.req, [], None, false);
        streams := streams[id := s.(status := PROCESS, task := Running, calls := s.calls + [call])];
        WriteReply(id, PROCESS);
      } else if s.status == PROCESS && e.ReadCancel? {
        streams := streams[id := s.(status := PROMPTED)];
        WriteReply(id, PROMPTED);
      }
    }

    /** A client connected: another stream starts to listen before this one is served. */
    method Connect(id: nat)
      requires Valid() && id < streamId && phase[id] == Listening
      modifies this
      ensures Valid() && id < |phase| && phase[id] == Connected && streams[id] == FRESH
      ensures forall i :: 0 <= i < |old(phase)| && i != id && old(phase)[i] != Recycled ==>
        i < |phase| && phase[i] == old(phase)[i] && streams[i] == old(streams)[i]
    {
      ghost var was, had := phase, streams;
      var next := OpenPort();
      Served(streams, phase, reusable, id);
      LiveKept(was, phase, had, streams, next, id);
      streams := streams[id := SetSuspend(streams[id])];
      phase := phase[id := Connected];
    }

    /** A client is gone: its id can be handed out again. */
    method BrokenPipe(id: nat)
      requires Valid() && id < streamId && phase[id] == Connected
      modifies this
      ensures Valid() && phase == old(phase)[id := Recycled] && reusable == old(reusable) + [id]
      ensures streams == old(streams)[id := Handle(old(streams)[id], Break)] && streamId == old(streamId)
    {
      Broken(streams, phase, reusable, id);
      streams := streams[id := streams[id].(cancelled := true)];
      reusable := reusable + [id];
      phase := phase[id := Recycled];
    }

    /** One completed operation. Ten streams listen before it and after it. */
    method HandleEvent(tag: Tag)
      requires Valid() && tag.id < streamId
      requires tag.CONNECT? ==> phase[tag.id] == Listening
      requires tag.READ? ==> phase[tag.id] != Listening && (tag.e.ReadPull? || tag.e.ReadCancel?)
      requires tag.BROKEN_PIPE? ==> phase[tag.id] == Connected
      modifies this
      ensures Valid() && tag.id < |phase|
      ensures tag.CONNECT? ==> phase[tag.id] == Connected && streams[tag.id] == FRESH
      ensures tag.READ? ==>
        streams == old(streams)[tag.id := Handle(old(streams)[tag.id], tag.e)] && phase == old(phase)
      ensures tag.BROKEN_PIPE? ==>
        && reusable == old(reusable) + [tag.id]
        && streams == old(streams)[tag.id := Handle(old(streams)[tag.id], Break)]
      ensures tag.WRITE? ==> streams == old(streams) && reusable == old(reusable) && phase == old(phase)
    {
      match tag
      case CONNECT(id) =>
        Connect(id);
      case READ(id, e) =>
        HandleKeeps(streams[id], e);
        HandleRead(id, e);
      case WRITE(id) =>
      case BROKEN_PIPE(id) =>
        BrokenPipe(id);
    }

    /** What the callback's thread does: decide, return, settle. */
    method HandleTask(id: nat, e: Event)
      requires Valid() && id < streamId && phase[id] != Listening && (e.Decide? || e.Return? || e.Settle?)
      modifies this`streams
      ensures Valid() && streams == old(streams)[id := Handle(old(streams)[id], e)]
    {
      HandleKeeps(streams[id], e);
      streams := streams[id := Handle(streams[id], e)];
    }
  }
}
