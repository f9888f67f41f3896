/**
 One publisher-subscriber connection from `publish` to the callbacks: send buffer, partial writes,
 the bytes under way, the receive buffer and the decoder, for every schedule of their steps. The
 thread that makes the connection takes no lock until its last step, so publishes may reach the
 socket before the copy of the cache is put into its buffer.
 */
module TopicPipe {
  import opened Wrappers
  import opened Sequences
  import opened Framing
  import opened TopicSender

  datatype Pipe<T> = Pipe(
    offered: seq<T>,      // what was to be sent: the cached messages, then every publish
    accepted: seq<T>,     // what entered the send buffer
    sock: Socket,
    received: nat,        // how many of the bytes sent have been received
    intake: Intake<T>,    // what the callbacks were given, and the receive buffer
    listening: bool,
    attached: bool)       // the cache has been put into the buffer

  datatype Step<T> =
    | Attach              // the copy of the cache becomes the buffer, whatever that held
    | Write(script: seq<WriteResult>)
    | Publish(m: T, script: seq<WriteResult>)
    | Bypass(m: T)        // `write_to_socket` stopped at another subscriber's failure first
    | Receive(n: nat)     // one `recv` of n bytes
    | Hangup              // the subscriber closes the connection

  /** The descriptor has joined its topic. */
  function Connected<T>(): (p: Pipe<T>)
  {
    Pipe([], [], Socket([], [], true), 0, Intake([], []), true, false)
  }

  function Flushed(sock: Socket, script: seq<WriteResult>): (sock': Socket)
  {
    if !sock.open then sock
    else
      var o := WriteLoop(sock.buffer, script);
      Socket(o.left, sock.sent + o.wrote, o.open)
  }

  /** The next n bytes under way reach the receive loop. */
  ghost function Arrive<T(!new)>(c: Codec<T>, p: Pipe<T>, n: nat): (p': Pipe<T>)
    requires p.received + n <= |p.sock.sent|
  {
    Arrived(p, n, FeedOf(c, p.intake, p.sock.sent[p.received..p.received + n]))
  }

  function Arrived<T>(p: Pipe<T>, n: nat, i: Intake<T>): (p': Pipe<T>)
  {
    p.(received := p.received + n, intake := i)
  }

  ghost function Apply<T(!new)>(c: Codec<T>, cached: seq<T>, p: Pipe<T>, s: Step<T>): (p': Pipe<T>)
    requires c.Sound()
  {
    match s
    case Attach =>
      if p.attached then p
      else if !p.sock.open then p.(attached := true)
      else p.(offered := p.offered + cached, accepted := p.accepted + cached,
              sock := p.sock.(buffer := Stream(c, cached)), attached := true)
    case Write(script) => p.(sock := Flushed(p.sock, script))
    case Publish(m, script) =>
      p.(offered := p.offered + [m],
         accepted := if p.sock.open && |p.sock.buffer| <= MAX_WRITE_BUFFER_SIZE then p.accepted + [m] else p.accepted,
         sock := Offer(p.sock, Frame(c, m), script))
    case Bypass(m) => p.(offered := p.offered + [m])
    case Receive(n) =>
      if p.listening && 0 < n <= MAX_CHUNK && p.received + n <= |p.sock.sent| then Arrive(c, p, n) else p
    case Hangup => p.(listening := false)
  }

  /** The state a schedule of steps leads to; `cached` is the copy of the cache. */
  ghost function Run<T(!new)>(c: Codec<T>, cached: seq<T>, steps: seq<Step<T>>): (p: Pipe<T>)
    requires c.Sound()
  {
    if steps == [] then Connected()
    else Apply(c, cached, Run(c, cached, steps[..|steps| - 1]), steps[|steps| - 1])
  }

  /** The step does not leave `write_fd` on a stale `errno`. */
  ghost predicate NotStale<T(!new)>(c: Codec<T>, p: Pipe<T>, s: Step<T>)
    requires c.Sound()
  {
    && (s.Publish? && p.sock.open && |p.sock.buffer| <= MAX_WRITE_BUFFER_SIZE ==>
          !EndsStale(p.sock.buffer + Frame(c, s.m), s.script))
    && (s.Write? && p.sock.open ==> !EndsStale(p.sock.buffer, s.script))
  }

  /** No publish left anything in the buffer that the cache is put into. */
  predicate NotOvertaken<T>(p: Pipe<T>, s: Step<T>)
  {
    s.Attach? && p.sock.open && !p.attached ==> p.sock.buffer == []
  }

  ghost predicate CleanStep<T(!new)>(c: Codec<T>, p: Pipe<T>, s: Step<T>)
    requires c.Sound()
  {
    NotStale(c, p, s) && NotOvertaken(p, s)
  }

  ghost predicate Clean<T(!new)>(c: Codec<T>, cached: seq<T>, steps: seq<Step<T>>)
    requires c.Sound()
  {
    steps == [] ||
    var init := steps[..|steps| - 1];
    Clean(c, cached, init) && CleanStep(c, Run(c, cached, init), steps[|steps| - 1])
  }

  /** A kernel whose `errno` always belongs to the call just made gives only clean runs, if the
      connection is made before anything is published to it. */
  lemma {:induction false} HonestIsClean<T(!new)>(c: Codec<T>, cached: seq<T>, steps: seq<Step<T>>)
    requires c.Sound() && (steps != [] ==> steps[0].Attach?)
    requires forall i, j :: 0 <= i < |steps| && (steps[i].Publish? || steps[i].Write?) && 0 <= j < |steps[i].script| ==>
      steps[i].script[j].Honest()
    ensures Clean(c, cached, steps) && (steps != [] ==> Run(c, cached, steps).attached)
    decreases |steps|
  {
    if steps != [] {
      var init, s := steps[..|steps| - 1], steps[|steps| - 1];
      HonestIsClean(c, cached, init);
      var p := Run(c, cached, init);
      if s.Publish? {
        HonestNotStale(p.sock.buffer + Frame(c, s.m), s.script);
      } else if s.Write? {
        HonestNotStale(p.sock.buffer, s.script);
      }
    }
  }

  // ---------- Invariants ----------

  ghost predicate Subsequence<T>(a: seq<T>, b: seq<T>)
  {
    if b == [] then a == []
    else
      || Subsequence(a, b[..|b| - 1])
      || (a != [] && a[|a| - 1] == b[|b| - 1] && Subsequence(a[..|a| - 1], b[..|b| - 1]))
  }

  lemma {:induction false} SubsequenceRefl<T>(a: seq<T>)
    ensures Subsequence(a, a)
  {
    if a != [] { SubsequenceRefl(a[..|a| - 1]); }
  }

  lemma {:induction false} SubsequenceMore<T>(a: seq<T>, b: seq<T>, more: seq<T>)
    requires Subsequence(a, b)
    ensures Subsequence(a + more, b + more)
    decreases |more|
  {
    if more == [] {
      assert a + more == a && b + more == b;
    } else {
      var front := more[..|more| - 1];
      SubsequenceMore(a, b, front);
      assert (a + more)[..|a + more| - 1] == a + front && (b + more)[..|b + more| - 1] == b + front;
    }
  }

  /** Everything accepted is either sent or in the buffer, byte for byte, while the socket is open. */
  ghost predicate Conserved<T(!new)>(c: Codec<T>, p: Pipe<T>)
    requires c.Sound()
  {
    if p.sock.open then p.sock.sent + p.sock.buffer == Stream(c, p.accepted)
    else p.sock.sent <= Stream(c, p.accepted)
  }

  /** What was received is the messages handed over and a partial frame. */
  ghost predicate Decoding<T(!new)>(c: Codec<T>, p: Pipe<T>)
    requires c.Sound()
  {
    p.received <= |p.sock.sent| && Took(c, p.sock.sent[..p.received], p.intake)
  }

  ghost predicate Took<T(!new)>(c: Codec<T>, bytes: seq<byte>, i: Intake<T>)
    requires c.Sound()
  {
    bytes == Stream(c, i.msgs) + i.kept && (i.kept == [] || Partial(c, i.kept))
  }

  ghost predicate Inv<T(!new)>(c: Codec<T>, p: Pipe<T>)
    requires c.Sound()
  {
    Conserved(c, p) && Decoding(c, p) && Subsequence(p.accepted, p.offered)
  }

  /** Writing keeps the books balanced exactly when it does not end stale. */
  lemma WriteConserved(all: seq<byte>, sent: seq<byte>, pending: seq<byte>, script: seq<WriteResult>)
    requires sent + pending == all
    ensures var o := WriteLoop(pending, script);
      && (!EndsStale(pending, script) <==> (o.open ==> (sent + o.wrote) + o.left == all))
      && (!EndsStale(pending, script) ==> sent + o.wrote <= all)
  {
    WriteConserves(pending, script);
    if EndsStale(pending, script) { StaleStaysOpen(pending, script); }
    var o := WriteLoop(pending, script);
    Assoc(sent, o.wrote, o.left);
    Cancel(sent, o.wrote + o.left, pending);
  }

  lemma ConnectedInv<T(!new)>(c: Codec<T>)
    requires c.Sound()
    ensures Inv(c, Connected<T>())
  {
  }

  /** The cache takes the place of an empty buffer, or something accepted is gone. */
  lemma AttachKeeps<T(!new)>(c: Codec<T>, cached: seq<T>, p: Pipe<T>)
    requires c.Sound() && Inv(c, p) && p.sock.open && !p.attached
    ensures var p' := Apply(c, cached, p, Attach);
      && (p.sock.buffer == [] ==> Inv(c, p'))
      && (Conserved(c, p') ==> p.sock.buffer == [])
  {
    StreamConcat(c, p.accepted, cached);
    SubsequenceMore(p.accepted, p.offered, cached);
    var sent, buffer, more := p.sock.sent, p.sock.buffer, Stream(c, cached);
    Assoc(sent, buffer, more);
    Cancel(sent, more, buffer + more);
    if p.sock.buffer == [] {
      assert buffer + more == more;
    }
  }

  /** Writing on keeps a connection right exactly when it does not end stale. */
  lemma WriteKeeps<T(!new)>(c: Codec<T>, p: Pipe<T>, script: seq<WriteResult>)
    requires c.Sound() && Inv(c, p) && p.sock.open
    ensures var p' := p.(sock := Flushed(p.sock, script));
      && (!EndsStale(p.sock.buffer, script) ==> Inv(c, p'))
      && (Conserved(c, p') ==> !EndsStale(p.sock.buffer, script))
  {
    WriteConserved(Stream(c, p.accepted), p.sock.sent, p.sock.buffer, script);
    var p' := p.(sock := Flushed(p.sock, script));
    assert p'.sock.sent[..p.received] == p.sock.sent[..p.received];
  }

  lemma PublishKeeps<T(!new)>(c: Codec<T>, cached: seq<T>, p: Pipe<T>, m: T, script: seq<WriteResult>)
    requires c.Sound() && Inv(c, p)
    ensures var p' := Apply(c, cached, p, Publish(m, script));
      && (CleanStep(c, p, Publish(m, script)) ==> Inv(c, p'))
      && (Conserved(c, p') ==> CleanStep(c, p, Publish(m, script)))
  {
    var p' := Apply(c, cached, p, Publish(m, script));
    assert p'.offered[..|p'.offered| - 1] == p.offered;
    if p.sock.open && |p.sock.buffer| <= MAX_WRITE_BUFFER_SIZE {
      assert p'.accepted[..|p'.accepted| - 1] == p.accepted;
      var f := Frame(c, m);
      StreamSnoc(c, p.accepted, m);
      Assoc(p.sock.sent, p.sock.buffer, f);
      WriteConserved(Stream(c, p.accepted + [m]), p.sock.sent, p.sock.buffer + f, script);
      assert p'.sock.sent[..p.received] == p.sock.sent[..p.received];
    }
  }

  /** Whole messages received are a prefix of those accepted, and the rest of the stream begins in
      the receive buffer. */
  lemma DeliveredPrefix<T(!new)>(c: Codec<T>, p: Pipe<T>)
    requires c.Sound() && Inv(c, p)
    ensures p.intake.msgs <= p.accepted
    ensures p.sock.sent <= Stream(c, p.accepted)
    ensures p.intake.kept + Stream(c, p.accepted)[p.received..] == Stream(c, p.accepted[|p.intake.msgs|..])
  {
    var all, got, kept := Stream(c, p.accepted), p.intake.msgs, p.intake.kept;
    assert p.sock.sent <= all;
    PrefixTrans(p.sock.sent, all, p.received);
    Cut(all, p.received);
    Assoc(Stream(c, got), kept, all[p.received..]);
    StreamPrefixFree(c, got, kept + all[p.received..], p.accepted);
  }

  /** The bytes under way continue the frame in the receive buffer. */
  lemma FeedOn<T(!new)>(c: Codec<T>, ms: seq<T>, sent: seq<byte>, received: nat, i: Intake<T>, n: nat)
    returns (r: Intake<T>)
    requires c.Sound() && sent <= Stream(c, ms) && i.msgs <= ms && n <= MAX_CHUNK && received + n <= |sent|
    requires Took(c, sent[..received], i)
    ensures IsFeed(c, i, sent[received..received + n], r) && Took(c, sent[..received + n], r)
  {
    var past, chunk := sent[..received], sent[received..received + n];
    PrefixTrans(sent, Stream(c, ms), received + n);
    assert past + chunk == sent[..received + n];
    assert ms[..|i.msgs|] == i.msgs;
    var k;
    k, r := FeedContinues(c, past, i, chunk, ms, |i.msgs|);
  }

  lemma TakenIn<T(!new)>(c: Codec<T>, p: Pipe<T>, received: nat, i: Intake<T>)
    requires c.Sound() && Inv(c, p) && received <= |p.sock.sent| && Took(c, p.sock.sent[..received], i)
    ensures received >= p.received ==> Inv(c, Arrived(p, received - p.received, i))
  {
  }

  lemma Arriving<T(!new)>(c: Codec<T>, p: Pipe<T>, n: nat) returns (i: Intake<T>)
    requires c.Sound() && n <= MAX_CHUNK && p.received + n <= |p.sock.sent|
    requires p.sock.sent <= Stream(c, p.accepted) && p.intake.msgs <= p.accepted
    requires Took(c, p.sock.sent[..p.received], p.intake)
    ensures Took(c, p.sock.sent[..p.received + n], i)
    ensures Arrive(c, p, n) == Arrived(p, n, i)
  {
    i := FeedOn(c, p.accepted, p.sock.sent, p.received, p.intake, n);
    ArriveIs(c, p, n, i);
  }

  lemma ArriveIs<T(!new)>(c: Codec<T>, p: Pipe<T>, n: nat, i: Intake<T>)
    requires p.received + n <= |p.sock.sent| && IsFeed(c, p.intake, p.sock.sent[p.received..p.received + n], i)
    ensures Arrive(c, p, n) == Arrived(p, n, i)
  {
    FeedIs(c, p.intake, p.sock.sent[p.received..p.received + n], i);
  }

  lemma FeedIs<T(!new)>(c: Codec<T>, i: Intake<T>, chunk: seq<byte>, r: Intake<T>)
    requires IsFeed(c, i, chunk, r)
    ensures r == FeedOf(c, i, chunk)
  {
    FeedUnique(c, i, chunk, r);
  }

  lemma ArriveKeeps<T(!new)>(c: Codec<T>, p: Pipe<T>, n: nat)
    requires c.Sound() && Inv(c, p) && n <= MAX_CHUNK && p.received + n <= |p.sock.sent|
    ensures Inv(c, Arrive(c, p, n))
  {
    Delivered(c, p);
    var i := Arriving(c, p, n);
    TakenIn(c, p, p.received + n, i);
  }

  lemma Delivered<T(!new)>(c: Codec<T>, p: Pipe<T>)
    requires c.Sound() && Inv(c, p)
    ensures p.intake.msgs <= p.accepted && p.sock.sent <= Stream(c, p.accepted)
  {
    DeliveredPrefix(c, p);
  }

  lemma ApplyKeeps<T(!new)>(c: Codec<T>, cached: seq<T>, p: Pipe<T>, s: Step<T>)
    requires c.Sound() && Inv(c, p)
    ensures CleanStep(c, p, s) ==> Inv(c, Apply(c, cached, p, s))
    ensures Conserved(c, Apply(c, cached, p, s)) ==> CleanStep(c, p, s)
  {
    match s
    case Attach => if p.sock.open && !p.attached { AttachKeeps(c, cached, p); }
    case Write(script) => if p.sock.open { WriteKeeps(c, p, script); }
    case Publish(m, script) => PublishKeeps(c, cached, p, m, script);
    case Bypass(m) => assert (p.offered + [m])[..|p.offered + [m]| - 1] == p.offered;
    case Receive(n) =>
      if 0 < n <= MAX_CHUNK && p.received + n <= |p.sock.sent| {
        ArriveKeeps(c, p, n);
      }
    case Hangup =>
  }

  lemma {:induction false} RunInv<T(!new)>(c: Codec<T>, cached: seq<T>, steps: seq<Step<T>>)
    requires c.Sound() && Clean(c, cached, steps)
    ensures Inv(c, Run(c, cached, steps))
    decreases |steps|
  {
    if steps == [] {
      ConnectedInv(c);
    } else {
      var init := steps[..|steps| - 1];
      RunInv(c, cached, init);
      ApplyKeeps(c, cached, Run(c, cached, init), steps[|steps| - 1]);
    }
  }

  /**
   Sender conservation, with its exact condition: in every state of a run the bytes sent and the
   buffer make up the accepted messages if and only if no `write_fd` of it ended on a stale `errno`
   and the cache was put into an empty buffer.
   */
  lemma {:induction false} ConservedIffClean<T(!new)>(c: Codec<T>, cached: seq<T>, steps: seq<Step<T>>)
    requires c.Sound()
    ensures (forall k :: 0 <= k <= |steps| ==> Conserved(c, Run(c, cached, steps[..k]))) <==> Clean(c, cached, steps)
    decreases |steps|
  {
    assert steps[..|steps|] == steps;
    if steps == [] {
      ConnectedInv(c);
    } else {
      var init := steps[..|steps| - 1];
      ConservedIffClean(c, cached, init);
      assert forall k :: 0 <= k < |steps| ==> init[..k] == steps[..k];
      if Clean(c, cached, init) {
        RunInv(c, cached, init);
        ApplyKeeps(c, cached, Run(c, cached, init), steps[|steps| - 1]);
        assert forall k :: 0 <= k < |steps| ==> Conserved(c, Run(c, cached, steps[..k]));
      }
    }
  }

  // ---------- The end-to-end theorem ----------

  lemma EmptyStream<T(!new)>(c: Codec<T>, ms: seq<T>)
    requires c.Sound() && Stream(c, ms) == []
    ensures ms == []
  {
  }

  lemma PartialIsNoStream<T(!new)>(c: Codec<T>, ms: seq<T>, rest: seq<byte>)
    requires c.Sound() && rest == Stream(c, ms) && Partial(c, rest)
    ensures ms == []
  {
    if ms != [] {
      var m :| |rest| < |Frame(c, m)| && rest <= Frame(c, m);
      var f := Frame(c, m);
      var x := Stream(c, ms[1..]) + f[|rest|..];
      assert Frame(c, ms[0]) + x == rest + f[|rest|..] == f + [];
      FramePrefixFree(c, ms[0], m, x, []);
      assert false;
    }
  }

  /**
   The topic pipe, end to end. In every run of publishes, partial writes, would-blocks, failures and
   network chunkings: the messages given to the callbacks are a prefix of those accepted into the
   send buffer, which are a subsequence of those published, and they are all of those once the send
   buffer and the connection have drained. While the socket is open, the bytes sent followed by
   the buffer are whole frames.
   */
  lemma EndToEnd<T(!new)>(c: Codec<T>, cached: seq<T>, steps: seq<Step<T>>)
    requires c.Sound() && Clean(c, cached, steps)
    ensures var p := Run(c, cached, steps);
      && p.intake.msgs <= p.accepted
      && Subsequence(p.accepted, p.offered)
      && (p.sock.open ==> p.sock.sent + p.sock.buffer == Stream(c, p.accepted))
      && (p.sock.open && p.sock.buffer == [] && p.received == |p.sock.sent| ==>
            p.intake == Intake(p.accepted, []))
  {
    RunInv(c, cached, steps);
    Drained(c, Run(c, cached, steps));
  }

  lemma Drained<T(!new)>(c: Codec<T>, p: Pipe<T>)
    requires c.Sound() && Inv(c, p)
    ensures p.intake.msgs <= p.accepted
    ensures p.sock.open && p.sock.buffer == [] && p.received == |p.sock.sent| ==>
      p.intake == Intake(p.accepted, [])
  {
    DeliveredPrefix(c, p);
    if p.sock.open && p.sock.buffer == [] && p.received == |p.sock.sent| {
      assert p.sock.sent + [] == p.sock.sent;
      var tail := p.accepted[|p.intake.msgs|..];
      assert p.intake.kept + Stream(c, p.accepted)[p.received..] == p.intake.kept;
      if p.intake.kept != [] {
        PartialIsNoStream(c, tail, p.intake.kept);
      } else {
        EmptyStream(c, tail);
      }
    }
  }

  /** The send buffer is bounded by the larger of the replayed cache and the limit plus one frame,
      whatever `errno` reads. */
  lemma {:induction false} BufferBounded<T(!new)>(
    c: Codec<T>, cached: seq<T>, steps: seq<Step<T>>, maxFrame: nat)
    requires c.Sound()
    requires forall i :: 0 <= i < |steps| && steps[i].Publish? ==> |Frame(c, steps[i].m)| <= maxFrame
    ensures var buffer := Run(c, cached, steps).sock.buffer;
      |buffer| <= |Stream(c, cached)| || |buffer| <= MAX_WRITE_BUFFER_SIZE + maxFrame
    decreases |steps|
  {
    if steps != [] {
      var init, s := steps[..|steps| - 1], steps[|steps| - 1];
      BufferBounded(c, cached, init, maxFrame);
      if s.Publish? {
        WriteConserves(Run(c, cached, init).sock.buffer + Frame(c, s.m), s.script);
      } else if s.Write? {
        WriteConserves(Run(c, cached, init).sock.buffer, s.script);
      }
    }
  }

  /** The copy of the cache, frame by frame, is the stream of the cached messages. */
  lemma {:induction false} CopyIsStream<T(!new)>(c: Codec<T>, cached: seq<T>, frames: seq<seq<byte>>)
    requires c.Sound() && |frames| == |cached| && forall i :: 0 <= i < |cached| ==> frames[i] == Frame(c, cached[i])
    ensures Concat(frames) == Stream(c, cached)
  {
    if cached != [] {
      var n := |cached| - 1;
      CopyIsStream(c, cached[..n], frames[..n]);
      StreamSnoc(c, cached[..n], cached[n]);
      assert cached == cached[..n] + [cached[n]] && frames == frames[..n] + [frames[n]];
    }
  }

  // ---------- What is lost, and that nothing else is ----------

  /** A write of the step meets an error that is not a would-block. */
  ghost predicate StepFails<T(!new)>(c: Codec<T>, p: Pipe<T>, s: Step<T>)
    requires c.Sound()
  {
    p.sock.open &&
    match s
    case Publish(m, script) =>
      |p.sock.buffer| <= MAX_WRITE_BUFFER_SIZE && Fails(|p.sock.buffer| + |Frame(c, m)|, script)
    case Write(script) => Fails(|p.sock.buffer|, script)
    case _ => false
  }

  lemma StepOpen<T(!new)>(c: Codec<T>, cached: seq<T>, p: Pipe<T>, s: Step<T>)
    requires c.Sound()
    ensures Apply(c, cached, p, s).sock.open <==> p.sock.open && !StepFails(c, p, s)
  {
    match s
    case Publish(m, script) => ClosesIff(p.sock.buffer + Frame(c, m), script);
    case Write(script) => ClosesIff(p.sock.buffer, script);
    case _ =>
  }

  /** No step of the run does. */
  ghost predicate NeverFails<T(!new)>(c: Codec<T>, cached: seq<T>, steps: seq<Step<T>>)
    requires c.Sound()
  {
    steps == [] ||
    var init := steps[..|steps| - 1];
    NeverFails(c, cached, init) && !StepFails(c, Run(c, cached, init), steps[|steps| - 1])
  }

  /** Exactly when the socket is still open: no write of the run met an error other than a would-block. */
  lemma {:induction false} OpenIffNoFailure<T(!new)>(c: Codec<T>, cached: seq<T>, steps: seq<Step<T>>)
    requires c.Sound()
    ensures Run(c, cached, steps).sock.open <==> NeverFails(c, cached, steps)
    decreases |steps|
  {
    if steps != [] {
      var init := steps[..|steps| - 1];
      OpenIffNoFailure(c, cached, init);
      StepOpen(c, cached, Run(c, cached, init), steps[|steps| - 1]);
    }
  }

  predicate NoErrors<T>(steps: seq<Step<T>>)
  {
    forall i, j :: 0 <= i < |steps| && (steps[i].Publish? || steps[i].Write?) && 0 <= j < |steps[i].script| ==>
      steps[i].script[j].count >= 0 || steps[i].script[j].again
  }

  /** Full kernel buffers close no socket. */
  lemma {:induction false} StaysOpen<T(!new)>(c: Codec<T>, cached: seq<T>, steps: seq<Step<T>>)
    requires c.Sound() && NoErrors(steps)
    ensures Run(c, cached, steps).sock.open
    decreases |steps|
  {
    if steps != [] {
      var init, s := steps[..|steps| - 1], steps[|steps| - 1];
      StaysOpen(c, cached, init);
      assert s.Publish? || s.Write? ==> forall j :: 0 <= j < |s.script| ==> s.script[j].count >= 0 || s.script[j].again;
      StepOpen(c, cached, Run(c, cached, init), s);
    }
  }

  /** The message published by the step does not get into the buffer. */
  predicate Drops<T>(p: Pipe<T>, s: Step<T>)
  {
    s.Bypass? || (s.Publish? && (!p.sock.open || |p.sock.buffer| > MAX_WRITE_BUFFER_SIZE))
  }

  lemma AcceptedAtMost<T(!new)>(c: Codec<T>, cached: seq<T>, p: Pipe<T>, s: Step<T>)
    requires c.Sound() && |p.accepted| <= |p.offered|
    ensures var p' := Apply(c, cached, p, s);
      && |p'.accepted| <= |p'.offered|
      && (p'.accepted == p'.offered <==> p.accepted == p.offered && !Drops(p, s))
  {
    CancelEnd(p.accepted, p.offered, cached);
    if s.Publish? { CancelEnd(p.accepted, p.offered, [s.m]); }
  }

  /** No message published in the run is dropped. */
  ghost predicate NeverDrops<T(!new)>(c: Codec<T>, cached: seq<T>, steps: seq<Step<T>>)
    requires c.Sound()
  {
    steps == [] ||
    var init := steps[..|steps| - 1];
    NeverDrops(c, cached, init) && !Drops(Run(c, cached, init), steps[|steps| - 1])
  }

  /** Exactly when everything that was to be sent has got into the buffer: no publish was stopped by
      another subscriber's failure, and each found the socket open and the buffer within its limit. */
  lemma {:induction false} AcceptedIffNoDrop<T(!new)>(c: Codec<T>, cached: seq<T>, steps: seq<Step<T>>)
    requires c.Sound()
    ensures var p := Run(c, cached, steps);
      |p.accepted| <= |p.offered| && (p.accepted == p.offered <==> NeverDrops(c, cached, steps))
    decreases |steps|
  {
    if steps != [] {
      var init := steps[..|steps| - 1];
      AcceptedIffNoDrop(c, cached, init);
      AcceptedAtMost(c, cached, Run(c, cached, init), steps[|steps| - 1]);
    }
  }

  /** The messages published in a run, in order. */
  function Published<T>(steps: seq<Step<T>>): (ms: seq<T>)
  {
    if steps == [] then []
    else
      var s := steps[|steps| - 1];
      Published(steps[..|steps| - 1]) + if s.Publish? || s.Bypass? then [s.m] else []
  }

  lemma {:induction false} OfferedIsPublished<T(!new)>(c: Codec<T>, cached: seq<T>, steps: seq<Step<T>>)
    requires c.Sound() && steps != [] && steps[0].Attach?
    ensures var p := Run(c, cached, steps); p.attached && p.offered == cached + Published(steps)
    decreases |steps|
  {
    var init, s := steps[..|steps| - 1], steps[|steps| - 1];
    if init == [] {
      assert Run(c, cached, steps) == Apply(c, cached, Connected(), Attach);
      assert [] + cached == cached && Published(init) == [];
    } else {
      OfferedIsPublished(c, cached, init);
      Assoc(cached, Published(init), if s.Publish? || s.Bypass? then [s.m] else []);
    }
  }

  /**
   Nothing is lost without a reason. In every clean run of a connection that is made before anything is
   published to it, and in which no write fails and no publish is dropped: once the buffer and the
   connection have drained, the callbacks were given the cached messages and then all that were
   published, each once and in order.
   */
  lemma EverythingArrives<T(!new)>(c: Codec<T>, cached: seq<T>, steps: seq<Step<T>>)
    requires c.Sound() && Clean(c, cached, steps) && steps != [] && steps[0].Attach?
    requires NeverFails(c, cached, steps) && NeverDrops(c, cached, steps)
    ensures var p := Run(c, cached, steps);
      p.sock.buffer == [] && p.received == |p.sock.sent| ==> p.intake == Intake(cached + Published(steps), [])
  {
    OpenIffNoFailure(c, cached, steps);
    AcceptedIffNoDrop(c, cached, steps);
    OfferedIsPublished(c, cached, steps);
    EndToEnd(c, cached, steps);
  }

  lemma CleanSnoc<T(!new)>(c: Codec<T>, cached: seq<T>, steps: seq<Step<T>>, s: Step<T>)
    requires c.Sound() && Clean(c, cached, steps) && CleanStep(c, Run(c, cached, steps), s)
    ensures Clean(c, cached, steps + [s])
  {
    var all := steps + [s];
    assert all[..|all| - 1] == steps && all[|all| - 1] == s;
  }

  /** The subscriber listens until it hangs up, and from then on the callbacks get nothing more. */
  lemma {:induction false} ListeningIff<T(!new)>(c: Codec<T>, cached: seq<T>, steps: seq<Step<T>>)
    requires c.Sound()
    ensures Run(c, cached, steps).listening <==> Hangup !in steps
    ensures steps != [] && Hangup in steps[..|steps| - 1] ==>
      Run(c, cached, steps).intake == Run(c, cached, steps[..|steps| - 1]).intake
    decreases |steps|
  {
    if steps != [] {
      var init, s := steps[..|steps| - 1], steps[|steps| - 1];
      ListeningIff(c, cached, init);
      assert steps == init + [s];
      ListensOn(c, cached, Run(c, cached, init), s);
    }
  }

  lemma ListensOn<T(!new)>(c: Codec<T>, cached: seq<T>, p: Pipe<T>, s: Step<T>)
    requires c.Sound()
    ensures var p' := Apply(c, cached, p, s);
      (p'.listening <==> p.listening && !s.Hangup?) && (!p.listening ==> p'.intake == p.intake)
  {
  }

  /** The receive loop takes in all that was sent. */
  lemma {:induction false} ReceivesAll<T(!new)>(c: Codec<T>, cached: seq<T>, steps: seq<Step<T>>)
    returns (more: seq<Step<T>>)
    requires c.Sound() && Clean(c, cached, steps) && Run(c, cached, steps).listening
    ensures Clean(c, cached, steps + more) && forall s :: s in more ==> s.Receive?
    ensures var p, p' := Run(c, cached, steps), Run(c, cached, steps + more);
      p'.sock == p.sock && p'.accepted == p.accepted && p'.received == |p'.sock.sent|
    decreases var p := Run(c, cached, steps); |p.sock.sent| - p.received
  {
    RunInv(c, cached, steps);
    var p := Run(c, cached, steps);
    if p.received == |p.sock.sent| {
      more := [];
      assert steps + more == steps;
    } else {
      var left := |p.sock.sent| - p.received;
      var s := Receive(if left < MAX_CHUNK then left else MAX_CHUNK);
      CleanSnoc(c, cached, steps, s);
      RunSnoc(c, cached, steps, s);
      var rest := ReceivesAll(c, cached, steps + [s]);
      more := [s] + rest;
      Assoc(steps, [s], rest);
    }
  }

  /** From every state of a clean run in which both ends are open, some run of one write and of receives
      delivers everything that is in the buffer or under way. */
  lemma Drains<T(!new)>(c: Codec<T>, cached: seq<T>, steps: seq<Step<T>>) returns (more: seq<Step<T>>)
    requires c.Sound() && Clean(c, cached, steps) && NeverFails(c, cached, steps) && Hangup !in steps
    ensures Clean(c, cached, steps + more) && forall s :: s in more ==> s.Write? || s.Receive?
    ensures Run(c, cached, steps + more).intake == Intake(Run(c, cached, steps).accepted, [])
  {
    OpenIffNoFailure(c, cached, steps);
    ListeningIff(c, cached, steps);
    var p := Run(c, cached, steps);
    var all := WriteResult(|p.sock.buffer|, false);
    var s: Step<T> := Write([all]);
    WriteAll(p.sock.buffer, all);
    CleanSnoc(c, cached, steps, s);
    RunSnoc(c, cached, steps, s);
    var rest := ReceivesAll(c, cached, steps + [s]);
    more := [s] + rest;
    Assoc(steps, [s], rest);
    EndToEnd(c, cached, steps + more);
  }

  /** An encoding of the booleans as one byte each. */
  ghost function BoolCodec(): (c: Codec<bool>)
    ensures c.Sound()
    ensures Frame(c, false) == [1, 0, 0, 0, 0] && Frame(c, true) == [1, 0, 0, 0, 1]
  {
    var c := Codec((m: bool) => if m then [1] else [0], (b: seq<byte>) => if b == [1] then Some(true) else Some(false));
    assert c.encode(true) == [1] && c.encode(false) == [0];
    c
  }

  /**
   Why the run has to be clean: one short write that leaves a stale EAGAIN in `errno`, and the
   subscriber is given `true` where only `false` was ever published. The four bytes taken by the
   short write go out again, so the first byte of the header is read as the message.
   */
  lemma StaleErrnoCorrupts() returns (steps: seq<Step<bool>>)
    ensures var p := Run(BoolCodec(), [], steps);
      p.sock.open && p.offered == p.accepted == [false, false] && p.intake.msgs == [true]
  {
    var c := BoolCodec();
    var first: Step<bool> := Publish(false, [WriteResult(4, true)]);
    var second: Step<bool> := Publish(false, [WriteResult(10, false)]);
    var p0 := Run(c, [], []);
    assert p0 == Connected();
    RunSnoc(c, [], [], first);
    FirstPublish(p0);
    var p1 := Apply(c, [], p0, first);
    assert p1.accepted == [false];
    RunSnoc(c, [], [] + [first], second);
    SecondPublish(p1);
    var p2 := Apply(c, [], p1, second);
    assert p2.accepted == [false, false];
    RunSnoc(c, [], [] + [first] + [second], Receive(5));
    ReadBack(p2);
    steps := [] + [first] + [second] + [Receive(5)];
  }

  lemma RunSnoc<T(!new)>(c: Codec<T>, cached: seq<T>, steps: seq<Step<T>>, s: Step<T>)
    requires c.Sound()
    ensures Run(c, cached, steps + [s]) == Apply(c, cached, Run(c, cached, steps), s)
  {
    assert (steps + [s])[..|steps|] == steps;
  }

  /**
   And why the connection must not be overtaken: a message published to the socket before the copy of the
   cache is put into its buffer, and not taken by the kernel at once, is gone, with any encoding. The
   connection has drained, and the subscriber never gets it.
   */
  lemma OvertakenAttachLoses<T(!new)>(c: Codec<T>, m: T) returns (steps: seq<Step<T>>)
    requires c.Sound()
    ensures var p := Run(c, [], steps);
      p.sock == Socket([], [], true) && p.attached && p.accepted == [m] && p.intake == Intake([], [])
  {
    var blocked: Step<T> := Publish(m, [WriteResult(-1, true)]);
    RunSnoc(c, [], [], blocked);
    var f := Frame(c, m);
    assert [] + f == f && f != [];
    assert WriteLoop(f, [WriteResult(-1, true)]) == WriteOutcome([], f, true);
    var one := [] + [blocked];
    assert [] + [m] == [m];
    assert Run(c, [], one) == Pipe([m], [m], Socket(f, [], true), 0, Intake([], []), true, false);
    RunSnoc(c, [], one, Attach);
    assert [m] + [] == [m];
    steps := one + [Attach];
  }

  lemma FirstPublish(p: Pipe<bool>)
    requires p.sock == Socket([], [], true) && p.intake == Intake([], [])
    ensures var p' := Apply(BoolCodec(), [], p, Publish(false, [WriteResult(4, true)]));
      p' == p.(offered := p.offered + [false], accepted := p.accepted + [false],
               sock := Socket([1, 0, 0, 0, 0], [1, 0, 0, 0], true))
  {
    var f := Frame(BoolCodec(), false);
    assert [] + f == f && [] + f[..4] == f[..4] == [1, 0, 0, 0];
    assert WriteLoop(f, [WriteResult(4, true)]) == WriteOutcome(f[..4], f, true);
  }

  lemma SecondPublish(p: Pipe<bool>)
    requires p.sock == Socket([1, 0, 0, 0, 0], [1, 0, 0, 0], true) && p.intake == Intake([], [])
    ensures var p' := Apply(BoolCodec(), [], p, Publish(false, [WriteResult(10, false)]));
      p' == p.(offered := p.offered + [false], accepted := p.accepted + [false],
               sock := Socket([], [1, 0, 0, 0] + [1, 0, 0, 0, 0, 1, 0, 0, 0, 0], true))
  {
    var f := Frame(BoolCodec(), false);
    assert p.sock.buffer + f == [1, 0, 0, 0, 0, 1, 0, 0, 0, 0];
    WriteAll(p.sock.buffer + f, WriteResult(10, false));
  }

  lemma ReadBack(p: Pipe<bool>)
    requires p.sock.sent == [1, 0, 0, 0] + [1, 0, 0, 0, 0, 1, 0, 0, 0, 0]
    requires p.received == 0 && p.intake == Intake([], []) && p.listening
    ensures var p' := Apply(BoolCodec(), [], p, Receive(5));
      p' == p.(received := 5, intake := Intake([true], []))
  {
    var chunk := p.sock.sent[0..5];
    assert chunk == [1, 0, 0, 0, 1];
    FeedTrue(chunk);
    FeedIs(BoolCodec(), p.intake, chunk, Intake([true], []));
  }

  lemma FeedTrue(chunk: seq<byte>)
    requires chunk == [1, 0, 0, 0, 1]
    ensures IsFeed(BoolCodec(), Intake([], []), chunk, Intake([true], []))
  {
    var c := BoolCodec();
    StreamSnoc(c, [], true);
    assert [] + [true] == [true] && [] + Frame(c, true) == Frame(c, true) && chunk + [] == chunk;
    FeedWhole(c, chunk, [true], []);
  }

  lemma WriteAll(pending: seq<byte>, r: WriteResult)
    requires r.count == |pending|
    ensures WriteLoop(pending, [r]) == WriteOutcome(pending, [], true)
  {
    if pending != [] {
      assert pending[|pending|..] == [] && pending[..|pending|] + [] == pending;
    }
  }
}
