/**
 The sending side of a topic (`TCPClient`): one buffer per subscriber socket, filled by `publish`
 and emptied as far as `write` lets it, and the cache that a late subscriber is replayed.
 */
module TopicSender {
  import opened Framing
  import opened Sequences

  const MAX_WRITE_BUFFER_SIZE := 65536

  /** One `write`: its return value and whether `errno` reads EAGAIN behind it. The code reads
      `errno` after a successful short write too, where it is left over from an earlier call. */
  datatype WriteResult = WriteResult(count: int, again: bool) {
    /** The kernel takes at most the n bytes it was offered, and reports any failure as -1. */
    function Clip(n: nat): (k: int)
      ensures -1 <= k <= n
    {
      if count < 0 then -1 else if count > n then n else count
    }

    /** `errno` belongs to this call: it says EAGAIN only when nothing was written. */
    predicate Honest() { again ==> count <= 0 }
  }

  /** A subscriber connection as its sender sees it; `sent` is everything the kernel has taken. */
  datatype Socket = Socket(buffer: seq<byte>, sent: seq<byte>, open: bool)

  datatype WriteOutcome = WriteOutcome(wrote: seq<byte>, left: seq<byte>, open: bool)

  /** The loop of `write_fd` over the bytes still to send; the script lists the kernel's answers,
      and where it ends the kernel blocks. */
  function WriteLoop(pending: seq<byte>, script: seq<WriteResult>): (o: WriteOutcome)
    decreases |script|
  {
    if pending == [] || script == [] then
      WriteOutcome([], pending, true)
    else
      var k := script[0].Clip(|pending|);
      if k < |pending| && k == -1 && !script[0].again then
        WriteOutcome([], [], false)
      else if k < |pending| && script[0].again then
        // The loop is left before `n -= nwrite`: bytes taken by this call stay in the buffer.
        WriteOutcome(if k > 0 then pending[..k] else [], pending, true)
      else
        var o := WriteLoop(pending[k..], script[1..]);
        WriteOutcome(pending[..k] + o.wrote, o.left, o.open)
  }

  /** The loop ends in a successful short write behind which `errno` still reads EAGAIN. */
  predicate EndsStale(pending: seq<byte>, script: seq<WriteResult>)
    decreases |script|
  {
    pending != [] && script != [] &&
    var k := script[0].Clip(|pending|);
    if k < |pending| && script[0].again then k > 0
    else k >= 0 && EndsStale(pending[k..], script[1..])
  }

  lemma {:induction false} HonestNotStale(pending: seq<byte>, script: seq<WriteResult>)
    requires forall i :: 0 <= i < |script| ==> script[i].Honest()
    ensures !EndsStale(pending, script)
    decreases |script|
  {
    if pending != [] && script != [] {
      var k := script[0].Clip(|pending|);
      if k >= 0 {
        HonestNotStale(pending[k..], script[1..]);
      }
    }
  }

  lemma {:induction false} StaleStaysOpen(pending: seq<byte>, script: seq<WriteResult>)
    requires EndsStale(pending, script)
    ensures WriteLoop(pending, script).open
    decreases |script|
  {
    var k := script[0].Clip(|pending|);
    if !(k < |pending| && script[0].again) {
      StaleStaysOpen(pending[k..], script[1..]);
    }
  }

  /**
   Conservation of bytes by `write_fd`, with the exact condition: on a socket that stays open,
   what went out followed by what is kept is what there was to send if and only if the loop did
   not leave on a stale `errno`. Otherwise the bytes of the last write are kept and go out twice.
   In every case the buffer does not grow, and a failure empties it.
   */
  lemma {:induction false} WriteConserves(pending: seq<byte>, script: seq<WriteResult>)
    ensures var o := WriteLoop(pending, script);
      && (o.open ==> (o.wrote + o.left == pending <==> !EndsStale(pending, script)))
      && (!EndsStale(pending, script) ==> o.wrote <= pending)
      && |o.left| <= |pending|
      && (!o.open ==> o.left == [])
    decreases |script|
  {
    if pending != [] && script != [] {
      var k := script[0].Clip(|pending|);
      if k < |pending| && k == -1 && !script[0].again {
      } else if k < |pending| && script[0].again {
        if k > 0 {
          assert |pending[..k] + pending| > |pending|;
        }
      } else {
        WriteConserves(pending[k..], script[1..]);
        var o := WriteLoop(pending[k..], script[1..]);
        Cut(pending, k);
        Assoc(pending[..k], o.wrote, o.left);
        Cancel(pending[..k], o.wrote + o.left, pending[k..]);
      }
    }
  }

  /** What the kernel takes by the first i answers, when each of them is a short success. */
  function Total(script: seq<WriteResult>, i: nat): (n: int)
    requires i <= |script|
  {
    if i == 0 then 0 else script[0].count + Total(script[1..], i - 1)
  }

  /** With `size` bytes to send the loop asks for answer i: those before it were short successes with a
      clear `errno`. */
  predicate Reaches(size: int, script: seq<WriteResult>, i: nat)
  {
    && i <= |script| && Total(script, i) < size
    && forall j :: 0 <= j < i ==> script[j].count >= 0 && !script[j].again
  }

  /** The answer behind which the loop is left: an error, an EAGAIN, or all that was asked for. */
  predicate Ends(size: int, script: seq<WriteResult>, i: nat)
    requires i < |script|
  {
    script[i].count < 0 || script[i].again || Total(script, i) + script[i].count >= size
  }

  /** The loop meets an error that is not a would-block. */
  predicate Fails(size: int, script: seq<WriteResult>)
  {
    exists i :: 0 <= i < |script| && Reaches(size, script, i) && script[i].count < 0 && !script[i].again
  }

  lemma {:induction false} ReachesTail(size: int, script: seq<WriteResult>, i: nat)
    requires script != [] && script[0].count >= 0 && !script[0].again
    ensures i < |script| ==>
      (Reaches(size, script, i + 1) <==> Reaches(size - script[0].count, script[1..], i))
  {
    if i < |script| {
      assert forall j :: 0 <= j < i ==> script[1..][j] == script[j + 1];
      if Reaches(size - script[0].count, script[1..], i) {
        forall j | 0 <= j < i + 1 ensures script[j].count >= 0 && !script[j].again {
          assert j > 0 ==> script[j] == script[1..][j - 1];
        }
      }
    }
  }

  lemma {:induction false} ReachesShort(size: int, script: seq<WriteResult>, i: nat)
    requires Reaches(size, script, i)
    ensures Total(script, i) >= 0 && (i > 0 ==> script[0].count < size)
    decreases i
  {
    if i > 0 {
      ReachesTail(size, script, i - 1);
      ReachesShort(size - script[0].count, script[1..], i - 1);
    }
  }

  lemma Glue(s: seq<byte>, k: nat, n: nat)
    requires k + n <= |s|
    ensures s[..k] + s[k..][..n] == s[..k + n] && s[k..][n..] == s[k + n..]
  {
  }

  /** What is written and what is left when answer i is the end of the loop. */
  function EndAt(pending: seq<byte>, script: seq<WriteResult>, i: nat): (o: WriteOutcome)
    requires i <= |script| && 0 <= Total(script, i) <= |pending|
  {
    var n := Total(script, i);
    if i == |script| then WriteOutcome(pending[..n], pending[n..], true)
    else if n + script[i].count >= |pending| then WriteOutcome(pending, [], true)
    else if script[i].count < 0 && !script[i].again then WriteOutcome(pending[..n], [], false)
    else WriteOutcome(pending[..if script[i].count > 0 then n + script[i].count else n], pending[n..], true)
  }

  lemma EndAtTail(pending: seq<byte>, script: seq<WriteResult>, i: nat)
    requires 0 < i <= |script| && 0 <= script[0].count < |pending| && script[0].count <= Total(script, i) < |pending|
    ensures 0 <= Total(script[1..], i - 1) < |pending| - script[0].count
    ensures var k := script[0].count; var o := EndAt(pending[k..], script[1..], i - 1);
      EndAt(pending, script, i) == WriteOutcome(pending[..k] + o.wrote, o.left, o.open)
  {
    var k, n := script[0].count, Total(script[1..], i - 1);
    Glue(pending, k, n);
    if i < |script| {
      assert script[i] == script[1..][i - 1];
      if n + script[i].count >= |pending| - k {
        Cut(pending, k);
      } else if script[i].count > 0 {
        Glue(pending, k, n + script[i].count);
      }
    }
  }

  /** The loop, told by its answers: which of them it asks for, and what it leaves behind each end. */
  lemma {:induction false} LoopStops(pending: seq<byte>, script: seq<WriteResult>, i: nat)
    requires Reaches(|pending|, script, i) && (i < |script| ==> Ends(|pending|, script, i))
    ensures 0 <= Total(script, i) < |pending| && WriteLoop(pending, script) == EndAt(pending, script, i)
    decreases i
  {
    ReachesShort(|pending|, script, i);
    if i == 0 {
      EndsAtOnce(pending, script);
    } else {
      var k := script[0].count;
      ReachesTail(|pending|, script, i - 1);
      LoopStops(pending[k..], script[1..], i - 1);
      EndAtTail(pending, script, i);
    }
  }

  lemma EndsAtOnce(pending: seq<byte>, script: seq<WriteResult>)
    requires pending != [] && (script != [] ==> Ends(|pending|, script, 0))
    ensures WriteLoop(pending, script) == EndAt(pending, script, 0)
  {
    if script != [] && script[0].count >= |pending| {
      assert pending[|pending|..] == [] && pending[..|pending|] + [] == pending;
    }
  }

  /** The loop always has such an end: with nothing failed, it is the end of the script at the latest. */
  lemma {:induction false} StopsSomewhere(pending: seq<byte>, script: seq<WriteResult>) returns (i: nat)
    requires pending != []
    ensures Reaches(|pending|, script, i) && (i < |script| ==> Ends(|pending|, script, i))
    decreases |script|
  {
    i := 0;
    if script != [] && !Ends(|pending|, script, 0) {
      i := StopsSomewhere(pending[script[0].count..], script[1..]);
      ReachesTail(|pending|, script, i);
      i := i + 1;
    }
  }

  /** Exactly when the socket is closed: the loop gets as far as an answer that is an error other than a
      would-block. */
  lemma ClosesIff(pending: seq<byte>, script: seq<WriteResult>)
    ensures !WriteLoop(pending, script).open <==> Fails(|pending|, script)
  {
    if pending == [] {
      forall i | 0 <= i < |script| ensures !Reaches(0, script, i) {
        if Reaches(0, script, i) { ReachesShort(0, script, i); }
      }
    } else {
      var i := StopsSomewhere(pending, script);
      LoopStops(pending, script, i);
      if Fails(|pending|, script) {
        var j :| 0 <= j < |script| && Reaches(|pending|, script, j) && script[j].count < 0 && !script[j].again;
        LoopStops(pending, script, j);
      }
    }
  }

  /** What `write_to_socket` does to one socket of the topic. */
  function Offer(s: Socket, msg: seq<byte>, script: seq<WriteResult>): (s': Socket)
  {
    if !s.open || |s.buffer| > MAX_WRITE_BUFFER_SIZE then s
    else
      var o := WriteLoop(s.buffer + msg, script);
      Socket(o.left, s.sent + o.wrote, o.open)
  }

  // ---------- The class ----------

  /** The loop of `write_fd`: n is what it has left to send when it stops. */
  method Pump(toSend: seq<byte>, script: seq<WriteResult>) returns (n: nat, taken: seq<byte>, failed: bool)
    ensures n <= |toSend|
    ensures WriteLoop(toSend, script) == WriteOutcome(taken, if failed then [] else toSend[|toSend| - n..], !failed)
  {
    n, taken, failed := |toSend|, [], false;
    var i := 0;
    ghost var pending, answers := toSend, script;
    while n > 0 && i < |script|
      invariant 0 <= n <= |toSend| && 0 <= i <= |script|
      invariant pending == toSend[|toSend| - n..] && answers == script[i..]
      invariant var o := WriteLoop(pending, answers);
        WriteLoop(toSend, script) == WriteOutcome(taken + o.wrote, o.left, o.open)
      decreases |script| - i
    {
      var nwrite := script[i].Clip(n);
      assert answers[0] == script[i] && |pending| == n;
      ghost var o := WriteLoop(pending, answers);
      var chunk := if nwrite > 0 then toSend[|toSend| - n..|toSend| - n + nwrite] else [];
      assert nwrite > 0 ==> chunk == pending[..nwrite];
      if nwrite < n {
        if nwrite == -1 && !script[i].again {
          assert taken + [] == taken;
          failed := true;
          return;
        } else if script[i].again {
          taken := taken + chunk;
          return;
        }
      }
      assert chunk == pending[..nwrite];
      ghost var o' := WriteLoop(pending[nwrite..], answers[1..]);
      Assoc(taken, chunk, o'.wrote);
      pending, answers := pending[nwrite..], answers[1..];
      taken := taken + chunk;
      n := n - nwrite;
      i := i + 1;
    }
    assert taken + [] == taken;
  }

  /** An order in which a set is visited: every element, once. */
  ghost predicate Enumerates(frames: seq<seq<byte>>, cached: set<seq<byte>>)
  {
    && (forall f :: f in frames <==> f in cached)
    && (forall i, j :: 0 <= i < j < |frames| ==> frames[i] != frames[j])
  }

  /** The sockets of a topic; looking one up that is not there finds none. */
  function FdsOf(topicFds: map<string, set<nat>>, topic: string): set<nat>
  {
    if topic in topicFds then topicFds[topic] else {}
  }

  /** Every visited descriptor was offered the message, those in `closed` failed over it, and no other
      descriptor was touched. */
  ghost predicate Offered(
    data0: seq<seq<byte>>, sent0: map<nat, seq<byte>>, data: seq<seq<byte>>, sent: map<nat, seq<byte>>,
    visited: set<nat>, closed: set<nat>, msg: seq<byte>, scripts: map<nat, seq<WriteResult>>)
  {
    && |data| == |data0| && sent.Keys == sent0.Keys && visited <= scripts.Keys && closed <= visited
    && (forall fd :: fd in sent0 ==> fd < |data0|) && visited <= sent0.Keys
    && (forall fd :: fd in visited ==>
          Socket(data[fd], sent[fd], fd !in closed) == Offer(Socket(data0[fd], sent0[fd], true), msg, scripts[fd]))
    && (forall fd :: 0 <= fd < |data| && fd !in visited ==> data[fd] == data0[fd])
    && (forall fd :: fd in sent && fd !in visited ==> sent[fd] == sent0[fd])
  }

  lemma OfferedNext(data0: seq<seq<byte>>, sent0: map<nat, seq<byte>>, data: seq<seq<byte>>, sent: map<nat, seq<byte>>,
                    visited: set<nat>, fd: nat, msg: seq<byte>, scripts: map<nat, seq<WriteResult>>)
    requires Offered(data0, sent0, data, sent, visited, {}, msg, scripts)
    requires fd in sent && fd !in visited && fd in scripts
    ensures var s := Offer(Socket(data[fd], sent[fd], true), msg, scripts[fd]);
      Offered(data0, sent0, data[fd := s.buffer], sent[fd := s.sent],
              visited + {fd}, if s.open then {} else {fd}, msg, scripts)
  {
  }

  class TcpClient {
    /** The open sockets of each topic. */
    var topicFds: map<string, set<nat>>
    /** The send buffers, indexed by descriptor. */
    var data: seq<seq<byte>>
    /** The frames of each topic published with the cache flag. */
    var cache: map<string, set<seq<byte>>>
    /** What the kernel has taken from each connected descriptor since it was connected. */
    var sent: map<nat, seq<byte>>

    ghost predicate Valid()
      reads this
    {
      && (forall topic :: topic in topicFds ==> topicFds[topic] <= sent.Keys)
      && (forall fd :: fd in sent ==> fd < |data|)
    }

    ghost function Sock(topic: string, fd: nat): (s: Socket)
      requires Valid() && topic in topicFds && fd in sent
      reads this
    {
      Socket(data[fd], sent[fd], fd in topicFds[topic])
    }

    constructor ()
      ensures Valid() && topicFds == map[] && cache == map[] && |data| == 100
    {
      topicFds, cache, sent := map[], map[], map[];
      data := seq(100, _ => []);
    }

    /** True exactly when the frame is new to the topic's cache; it is in the cache afterwards. */
    method WriteToCache(topic: string, frame: seq<byte>) returns (isNew: bool)
      modifies this`cache
      ensures topic in cache && frame in cache[topic]
      ensures isNew <==> !(topic in old(cache) && frame in old(cache)[topic])
      ensures cache == old(cache)[topic := (if topic in old(cache) then old(cache)[topic] else {}) + {frame}]
    {
      var held := if topic in cache then cache[topic] else {};
      isNew := frame !in held;
      cache := cache[topic := held + {frame}];
    }

    method WriteFd(topic: string, fd: nat, script: seq<WriteResult>) returns (ok: bool)
      requires Valid() && topic in topicFds && fd in topicFds[topic]
      modifies this`data, this`sent, this`topicFds
      ensures Valid() && |data| == |old(data)| && sent.Keys == old(sent.Keys)
      ensures var o := WriteLoop(old(data)[fd], script);
        && data == old(data)[fd := o.left]
        && sent == old(sent)[fd := old(sent)[fd] + o.wrote]
        && ok == o.open
        && topicFds == if ok then old(topicFds) else old(topicFds)[topic := old(topicFds)[topic] - {fd}]
    {
      var toSend := data[fd];
      var n, taken, failed := Pump(toSend, script);
      sent := sent[fd := sent[fd] + taken];
      if failed {
        topicFds := topicFds[topic := topicFds[topic] - {fd}];
        data := data[fd := []];
        return false;
      }
      data := data[fd := data[fd][|toSend| - n..]];
      ok := true;
    }

    /** The body of the loop of `write_to_socket`; true unless the socket failed. */
    method OfferTo(topic: string, fd: nat, msg: seq<byte>, script: seq<WriteResult>) returns (ok: bool)
      requires Valid() && topic in topicFds && fd in topicFds[topic]
      modifies this`data, this`sent, this`topicFds
      ensures Valid() && |data| == |old(data)| && sent.Keys == old(sent.Keys)
      ensures var s' := Offer(Socket(old(data)[fd], old(sent)[fd], true), msg, script);
        && data == old(data)[fd := s'.buffer] && sent == old(sent)[fd := s'.sent] && ok == s'.open
        && topicFds == if ok then old(topicFds) else old(topicFds)[topic := old(topicFds)[topic] - {fd}]
    {
      if |data[fd]| > MAX_WRITE_BUFFER_SIZE {
        return true;
      }
      data := data[fd := data[fd] + msg];
      ok := WriteFd(topic, fd, script);
    }

    /**
     Offers the message to the topic's sockets in whatever order the set yields them, and stops
     behind the first one that fails: the sockets not visited by then never see the message.
     */
    method WriteToSocket(topic: string, msg: seq<byte>, scripts: map<nat, seq<WriteResult>>)
      returns (visited: set<nat>, failed: bool)
      requires Valid() && FdsOf(topicFds, topic) <= scripts.Keys
      modifies this`data, this`sent, this`topicFds
      ensures Valid() && topic in topicFds && topicFds == old(topicFds)[topic := topicFds[topic]]
      ensures topicFds[topic] <= FdsOf(old(topicFds), topic)
      ensures visited <= FdsOf(old(topicFds), topic) && (!failed ==> visited == FdsOf(old(topicFds), topic))
      ensures failed <==> topicFds[topic] != FdsOf(old(topicFds), topic)
      ensures Offered(old(data), old(sent), data, sent,
                      visited, FdsOf(old(topicFds), topic) - topicFds[topic], msg, scripts)
    {
      topicFds := topicFds[topic := FdsOf(topicFds, topic)];
      visited, failed := OfferAll(topic, msg, scripts);
    }

    method OfferAll(topic: string, msg: seq<byte>, scripts: map<nat, seq<WriteResult>>)
      returns (visited: set<nat>, failed: bool)
      requires Valid() && topic in topicFds && topicFds[topic] <= scripts.Keys
      modifies this`data, this`sent, this`topicFds
      ensures Valid() && topic in topicFds && topicFds == old(topicFds)[topic := topicFds[topic]]
      ensures topicFds[topic] <= old(topicFds)[topic]
      ensures visited <= old(topicFds)[topic] && (!failed ==> visited == old(topicFds)[topic])
      ensures failed <==> topicFds[topic] != old(topicFds)[topic]
      ensures Offered(old(data), old(sent), data, sent, visited, old(topicFds)[topic] - topicFds[topic], msg, scripts)
    {
      visited, failed := {}, false;
      var fds := topicFds[topic];
      ghost var data0, sent0 := data, sent;
      while visited != fds
        invariant Valid() && topicFds == old(topicFds) && visited <= fds && !failed
        invariant Offered(data0, sent0, data, sent, visited, {}, msg, scripts)
        decreases fds - visited
      {
        var fd :| fd in fds && fd !in visited;
        OfferedNext(data0, sent0, data, sent, visited, fd, msg, scripts);
        var ok := OfferTo(topic, fd, msg, scripts[fd]);
        visited := visited + {fd};
        if !ok {
          assert fds - topicFds[topic] == {fd};
          failed := true;
          return;
        }
      }
      assert fds - topicFds[topic] == {};
    }

    /** A connection came up: the descriptor joins its topic, and publishes reach it from now on. The vector of
        buffers grows by a hundred at most; false tells that it still ends in front of the descriptor, which the
        code then uses all the same. */
    method InsertFd(topic: string, fd: nat) returns (inRange: bool)
      requires Valid() && forall t :: t in topicFds ==> fd !in topicFds[t]
      modifies this`data, this`sent, this`topicFds
      ensures inRange <==> fd < |old(data)| + 100
      ensures topicFds == old(topicFds)[topic := FdsOf(old(topicFds), topic) + {fd}]
      ensures inRange ==> Valid() && sent == old(sent)[fd := []] && fd < |data| && |old(data)| <= |data|
      ensures forall i :: 0 <= i < |data| ==> data[i] == if i < |old(data)| then old(data)[i] else []
    {
      topicFds := topicFds[topic := FdsOf(topicFds, topic) + {fd}];
      if |data| <= fd {
        data := data + seq(100, _ => []);
      }
      inRange := fd < |data|;
      if inRange {
        sent := sent[fd := []];
      }
    }

    /** The cached frames of the topic, in the order the set yields them. */
    method CopyCache(topic: string, frames: seq<seq<byte>>) returns (first: seq<byte>)
      requires Enumerates(frames, if topic in cache then cache[topic] else {})
      ensures first == Concat(frames)
    {
      first := [];
      for i := 0 to |frames|
        invariant first == Concat(frames[..i])
      {
        first := first + frames[i];
        assert frames[..i + 1][..i] == frames[..i];
      }
      assert frames[..|frames|] == frames;
    }

    /** The copy becomes the buffer, without the lock: whatever was appended to it meanwhile is gone. */
    method AssignData(fd: nat, first: seq<byte>)
      requires Valid() && fd < |data|
      modifies this`data
      ensures Valid() && data == old(data)[fd := first]
    {
      data := data[fd := first];
    }

    /** All of it with nothing in between: the connection starts with exactly the cached frames, and as
        much of them as the kernel takes is written. */
    method Attach(topic: string, fd: nat, frames: seq<seq<byte>>, script: seq<WriteResult>) returns (inRange: bool)
      requires Valid() && forall t :: t in topicFds ==> fd !in topicFds[t]
      requires Enumerates(frames, if topic in cache then cache[topic] else {})
      modifies this`data, this`sent, this`topicFds
      ensures inRange <==> fd < |old(data)| + 100
      ensures inRange ==>
        && Valid() && |old(data)| <= |data| && fd in sent && topic in topicFds
        && var o := WriteLoop(Concat(frames), script);
           Sock(topic, fd) == Socket(o.left, o.wrote, o.open)
      ensures inRange ==> forall other :: 0 <= other < |old(data)| && other != fd ==> data[other] == old(data)[other]
    {
      inRange := InsertFd(topic, fd);
      if !inRange {
        return;
      }
      var first := CopyCache(topic, frames);
      AssignData(fd, first);
      var ok := WriteFd(topic, fd, script);
      assert [] + WriteLoop(first, script).wrote == WriteLoop(first, script).wrote;
    }
  }
}
