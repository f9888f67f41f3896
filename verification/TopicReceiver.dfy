/**
 The receiving side of a topic (`TCPServer`): which connection belongs to which topic, one receive
 buffer per connection, and the loop that reads a socket dry and feeds the topic's decoder.
 */
module TopicReceiver {
  import opened Framing
  import opened Sequences
  import opened Decoders

  /** One `recv`. */
  datatype Recv = Data(bytes: seq<byte>) | WouldBlock | Ended | Failed

  /** The chunks read before the loop is left; a script that ends without a reason blocks. */
  function Chunks(script: seq<Recv>): (chunks: seq<seq<byte>>)
  {
    if script == [] || !script[0].Data? then [] else [script[0].bytes] + Chunks(script[1..])
  }

  /** The loop is left by closing the connection. */
  predicate Closes(script: seq<Recv>)
  {
    script != [] && (script[0].Ended? || script[0].Failed? || (script[0].Data? && Closes(script[1..])))
  }

  /** The chunks are the data in front; what comes behind them tells whether the connection closes. */
  lemma {:induction false} ChunksAre(script: seq<Recv>)
    ensures |Chunks(script)| <= |script|
    ensures forall j :: 0 <= j < |Chunks(script)| ==> script[j] == Data(Chunks(script)[j])
    ensures |Chunks(script)| < |script| ==> !script[|Chunks(script)|].Data?
    ensures Closes(script) <==> |Chunks(script)| < |script| && !script[|Chunks(script)|].WouldBlock?
  {
    if script != [] && script[0].Data? {
      ChunksAre(script[1..]);
    }
  }

  /** What the receive loop has come to, said as `IsFeed` is. */
  ghost predicate Fed<T(!new)>(c: Codec<T>, start: Intake<T>, chunks: seq<seq<byte>>, r: Intake<T>)
  {
    forall k: int :: Any(k) ==> r == FeedAll(c, start, chunks)
  }

  lemma FedStart<T(!new)>(c: Codec<T>, start: Intake<T>)
    ensures Fed(c, start, [], start)
  {
  }

  lemma FedAll<T(!new)>(c: Codec<T>, start: Intake<T>, chunks: seq<seq<byte>>, r: Intake<T>)
    requires Fed(c, start, chunks, r)
    ensures r == FeedAll(c, start, chunks)
  {
    assert Any(0);
  }

  /** One more chunk: the messages it completes go behind those handed over before. */
  lemma FeedAllNext<T(!new)>(c: Codec<T>, start: Intake<T>, chunks: seq<seq<byte>>, k: nat, cur: Intake<T>)
    returns (more: Intake<T>, next: Intake<T>)
    requires k < |chunks| && Fed(c, start, chunks[..k], cur)
    ensures IsFeed(c, Intake([], cur.kept), chunks[k], more) && Fed(c, start, chunks[..k + 1], next)
    ensures next.msgs == cur.msgs + more.msgs && next.kept == more.kept
  {
    FedAll(c, start, chunks[..k], cur);
    more := Feed(c, Intake([], cur.kept), chunks[k]);
    FeedShift(c, cur.msgs, cur.kept, chunks[k]);
    assert chunks[..k + 1][..k] == chunks[..k];
    next := FeedAll(c, start, chunks[..k + 1]);
  }

  lemma FeedShift<T(!new)>(c: Codec<T>, msgs: seq<T>, kept: seq<byte>, chunk: seq<byte>)
    ensures var r := Feed(c, Intake([], kept), chunk);
      Feed(c, Intake(msgs, kept), chunk) == Intake(msgs + r.msgs, r.kept)
  {
  }

  lemma {:induction false} CallsForConcat<T>(functions: seq<Callback>, a: seq<T>, b: seq<T>)
    ensures CallsFor(functions, a + b) == CallsFor(functions, a) + CallsFor(functions, b)
  {
    if a == [] {
      assert a + b == b;
    } else {
      CallsForConcat(functions, a[1..], b);
      assert (a + b)[0] == a[0] && (a + b)[1..] == a[1..] + b;
      Assoc(Row(functions, a[0]), CallsFor(functions, a[1..]), CallsFor(functions, b));
    }
  }

  /** The receive buffer of a connection, empty at first. */
  function BufferOf(received: map<nat, seq<byte>>, fd: nat): seq<byte>
  {
    if fd in received then received[fd] else []
  }

  class TcpServer<T(!new)> {
    var decoders: map<string, SpecifiedDecoder<T>>
    var addrToTopic: map<string, string>
    var fdToAddr: map<nat, string>
    var received: map<nat, seq<byte>>
    var unmapped: map<string, nat>

    /** An address waiting for its topic is that of its connection; no decoder holds messages between
        events. Two connections may have the same address, if a peer came back before its old one was
        closed. */
    ghost predicate Valid()
      reads this, decoders.Values
    {
      && (forall a :: a in unmapped ==> unmapped[a] in fdToAddr && fdToAddr[unmapped[a]] == a)
      && "" !in unmapped && "" !in addrToTopic
      && (forall t :: t in decoders ==> decoders[t].msgs == [])
    }

    constructor ()
      ensures Valid() && decoders == map[] && addrToTopic == map[] && fdToAddr == map[] && unmapped == map[]
    {
      decoders, addrToTopic, fdToAddr, received, unmapped := map[], map[], map[], map[], map[];
    }

    /** A connection was accepted by the kernel, under a descriptor that is not in use. */
    method AcceptNewClient(fd: nat, addr: string)
      requires Valid() && addr != "" && (fd in fdToAddr ==> fdToAddr[fd] == "")
      modifies this`fdToAddr, this`unmapped
      ensures Valid() && fdToAddr == old(fdToAddr)[fd := addr] && unmapped == old(unmapped)[addr := fd]
    {
      fdToAddr := fdToAddr[fd := addr];
      unmapped := unmapped[addr := fd];
    }

    /** The publisher at this address was agreed to serve the topic. False: not connected yet, try again. */
    method AcceptClient(topic: string, addr: string) returns (accepted: bool)
      requires Valid()
      modifies this`addrToTopic, this`received, this`unmapped
      ensures Valid() && (accepted <==> addr in old(unmapped))
      ensures accepted ==>
        && addrToTopic == old(addrToTopic)[addr := topic] && unmapped == old(unmapped) - {addr}
        && received == old(received)[old(unmapped)[addr] := []]
      ensures !accepted ==> addrToTopic == old(addrToTopic) && unmapped == old(unmapped) && received == old(received)
    {
      accepted := addr in unmapped;
      if accepted {
        addrToTopic := addrToTopic[addr := topic];
        received := received[unmapped[addr] := []];
        unmapped := unmapped - {addr};
      }
    }

    method CloseAndDelete(fd: nat)
      requires Valid() && fd in fdToAddr
      modifies this`addrToTopic, this`received, this`unmapped, this`fdToAddr
      ensures Valid()
      ensures fdToAddr == old(fdToAddr)[fd := ""] && received == old(received)[fd := []]
      ensures addrToTopic == old(addrToTopic) - {old(fdToAddr)[fd]}
      ensures unmapped == old(unmapped) - {old(fdToAddr)[fd]}
    {
      var addr := fdToAddr[fd];
      unmapped := unmapped - {addr};
      addrToTopic := addrToTopic - {addr};
      fdToAddr := fdToAddr[fd := ""];
      received := received[fd := []];
    }

    /** One turn of the receive loop: append, decode, handle, erase. */
    method ReadOnce(fd: nat, d: SpecifiedDecoder<T>, bytes: seq<byte>)
      requires fd in received && d.msgs == []
      modifies this`received, d`msgs, d`calls
      ensures d.msgs == []
      ensures var r := Feed(d.codec, Intake([], old(received)[fd]), bytes);
        received == old(received)[fd := r.kept] && d.calls == old(d.calls) + CallsFor(d.functions, r.msgs)
    {
      received := received[fd := received[fd] + bytes];
      var deleteSize := d.Decode(received[fd]);
      d.Handle();
      received := received[fd := received[fd][deleteSize..]];
    }

    /** The same, with what the turns before it did. */
    method ReadTurn(fd: nat, d: SpecifiedDecoder<T>, bytes: seq<byte>,
                    ghost calls: seq<(Callback, T)>, ghost msgs: seq<T>, ghost next: Intake<T>)
      requires fd in received && d.msgs == [] && d.calls == calls + CallsFor(d.functions, msgs)
      requires IsFeed(d.codec, Intake([], received[fd]), bytes, next)
      modifies this`received, d`msgs, d`calls
      ensures d.msgs == [] && received == old(received)[fd := next.kept]
      ensures d.calls == calls + CallsFor(d.functions, msgs + next.msgs)
    {
      assert Any(0);
      ReadOnce(fd, d, bytes);
      CallsForConcat(d.functions, msgs, next.msgs);
      Assoc(calls, CallsFor(d.functions, msgs), CallsFor(d.functions, next.msgs));
    }

    /** The turns of the receive loop, until it would block or ends. */
    method ReadDry(fd: nat, d: SpecifiedDecoder<T>, script: seq<Recv>) returns (closes: bool, ghost r: Intake<T>)
      requires fd in received && d.msgs == []
      modifies this`received, d`msgs, d`calls
      ensures closes == Closes(script) && d.msgs == []
      ensures Fed(d.codec, Intake([], old(received)[fd]), Chunks(script), r)
      ensures received == old(received)[fd := r.kept] && d.calls == old(d.calls) + CallsFor(d.functions, r.msgs)
    {
      var i := 0;
      ghost var chunks, start := Chunks(script), Intake([], received[fd]);
      r := start;
      ChunksAre(script);
      FedStart(d.codec, start);
      assert chunks[..0] == [] && d.calls + CallsFor(d.functions, r.msgs) == d.calls;
      while i < |script| && script[i].Data?
        invariant i <= |chunks| && Fed(d.codec, start, chunks[..i], r)
        invariant d.msgs == [] && received == old(received)[fd := r.kept]
        invariant d.calls == old(d.calls) + CallsFor(d.functions, r.msgs)
      {
        ghost var more, next := FeedAllNext(d.codec, start, chunks, i, r);
        ReadTurn(fd, d, script[i].bytes, old(d.calls), r.msgs, more);
        r := next;
        i := i + 1;
      }
      assert chunks[..i] == chunks;
      closes := i < |script| && !script[i].WouldBlock?;
    }

    /**
     An event on a connection. A connection not routed to a topic with a decoder is left alone.
     Otherwise its own buffer and its topic's callbacks move on as if its chunks were all there is:
     other connections, of the same topic or not, and the other decoders are untouched.
     */
    method HandleClientEvent(fd: nat, hangup: bool, script: seq<Recv>) returns (ghost r: Intake<T>)
      requires Valid() && fd in fdToAddr
      modifies this`addrToTopic, this`received, this`unmapped, this`fdToAddr, decoders.Values
      ensures Valid() && decoders == old(decoders)
      ensures var addr := old(fdToAddr)[fd];
        var routed := !hangup && addr in old(addrToTopic) && old(addrToTopic)[addr] in decoders;
        && (routed ==>
              var d := decoders[old(addrToTopic)[addr]];
              && Fed(d.codec, Intake([], BufferOf(old(received), fd)), Chunks(script), r)
              && d.calls == old(d.calls) + CallsFor(d.functions, r.msgs)
              && received == old(received)[fd := if Closes(script) then [] else r.kept]
              && fdToAddr == (if Closes(script) then old(fdToAddr)[fd := ""] else old(fdToAddr))
              && addrToTopic == (if Closes(script) then old(addrToTopic) - {addr} else old(addrToTopic))
              && unmapped == (if Closes(script) then old(unmapped) - {addr} else old(unmapped))
              && (forall t :: t in decoders && decoders[t] != d ==> decoders[t].calls == old(decoders[t].calls)))
        && (!routed ==>
              && (forall t :: t in decoders ==> decoders[t].calls == old(decoders[t].calls))
              && received == (if hangup then old(received)[fd := []] else old(received))
              && fdToAddr == (if hangup then old(fdToAddr)[fd := ""] else old(fdToAddr))
              && addrToTopic == (if hangup then old(addrToTopic) - {addr} else old(addrToTopic))
              && unmapped == (if hangup then old(unmapped) - {addr} else old(unmapped)))
    {
      r := Intake([], []);
      if hangup {
        CloseAndDelete(fd);
        return;
      }
      var addr := fdToAddr[fd];
      if addr !in addrToTopic || addrToTopic[addr] !in decoders {
        return;
      }
      var d := decoders[addrToTopic[addr]];
      received := received[fd := BufferOf(received, fd)];
      var closes;
      closes, r := ReadDry(fd, d, script);
      if closes {
        CloseAndDelete(fd);
      }
    }
  }
}
