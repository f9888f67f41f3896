/** `serialize` and the class `SpecifiedDecoder`, in the imperative form they have in the code. */
module Decoders {
  import opened Wrappers
  import opened Framing
  import opened Sequences

  /** A user callback, known by its identity only. */
  type Callback = nat

  /** One message to every callback. */
  ghost function Row<T>(functions: seq<Callback>, m: T): (row: seq<(Callback, T)>)
    ensures |row| == |functions|
    ensures forall i :: 0 <= i < |row| ==> row[i] == (functions[i], m)
  {
    seq(|functions|, i requires 0 <= i < |functions| => (functions[i], m))
  }

  /** The calls `handle` makes for one queue: every message in order, to every callback in order. */
  ghost function CallsFor<T>(functions: seq<Callback>, ms: seq<T>): (calls: seq<(Callback, T)>)
  {
    if ms == [] then [] else Row(functions, ms[0]) + CallsFor(functions, ms[1..])
  }

  /** The messages one callback saw. */
  ghost function Seen<T>(f: Callback, calls: seq<(Callback, T)>): (ms: seq<T>)
  {
    if calls == [] then []
    else (if calls[0].0 == f then [calls[0].1] else []) + Seen(f, calls[1..])
  }

  lemma {:induction false} SeenConcat<T>(f: Callback, a: seq<(Callback, T)>, b: seq<(Callback, T)>)
    ensures Seen(f, a + b) == Seen(f, a) + Seen(f, b)
  {
    if a == [] {
      assert a + b == b;
    } else {
      SeenConcat(f, a[1..], b);
      assert (a + b)[0] == a[0] && (a + b)[1..] == a[1..] + b;
      Assoc(if a[0].0 == f then [a[0].1] else [], Seen(f, a[1..]), Seen(f, b));
    }
  }

  lemma {:induction false} SeenRow<T>(functions: seq<Callback>, j: nat, m: T)
    requires j < |functions|
    requires forall i, i' :: 0 <= i < i' < |functions| ==> functions[i] != functions[i']
    ensures Seen(functions[j], Row(functions, m)) == [m]
    decreases |functions|
  {
    var row := Row(functions, m);
    var rest := functions[1..];
    assert row[1..] == Row(rest, m);
    if j == 0 {
      SeenNothing(functions[0], row[1..]);
    } else {
      SeenRow(rest, j - 1, m);
    }
  }

  lemma {:induction false} SeenNothing<T>(f: Callback, calls: seq<(Callback, T)>)
    requires forall i :: 0 <= i < |calls| ==> calls[i].0 != f
    ensures Seen(f, calls) == []
  {
    if calls != [] {
      SeenNothing(f, calls[1..]);
    }
  }

  /** Every registered callback sees every handled message, once and in order. */
  lemma {:induction false} EveryCallbackSeesAll<T>(functions: seq<Callback>, j: nat, ms: seq<T>)
    requires j < |functions|
    requires forall i, i' :: 0 <= i < i' < |functions| ==> functions[i] != functions[i']
    ensures Seen(functions[j], CallsFor(functions, ms)) == ms
    decreases |ms|
  {
    if ms != [] {
      EveryCallbackSeesAll(functions, j, ms[1..]);
      SeenRow(functions, j, ms[0]);
      SeenConcat(functions[j], Row(functions, ms[0]), CallsFor(functions, ms[1..]));
      assert [ms[0]] + ms[1..] == ms;
    }
  }

  /** Fills a buffer of the message's size plus four: the header first, the encoding behind it. */
  method Serialize<T(!new)>(c: Codec<T>, m: T) returns (buf: array<byte>)
    requires |c.encode(m)| + 4 < TWO31
    ensures fresh(buf) && buf[..] == Frame(c, m)
  {
    var body := c.encode(m);
    var head := Header(|body|);
    buf := new byte[|body| + 4](_ => 0);
    for i := 0 to 4
      invariant buf[..i] == head[..i]
    {
      buf[i] := head[i];
    }
    for i := 0 to |body|
      invariant buf[..4] == head
      invariant buf[4..4 + i] == body[..i]
    {
      buf[4 + i] := body[i];
    }
    assert buf[..] == buf[..4] + buf[4..4 + |body|];
  }

  /** Decoding a buffer comes to what was got so far and what decoding from the offset gives. */
  ghost predicate Continues<T(!new)>(c: Codec<T>, buf: seq<byte>, offset: nat, got: seq<T>, whole: Decoded<T>)
    requires offset <= |buf|
  {
    var d := DecodeFrom(c, buf, offset);
    whole.msgs == got + d.msgs && whole.offset == d.offset && whole.ok == d.ok
  }

  /** A message taken is one more message got. */
  lemma ContinuesOn<T(!new)>(c: Codec<T>, buf: seq<byte>, offset: nat, got: seq<T>, whole: Decoded<T>, m: T, next: nat)
    requires offset <= |buf| && Continues(c, buf, offset, got, whole) && TurnAt(c, buf, offset) == Got(m, next)
    ensures Continues(c, buf, next, got + [m], whole)
  {
    Assoc(got, [m], DecodeFrom(c, buf, next).msgs);
  }

  /** Where the loop is left nothing more is got. */
  lemma ContinuesEnds<T(!new)>(c: Codec<T>, buf: seq<byte>, offset: nat, got: seq<T>, whole: Decoded<T>, ok: bool)
    requires offset <= |buf| && Continues(c, buf, offset, got, whole) && TurnAt(c, buf, offset) == Stop(ok)
    ensures whole.msgs == got && whole.offset == offset && whole.ok == ok
  {
    assert got + [] == got;
  }

  /** The body of the loop of `decode`, with its condition. */
  method DecodeTurn<T(!new)>(c: Codec<T>, buf: seq<byte>, offset: nat) returns (t: Turn<T>)
    requires offset <= |buf|
    ensures t == TurnAt(c, buf, offset)
  {
    var total := IntSize(|buf|);
    if offset + 4 > total {
      return Stop(true);
    }
    var size := ReadHeader(buf[offset..]);
    if !FitsUnsigned(offset, size, total) {
      return Stop(true);
    }
    if offset + 4 + size > total {
      return Stop(false);
    }
    var parsed := c.parse(buf[offset + 4..offset + 4 + size]);
    if parsed.None? {
      return Stop(false);
    }
    t := Got(parsed.value, offset + 4 + size);
  }

  /** The loop of `decode`: the messages it pushes, and what it returns. */
  method DecodeLoop<T(!new)>(c: Codec<T>, buf: seq<byte>) returns (got: seq<T>, consumed: int)
    ensures var d := DecodeFrom(c, buf, 0);
      got == d.msgs && consumed == if d.ok then d.offset else 0
  {
    got := [];
    var offset := 0;
    ghost var whole := DecodeFrom(c, buf, 0);
    var t := DecodeTurn(c, buf, 0);
    while t.Got?
      invariant 0 <= offset <= |buf| && t == TurnAt(c, buf, offset)
      invariant Continues(c, buf, offset, got, whole)
      decreases |buf| - offset
    {
      ContinuesOn(c, buf, offset, got, whole, t.msg, t.next);
      got := got + [t.msg];
      offset := t.next;
      t := DecodeTurn(c, buf, offset);
    }
    ContinuesEnds(c, buf, offset, got, whole, t.ok);
    consumed := if t.ok then offset else 0;
  }

  class SpecifiedDecoder<T(!new)> {
    const codec: Codec<T>
    var msgs: seq<T>
    var functions: seq<Callback>
    /** Every call made to a callback so far. */
    var calls: seq<(Callback, T)>

    constructor (codec: Codec<T>)
      ensures this.codec == codec && msgs == [] && functions == [] && calls == []
    {
      this.codec := codec;
      msgs, functions, calls := [], [], [];
    }

    method AddCallback(f: Callback)
      modifies this`functions
      ensures functions == old(functions) + [f]
    {
      functions := functions + [f];
    }

    /** Queues the messages of all complete frames and returns how many bytes they took;
        on a frame that does not parse it returns 0, with the frames in front of it queued. */
    method Decode(buf: seq<byte>) returns (consumed: int)
      modifies this`msgs
      ensures var d := DecodeFrom(codec, buf, 0);
        && msgs == old(msgs) + d.msgs
        && consumed == if d.ok then d.offset else 0
    {
      var got;
      got, consumed := DecodeLoop(codec, buf);
      msgs := msgs + got;
    }

    /** Hands the queue to the callbacks, front first, and leaves it empty. */
    method Handle()
      modifies this`msgs, this`calls
      ensures msgs == [] && calls == old(calls) + CallsFor(functions, old(msgs))
    {
      var size := |msgs|;
      for i := 0 to size
        invariant msgs == old(msgs)[i..]
        invariant calls + CallsFor(functions, msgs) == old(calls) + CallsFor(functions, old(msgs))
      {
        var m := msgs[0];
        ghost var before := calls;
        ghost var row := Row(functions, m);
        for k := 0 to |functions|
          invariant msgs == old(msgs)[i..]
          invariant calls == before + row[..k]
        {
          calls := calls + [(functions[k], m)];
        }
        assert row[..|functions|] == row;
        assert before + CallsFor(functions, msgs) == (before + row) + CallsFor(functions, msgs[1..]);
        msgs := msgs[1..];
      }
    }
  }
}
