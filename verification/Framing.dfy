/**
 The wire format of a topic: a 4-byte little-endian length followed by the encoded message
 (`serialize`), and the incremental parse a subscriber runs over the bytes it has so far
 (`SpecifiedDecoder::decode`).

 The protobuf encoding itself is a parameter, a `Codec`, of which only two things are used:
 parsing undoes encoding, and every encoding is small enough for the `int` sizes of the code.
 */
module Framing {
  import opened Wrappers
  import opened Sequences

  type byte = b: int | 0 <= b < 256

  /** Sizes of the machine integers that the size test mixes. */
  const TWO31 := 0x8000_0000
  const TWO32 := 0x1_0000_0000

  /** The receive buffer of `handle_client_event` never grows beyond this many bytes per `recv`. */
  const MAX_CHUNK := 65536

  datatype Codec<!T(!new)> = Codec(encode: T -> seq<byte>, parse: seq<byte> -> Option<T>) {
    /** Parsing undoes encoding, and a frame plus one received chunk has an `int` length. */
    ghost predicate Sound()
    {
      forall m :: parse(encode(m)) == Some(m) && |encode(m)| + 4 + MAX_CHUNK < TWO31
    }
  }

  // ---------- The length header ----------

  function Header(n: nat): (h: seq<byte>)
    requires n < TWO32
  {
    [n % 256, n / 256 % 256, n / 0x1_0000 % 256, n / 0x100_0000]
  }

  function ReadHeader(b: seq<byte>): (n: nat)
    requires |b| >= 4
    ensures n < TWO32
  {
    var b0: int, b1: int, b2: int, b3: int := b[0], b[1], b[2], b[3];
    b0 + 256 * b1 + 0x1_0000 * b2 + 0x100_0000 * b3
  }

  lemma HeaderRoundTrip(n: nat, rest: seq<byte>)
    requires n < TWO32
    ensures ReadHeader(Header(n) + rest) == n
  {
    HeaderIs(n);
  }

  /** The least significant byte comes first. */
  lemma HeaderIs(n: nat)
    requires n < TWO32
    ensures |Header(n)| == 4
    ensures var b0: int, b1: int, b2: int, b3: int := Header(n)[0], Header(n)[1], Header(n)[2], Header(n)[3];
      n == b0 + 0x100 * b1 + 0x1_0000 * b2 + 0x100_0000 * b3
  {
    var q, r, u := n / 256, n / 0x1_0000, n / 0x100_0000;
    Digit(n, 256, q);
    Digit(q, 256, r);
    Digit(r, 256, u);
  }

  lemma Digit(n: nat, base: nat, q: nat)
    requires base == 256 && q == n / base
    ensures n == 256 * q + n % 256
  {
  }

  /** A number as 32 unsigned bits hold it. */
  function Wrapped(n: nat): (w: nat)
    ensures w <= n && w < TWO32 && (n < TWO32 ==> w == n)
  {
    if n < TWO32 then n else Wrapped(n - TWO32)
  }

  /** It is the remainder modulo 2^32. */
  lemma {:induction false} WrappedIsRemainder(n: nat)
    ensures Wrapped(n) == n % TWO32
  {
    if n >= TWO32 {
      WrappedIsRemainder(n - TWO32);
    }
  }

  /** A length as the `int` the decoder stores it in. */
  function IntSize(n: nat): (size: int)
    ensures size <= n && (n < TWO31 ==> size == n) && -TWO31 <= size < TWO31
  {
    if Wrapped(n) < TWO31 then Wrapped(n) else Wrapped(n) - TWO32
  }

  /** The decoder's test `offset + 4 + msg_size > buf_size`, negated, in 32-bit unsigned arithmetic. */
  predicate FitsUnsigned(offset: nat, size: nat, total: nat)
  {
    Wrapped(offset + 4 + size) <= Wrapped(total)
  }

  /**
   On an `int`-sized buffer the test means what it says exactly when the sum does not wrap;
   in particular for every header below 2^31.
   */
  lemma SizeTestExact(offset: nat, size: nat, total: nat)
    requires offset + 4 <= total < TWO31 && size < TWO32
    ensures (FitsUnsigned(offset, size, total) <==> offset + 4 + size <= total) <==> offset + 4 + size < TWO32
    ensures size < TWO31 ==> (FitsUnsigned(offset, size, total) <==> offset + 4 + size <= total)
  {
  }

  // ---------- Printing ----------

  function Frame<T(!new)>(c: Codec<T>, m: T): (f: seq<byte>)
    requires |c.encode(m)| < TWO32
  {
    Header(|c.encode(m)|) + c.encode(m)
  }

  ghost function Stream<T(!new)>(c: Codec<T>, ms: seq<T>): (s: seq<byte>)
    requires c.Sound()
  {
    if ms == [] then [] else Frame(c, ms[0]) + Stream(c, ms[1..])
  }

  /** A buffer that holds the beginning of one frame, and not the whole of it. */
  ghost predicate Partial<T(!new)>(c: Codec<T>, rest: seq<byte>)
    requires c.Sound()
  {
    exists m: T :: |rest| < |Frame(c, m)| && rest <= Frame(c, m)
  }

  lemma {:induction false} StreamConcat<T(!new)>(c: Codec<T>, a: seq<T>, b: seq<T>)
    requires c.Sound()
    ensures Stream(c, a + b) == Stream(c, a) + Stream(c, b)
  {
    if a == [] {
      assert a + b == b;
    } else {
      StreamConcat(c, a[1..], b);
      assert (a + b)[0] == a[0] && (a + b)[1..] == a[1..] + b;
      Assoc(Frame(c, a[0]), Stream(c, a[1..]), Stream(c, b));
    }
  }

  lemma StreamSnoc<T(!new)>(c: Codec<T>, a: seq<T>, m: T)
    requires c.Sound()
    ensures Stream(c, a + [m]) == Stream(c, a) + Frame(c, m)
  {
    StreamConcat(c, a, [m]);
    assert Stream(c, [m]) == Frame(c, m) + Stream(c, []);
  }

  /** Two frames that begin the same bytes carry the same message. */
  lemma FramePrefixFree<T(!new)>(c: Codec<T>, m: T, m': T, x: seq<byte>, x': seq<byte>)
    requires c.Sound()
    requires Frame(c, m) + x == Frame(c, m') + x'
    ensures m == m' && x == x'
  {
    var e, e' := c.encode(m), c.encode(m');
    HeaderRoundTrip(|e|, e + x);
    HeaderRoundTrip(|e'|, e' + x');
    assert Frame(c, m) + x == Header(|e|) + (e + x);
    assert Frame(c, m') + x' == Header(|e'|) + (e' + x');
    assert |e| == |e'|;
    assert e == (Frame(c, m) + x)[4..4 + |e|] == e';
    assert Some(m) == c.parse(e) == c.parse(e') == Some(m');
    assert x == (Frame(c, m) + x)[4 + |e|..] == x';
  }

  /** A stream determines its messages: what begins a stream with whole frames begins its messages. */
  lemma {:induction false} StreamPrefixFree<T(!new)>(c: Codec<T>, a: seq<T>, x: seq<byte>, b: seq<T>)
    requires c.Sound()
    requires Stream(c, a) + x == Stream(c, b)
    ensures a <= b && x == Stream(c, b[|a|..])
  {
    if a != [] {
      Assoc(Frame(c, a[0]), Stream(c, a[1..]), x);
      assert |Stream(c, b)| >= 4;
      FramePrefixFree(c, a[0], b[0], Stream(c, a[1..]) + x, Stream(c, b[1..]));
      StreamPrefixFree(c, a[1..], x, b[1..]);
      assert b[1..][|a| - 1..] == b[|a|..];
    }
  }

  /** Every prefix of a stream is some whole frames followed by a partial one. */
  lemma {:induction false} PrefixSplit<T(!new)>(c: Codec<T>, ms: seq<T>, s: seq<byte>) returns (k: nat, rest: seq<byte>)
    requires c.Sound() && s <= Stream(c, ms)
    ensures k <= |ms| && s == Stream(c, ms[..k]) + rest
    ensures rest == [] || Partial(c, rest)
  {
    if ms == [] {
      k, rest := 0, [];
    } else {
      var f := Frame(c, ms[0]);
      if |s| < |f| {
        k, rest := 0, s;
        assert s <= f;
        assert s == Stream(c, ms[..0]) + s;
      } else {
        assert s[..|f|] == f;
        var s' := s[|f|..];
        assert s' <= Stream(c, ms[1..]);
        var k', r := PrefixSplit(c, ms[1..], s');
        k, rest := k' + 1, r;
        assert ms[..k][0] == ms[0] && ms[..k][1..] == ms[1..][..k'];
        assert s == f + s';
      }
    }
  }

  // ---------- Incremental parsing ----------

  /** What one `decode` call does: the messages it queues, how far it got, and whether parsing failed. */
  datatype Decoded<T> = Decoded(msgs: seq<T>, offset: nat, ok: bool)

  /** What one turn of the loop of `decode` comes to: the loop is left, well or because a parse failed, or a
      message is taken and the offset moves on. */
  datatype Turn<T> = Stop(ok: bool) | Got(msg: T, next: nat)

  /** One turn of the loop. A size that wrapped is handed to the parser as a negative length, which is a
      failed parse. */
  function TurnAt<T(!new)>(c: Codec<T>, buf: seq<byte>, offset: nat): (t: Turn<T>)
    requires offset <= |buf|
    ensures t.Got? ==> offset < t.next <= |buf|
  {
    var total := IntSize(|buf|);
    if offset + 4 > total then Stop(true)
    else
      var size := ReadHeader(buf[offset..]);
      if !FitsUnsigned(offset, size, total) then Stop(true)
      else if offset + 4 + size > total then Stop(false)
      else
        match c.parse(buf[offset + 4..offset + 4 + size])
        case None => Stop(false)
        case Some(m) => Got(m, offset + 4 + size)
  }

  /** A size so large that the sum wraps passes the test; what lies behind the buffer does not parse. */
  lemma WrappedSizeFails<T(!new)>(c: Codec<T>, buf: seq<byte>, offset: nat)
    requires offset + 4 <= |buf| < TWO31 && offset + 4 + ReadHeader(buf[offset..]) >= TWO32
    ensures FitsUnsigned(offset, ReadHeader(buf[offset..]), |buf|) && TurnAt(c, buf, offset) == Stop(false)
  {
  }

  /** The loop of `decode` from an offset on. */
  function DecodeFrom<T(!new)>(c: Codec<T>, buf: seq<byte>, offset: nat): (d: Decoded<T>)
    requires offset <= |buf|
    ensures offset <= d.offset <= |buf|
    decreases |buf| - offset
  {
    match TurnAt(c, buf, offset)
    case Stop(ok) => Decoded([], offset, ok)
    case Got(m, next) =>
      var d := DecodeFrom(c, buf, next);
      Decoded([m] + d.msgs, d.offset, d.ok)
  }

  lemma TurnPartial<T(!new)>(c: Codec<T>, buf: seq<byte>, offset: nat)
    requires c.Sound() && offset <= |buf| < TWO31
    requires buf[offset..] == [] || Partial(c, buf[offset..])
    ensures TurnAt(c, buf, offset) == Stop(true)
  {
    if offset + 4 <= |buf| {
      var rest := buf[offset..];
      var m :| |rest| < |Frame(c, m)| && rest <= Frame(c, m);
      var size := ReadHeader(rest);
      HeaderRoundTrip(|c.encode(m)|, c.encode(m));
      assert rest[..4] == Header(|c.encode(m)|);
      assert size == |c.encode(m)|;
      SizeTestExact(offset, size, |buf|);
    }
  }

  lemma DecodePartial<T(!new)>(c: Codec<T>, buf: seq<byte>, offset: nat)
    requires c.Sound() && offset <= |buf| < TWO31
    requires buf[offset..] == [] || Partial(c, buf[offset..])
    ensures var d := DecodeFrom(c, buf, offset);
      d.msgs == [] && d.offset == offset && d.ok
  {
    TurnPartial(c, buf, offset);
  }

  /** A whole frame in front is taken. */
  lemma TurnOne<T(!new)>(c: Codec<T>, buf: seq<byte>, offset: nat, m: T, tail: seq<byte>) returns (next: nat)
    requires c.Sound() && offset <= |buf| < TWO31
    requires buf[offset..] == Frame(c, m) + tail
    ensures offset < next <= |buf| && buf[next..] == tail && TurnAt(c, buf, offset) == Got(m, next)
  {
    var e := c.encode(m);
    next := offset + 4 + |e|;
    assert |buf[offset..]| == 4 + |e| + |tail|;
    HeaderRoundTrip(|e|, e + tail);
    Assoc(Header(|e|), e, tail);
    FrontBody(buf, offset, Header(|e|), e, tail);
    SizeTestExact(offset, |e|, |buf|);
  }

  /** The parts of a buffer that begins with a header and a body. */
  lemma FrontBody(buf: seq<byte>, offset: nat, h: seq<byte>, e: seq<byte>, tail: seq<byte>)
    requires offset <= |buf| && |h| == 4 && buf[offset..] == h + e + tail
    ensures var next := offset + 4 + |e|;
      next <= |buf| && buf[offset + 4..next] == e && buf[next..] == tail
  {
    var next := offset + 4 + |e|;
    assert |buf[offset..]| == 4 + |e| + |tail|;
    assert buf[offset + 4..next] == buf[offset..][4..4 + |e|] == e;
    assert buf[next..] == buf[offset..][4 + |e|..] == tail;
  }

  /** Decoding goes on behind it. */
  lemma DecodeOne<T(!new)>(c: Codec<T>, buf: seq<byte>, offset: nat, m: T, tail: seq<byte>) returns (next: nat)
    requires c.Sound() && offset <= |buf| < TWO31
    requires buf[offset..] == Frame(c, m) + tail
    ensures offset < next <= |buf| && buf[next..] == tail
    ensures var d := DecodeFrom(c, buf, next);
      var d' := DecodeFrom(c, buf, offset);
      d'.msgs == [m] + d.msgs && d'.offset == d.offset && d'.ok == d.ok
  {
    next := TurnOne(c, buf, offset, m, tail);
  }

  /** Decoding undoes printing, and stops in front of the partial frame. */
  lemma {:induction false} DecodeUndoesStream<T(!new)>(
    c: Codec<T>, buf: seq<byte>, offset: nat, ms: seq<T>, rest: seq<byte>)
    requires c.Sound() && offset <= |buf| < TWO31
    requires buf[offset..] == Stream(c, ms) + rest
    requires rest == [] || Partial(c, rest)
    ensures var d := DecodeFrom(c, buf, offset);
      d.msgs == ms && d.offset == |buf| - |rest| && d.ok
    decreases |ms|
  {
    if ms == [] {
      assert buf[offset..] == rest;
      DecodePartial(c, buf, offset);
    } else {
      Assoc(Frame(c, ms[0]), Stream(c, ms[1..]), rest);
      var next := DecodeOne(c, buf, offset, ms[0], Stream(c, ms[1..]) + rest);
      DecodeUndoesStream(c, buf, next, ms[1..], rest);
      Cut(ms, 1);
    }
  }

  // ---------- Receiving in chunks ----------

  /** What a subscriber has after some bytes: the messages handed to the callbacks and the bytes kept. */
  datatype Intake<T> = Intake(msgs: seq<T>, kept: seq<byte>)

  /** One turn of the receive loop: append the chunk, decode, handle, erase what `decode` returned. */
  function Feed<T(!new)>(c: Codec<T>, i: Intake<T>, chunk: seq<byte>): (r: Intake<T>)
  {
    var buf := i.kept + chunk;
    var d := DecodeFrom(c, buf, 0);
    Intake(i.msgs + d.msgs, if d.ok then buf[d.offset..] else buf)
  }

  /** The same as a fact, said for any k so that proofs can pass it on without unfolding the decoder. */
  ghost predicate IsFeed<T(!new)>(c: Codec<T>, i: Intake<T>, chunk: seq<byte>, r: Intake<T>)
  {
    forall k: int :: Any(k) ==> r == Feed(c, i, chunk)
  }

  /** The one intake of which that is true. */
  ghost function FeedOf<T(!new)>(c: Codec<T>, i: Intake<T>, chunk: seq<byte>): (r: Intake<T>)
    ensures IsFeed(c, i, chunk, r)
  {
    assert IsFeed(c, i, chunk, Feed(c, i, chunk));
    var r :| IsFeed(c, i, chunk, r);
    r
  }

  lemma FeedUnique<T(!new)>(c: Codec<T>, i: Intake<T>, chunk: seq<byte>, r: Intake<T>)
    requires IsFeed(c, i, chunk, r)
    ensures r == FeedOf(c, i, chunk) == Feed(c, i, chunk)
  {
    assert Any(0);
  }

  predicate Any(k: int)
  {
    true
  }

  ghost function Concat(chunks: seq<seq<byte>>): (s: seq<byte>)
  {
    if chunks == [] then [] else Concat(chunks[..|chunks| - 1]) + chunks[|chunks| - 1]
  }

  /** The receive loop over a whole list of chunks. */
  function FeedAll<T(!new)>(c: Codec<T>, i: Intake<T>, chunks: seq<seq<byte>>): (r: Intake<T>)
  {
    if chunks == [] then i
    else Feed(c, FeedAll(c, i, chunks[..|chunks| - 1]), chunks[|chunks| - 1])
  }

  lemma PartialIsShort<T(!new)>(c: Codec<T>, rest: seq<byte>)
    requires c.Sound() && (rest == [] || Partial(c, rest))
    ensures |rest| + MAX_CHUNK < TWO31
  {
    if rest != [] {
      var m :| |rest| < |Frame(c, m)| && rest <= Frame(c, m);
    }
  }

  /** One turn of the loop in the middle of a well-formed stream. */
  lemma FeedAdvances<T(!new)>(c: Codec<T>, i: Intake<T>, chunk: seq<byte>, ms: seq<T>)
    returns (k: nat, r: Intake<T>)
    requires c.Sound() && |chunk| <= MAX_CHUNK
    requires i.kept == [] || Partial(c, i.kept)
    requires i.kept + chunk <= Stream(c, ms)
    ensures k <= |ms| && IsFeed(c, i, chunk, r)
    ensures
      && r.msgs == i.msgs + ms[..k]
      && i.kept + chunk == Stream(c, ms[..k]) + r.kept
      && (r.kept == [] || Partial(c, r.kept))
  {
    PartialIsShort(c, i.kept);
    var buf := i.kept + chunk;
    var rest;
    k, rest := PrefixSplit(c, ms, buf);
    assert buf[0..] == buf;
    DecodeUndoesStream(c, buf, 0, ms[..k], rest);
    assert buf[|buf| - |rest|..] == rest;
    r := Feed(c, i, chunk);
  }

  lemma StreamDrop<T(!new)>(c: Codec<T>, ms: seq<T>, k: nat, x: seq<byte>)
    requires c.Sound() && k <= |ms|
    requires Stream(c, ms[..k]) + x <= Stream(c, ms)
    ensures x <= Stream(c, ms[k..])
  {
    Cut(ms, k);
    StreamConcat(c, ms[..k], ms[k..]);
    Cancel(Stream(c, ms[..k]), x, Stream(c, ms[k..]));
  }

  lemma StreamJoin<T(!new)>(c: Codec<T>, ms: seq<T>, k: nat, j: nat, x: seq<byte>)
    requires c.Sound() && k + j <= |ms|
    ensures ms[..k + j] == ms[..k] + ms[k..][..j]
    ensures Stream(c, ms[..k + j]) + x == Stream(c, ms[..k]) + (Stream(c, ms[k..][..j]) + x)
  {
    assert ms[..k + j] == ms[..k] + ms[k..][..j];
    StreamConcat(c, ms[..k], ms[k..][..j]);
    Assoc(Stream(c, ms[..k]), Stream(c, ms[k..][..j]), x);
  }

  /** The same, with the messages already handed over in front. */
  lemma FeedContinues<T(!new)>(c: Codec<T>, past: seq<byte>, i: Intake<T>, chunk: seq<byte>, ms: seq<T>, k0: nat)
    returns (k: nat, r: Intake<T>)
    requires c.Sound() && |chunk| <= MAX_CHUNK && k0 <= |ms|
    requires i.msgs == ms[..k0] && past == Stream(c, ms[..k0]) + i.kept
    requires i.kept == [] || Partial(c, i.kept)
    requires past + chunk <= Stream(c, ms)
    ensures k <= |ms| && IsFeed(c, i, chunk, r)
    ensures
      && r.msgs == ms[..k]
      && past + chunk == Stream(c, ms[..k]) + r.kept
      && (r.kept == [] || Partial(c, r.kept))
  {
    Assoc(Stream(c, ms[..k0]), i.kept, chunk);
    StreamDrop(c, ms, k0, i.kept + chunk);
    var j;
    j, r := FeedAdvances(c, i, chunk, ms[k0..]);
    k := k0 + j;
    Advanced(c, past, i, chunk, ms, k0, j, r);
  }

  lemma Advanced<T(!new)>(
    c: Codec<T>, past: seq<byte>, i: Intake<T>, chunk: seq<byte>, ms: seq<T>, k0: nat, j: nat, r: Intake<T>)
    requires c.Sound() && k0 + j <= |ms| && i.msgs == ms[..k0] && past == Stream(c, ms[..k0]) + i.kept
    requires r.msgs == i.msgs + ms[k0..][..j] && i.kept + chunk == Stream(c, ms[k0..][..j]) + r.kept
    ensures r.msgs == ms[..k0 + j] && past + chunk == Stream(c, ms[..k0 + j]) + r.kept
  {
    Assoc(Stream(c, ms[..k0]), i.kept, chunk);
    StreamJoin(c, ms, k0, j, r.kept);
  }

  /** Receiving everything at once. */
  lemma FeedWhole<T(!new)>(c: Codec<T>, all: seq<byte>, ms: seq<T>, rest: seq<byte>)
    requires c.Sound() && |all| < TWO31
    requires all == Stream(c, ms) + rest && (rest == [] || Partial(c, rest))
    ensures Feed(c, Intake([], []), all) == Intake(ms, rest)
  {
    assert all[0..] == all && [] + all == all;
    DecodeUndoesStream(c, all, 0, ms, rest);
    assert all[|all| - |rest|..] == rest;
  }

  /**
   Chunking independence. However the network cuts a prefix of a well-formed stream, the receive
   loop hands over the messages whose frames are complete, each once and in order, keeps only the
   partial frame behind them, and so does one `decode` of the whole prefix.
   */
  lemma {:induction false} ChunkingIndependence<T(!new)>(c: Codec<T>, chunks: seq<seq<byte>>, ms: seq<T>)
    returns (k: nat)
    requires c.Sound() && Concat(chunks) <= Stream(c, ms)
    requires forall j :: 0 <= j < |chunks| ==> |chunks[j]| <= MAX_CHUNK
    ensures k <= |ms|
    ensures var r := FeedAll(c, Intake([], []), chunks);
      && r.msgs == ms[..k]
      && Concat(chunks) == Stream(c, ms[..k]) + r.kept
      && (r.kept == [] || Partial(c, r.kept))
      && (|Concat(chunks)| < TWO31 ==> Feed(c, Intake([], []), Concat(chunks)) == r)
    decreases |chunks|
  {
    var start: Intake<T> := Intake([], []);
    if chunks == [] {
      k := 0;
      assert ms[..0] == [] && Stream(c, ms[..0]) == [];
    } else {
      var init, last := chunks[..|chunks| - 1], chunks[|chunks| - 1];
      var k0 := ChunkingIndependence(c, init, ms);
      var r;
      k, r := FeedContinues(c, Concat(init), FeedAll(c, start, init), last, ms, k0);
      assert Any(0);
    }
    if |Concat(chunks)| < TWO31 {
      FeedWhole(c, Concat(chunks), ms[..k], FeedAll(c, start, chunks).kept);
    }
  }

  /** A complete frame whose body does not parse. */
  predicate BadFrame<T(!new)>(c: Codec<T>, bad: seq<byte>)
  {
    |bad| >= 4 && |bad| == 4 + ReadHeader(bad) && c.parse(bad[4..]).None?
  }

  function Copies<T>(ms: seq<T>, n: nat): (r: seq<T>)
  {
    if n == 0 then [] else Copies(ms, n - 1) + ms
  }

  /**
   The stream has to be well formed: when a complete frame does not parse, `decode` returns 0, so
   nothing is erased, and the messages in front of it are handed over once more with every later chunk.
   */
  lemma {:induction false} FailedParseRedelivers<T(!new)>(
    c: Codec<T>, i: Intake<T>, chunk: seq<byte>, later: seq<seq<byte>>, good: seq<T>, bad: seq<byte>, more: seq<byte>)
    requires c.Sound() && BadFrame(c, bad) && |i.kept + chunk| + |Concat(later)| < TWO31
    requires i.kept + chunk == Stream(c, good) + (bad + more)
    ensures FeedAll(c, Feed(c, i, chunk), later)
         == Intake(i.msgs + Copies(good, |later| + 1), i.kept + chunk + Concat(later))
    decreases |later|
  {
    FeedStopsAtBad(c, i, chunk, good, bad, more);
    if later == [] {
      assert i.kept + chunk + [] == i.kept + chunk;
      assert Copies(good, 1) == [] + good == good;
    } else {
      var front, last := later[..|later| - 1], later[|later| - 1];
      FailedParseRedelivers(c, i, chunk, front, good, bad, more);
      var buf, soFar, n := i.kept + chunk, Concat(front), |later|;
      Assoc(buf, soFar, last);
      Assoc(Stream(c, good), bad + more, soFar + last);
      Assoc(bad, more, soFar + last);
      FeedStopsAtBad(c, Intake(i.msgs + Copies(good, n), buf + soFar), last, good, bad, more + (soFar + last));
      Assoc(i.msgs, Copies(good, n), good);
    }
  }

  /** Exactly when later chunks hand over nothing twice: no message completed in front of the bad frame. */
  lemma RedeliversIff<T(!new)>(
    c: Codec<T>, i: Intake<T>, chunk: seq<byte>, later: seq<seq<byte>>, good: seq<T>, bad: seq<byte>, more: seq<byte>)
    requires c.Sound() && BadFrame(c, bad) && |i.kept + chunk| + |Concat(later)| < TWO31
    requires i.kept + chunk == Stream(c, good) + (bad + more)
    ensures FeedAll(c, Feed(c, i, chunk), later).msgs == Feed(c, i, chunk).msgs <==> good == [] || later == []
  {
    FeedStopsAtBad(c, i, chunk, good, bad, more);
    FailedParseRedelivers(c, i, chunk, later, good, bad, more);
    CopiesLength(good, |later|);
  }

  lemma {:induction false} CopiesLength<T>(ms: seq<T>, n: nat)
    ensures ms == [] ==> Copies(ms, n + 1) == []
    ensures |Copies(ms, n + 1)| >= |ms| && (n > 0 && ms != [] ==> |Copies(ms, n + 1)| > |ms|)
  {
    if n > 0 {
      CopiesLength(ms, n - 1);
    }
  }

  lemma FeedStopsAtBad<T(!new)>(
    c: Codec<T>, i: Intake<T>, chunk: seq<byte>, good: seq<T>, bad: seq<byte>, more: seq<byte>)
    requires c.Sound() && |i.kept + chunk| < TWO31
    requires i.kept + chunk == Stream(c, good) + (bad + more)
    requires BadFrame(c, bad)
    ensures Feed(c, i, chunk) == Intake(i.msgs + good, i.kept + chunk)
  {
    var buf := i.kept + chunk;
    assert buf[0..] == buf;
    DecodeStopsAtBad(c, buf, 0, good, bad, more);
  }

  lemma TurnBad<T(!new)>(c: Codec<T>, buf: seq<byte>, offset: nat, bad: seq<byte>, more: seq<byte>)
    requires offset <= |buf| < TWO31 && buf[offset..] == bad + more
    requires BadFrame(c, bad)
    ensures TurnAt(c, buf, offset) == Stop(false)
  {
    var size := ReadHeader(bad);
    assert |buf| - offset == |bad| + |more|;
    assert ReadHeader(buf[offset..]) == size;
    SizeTestExact(offset, size, |buf|);
    Slice(buf, offset, 4, 4 + size);
    assert (bad + more)[4..4 + size] == bad[4..];
  }

  lemma DecodeBad<T(!new)>(c: Codec<T>, buf: seq<byte>, offset: nat, bad: seq<byte>, more: seq<byte>)
    requires offset <= |buf| < TWO31 && buf[offset..] == bad + more
    requires BadFrame(c, bad)
    ensures var d := DecodeFrom(c, buf, offset);
      d.msgs == [] && !d.ok
  {
    TurnBad(c, buf, offset, bad, more);
  }

  lemma {:induction false} DecodeStopsAtBad<T(!new)>(
    c: Codec<T>, buf: seq<byte>, offset: nat, good: seq<T>, bad: seq<byte>, more: seq<byte>)
    requires c.Sound() && offset <= |buf| < TWO31
    requires buf[offset..] == Stream(c, good) + (bad + more)
    requires BadFrame(c, bad)
    ensures DecodeFrom(c, buf, offset).msgs == good && !DecodeFrom(c, buf, offset).ok
    decreases |good|
  {
    if good == [] {
      assert buf[offset..] == bad + more;
      DecodeBad(c, buf, offset, bad, more);
    } else {
      Assoc(Frame(c, good[0]), Stream(c, good[1..]), bad + more);
      var next := DecodeOne(c, buf, offset, good[0], Stream(c, good[1..]) + (bad + more));
      DecodeStopsAtBad(c, buf, next, good[1..], bad, more);
      Cut(good, 1);
    }
  }
}
