/** The bulk transfer: a chunked sender with backpressure and a hashing receiver. */
module BulkTransfer {
  import opened Options

  type Byte = b: int | 0 <= b < 0x100
  type Hex = string
  /** SHA-256 is any function of the bytes hashed. */
  type Digest = seq<Byte> -> Hex

  const BULK_CHUNK_BYTES: nat := 64 * 1024
  const SIZE_LIMIT: nat := 0x1_0000_0000_0000_0000

  function Min(a: nat, b: nat): nat {
    if a < b then a else b
  }

  // ---------- the pattern ----------

  function PatternByte(offset: nat): Byte {
    (offset * 31 + 7) % 0x100
  }

  function PatternSlice(offset: nat, n: nat): (s: seq<Byte>)
    ensures |s| == n
  {
    seq<Byte>(n, i requires 0 <= i < n => PatternByte(offset + i))
  }

  /** The whole transfer. */
  function Pattern(total: nat): seq<Byte> {
    PatternSlice(0, total)
  }

  lemma PatternExtends(offset: nat, n: nat)
    ensures Pattern(offset) + PatternSlice(offset, n) == Pattern(offset + n)
  {
  }

  /** The pattern starts with seven, and each byte is 31 more than the one before it, modulo 256. */
  lemma PatternSteps(total: nat, i: nat)
    requires i < total
    ensures |Pattern(total)| == total && Pattern(total)[0] == 7
    ensures i > 0 ==> Pattern(total)[i] == (Pattern(total)[i - 1] as int + 31) % 256
  {
    assert PatternByte(0) == 7;
    if i > 0 {
      var before := (i - 1) * 31 + 7;
      DropMultiple(i * 31 + 7, before % 0x100 + 31, before / 0x100);
      assert Pattern(total)[i - 1] == PatternByte(i - 1) == before % 0x100;
      assert Pattern(total)[i] == PatternByte(i);
    }
  }

  /** `size_t` arithmetic. */
  function Wrapped(n: nat): nat {
    n % SIZE_LIMIT
  }

  lemma DropMultiple(n: nat, m: nat, k: nat)
    requires n == m + 0x100 * k
    ensures n % 0x100 == m % 0x100
  {
  }

  lemma WrappingDropsMultiple(n: nat) returns (k: nat)
    ensures n == Wrapped(n) + 0x100 * k
  {
    k := 0x100_0000_0000_0000 * (n / SIZE_LIMIT);
  }

  /** Wherever the multiplication wraps, the low byte is the pattern's. */
  lemma {:induction false} WrappedPattern(offset: nat)
    ensures Wrapped(Wrapped(Wrapped(offset) * 31) + 7) % 0x100 == PatternByte(offset)
  {
    var a := Wrapped(offset);
    var b := Wrapped(a * 31);
    var i := WrappingDropsMultiple(offset);
    var j := WrappingDropsMultiple(a * 31);
    var k := WrappingDropsMultiple(b + 7);
    DropMultiple(offset * 31 + 7, Wrapped(b + 7), 31 * i + j + k);
  }

  method FillPattern(chunk: array<Byte>, offset: nat)
    modifies chunk
    ensures chunk[..] == PatternSlice(offset, chunk.Length)
  {
    for i := 0 to chunk.Length
      invariant forall j | 0 <= j < i :: chunk[j] == PatternByte(offset + j)
    {
      WrappedPattern(offset + i);
      chunk[i] := Wrapped(Wrapped(Wrapped(offset + i) * 31) + 7) % 0x100;
    }
  }

  // ---------- the sender ----------

  function Concat(chunks: seq<seq<Byte>>): seq<Byte> {
    if chunks == [] then [] else Concat(chunks[..|chunks| - 1]) + chunks[|chunks| - 1]
  }

  lemma ConcatAppend(chunks: seq<seq<Byte>>, chunk: seq<Byte>)
    ensures Concat(chunks + [chunk]) == Concat(chunks) + chunk
  {
    assert (chunks + [chunk])[..|chunks|] == chunks;
  }

  lemma Regrouped(a: seq<Byte>, b: seq<Byte>, c: seq<Byte>)
    ensures (a + b) + c == a + (b + c)
  {
  }

  lemma {:induction false} ConcatSplit(head: seq<Byte>, tail: seq<seq<Byte>>)
    ensures Concat([head] + tail) == head + Concat(tail)
  {
    if tail == [] {
      ConcatAppend([], head);
      assert [head] + tail == [] + [head];
    } else {
      var init, last := tail[..|tail| - 1], tail[|tail| - 1];
      ConcatSplit(head, init);
      ConcatAppend([head] + init, last);
      assert [head] + tail == ([head] + init) + [last];
      Regrouped(head, Concat(init), last);
    }
  }

  /** What the channel does while the sender waits for room: how far it drains, and whether it closes. */
  datatype Room = Room(level: nat, closed: bool)

  /** `levels` is history: how much was buffered right after each message. */
  class Channel {
    var sent: seq<seq<Byte>>
    var buffered: nat
    var closed: bool
    ghost var levels: seq<nat>

    constructor ()
      ensures sent == [] && buffered == 0 && !closed && levels == []
    {
      sent, buffered, closed, levels := [], 0, false, [];
    }

    /** The wait ends once at most `highWater` is buffered or the channel is closed; it only drains. */
    method WaitForRoom(highWater: nat, room: Room)
      modifies this`buffered, this`closed
      ensures closed == (old(closed) || room.closed)
      ensures buffered <= old(buffered) && buffered <= room.level
      ensures buffered <= highWater || closed
    {
      closed := closed || room.closed;
      buffered := Min(buffered, room.level);
      if !closed {
        buffered := Min(buffered, highWater);
      }
    }

    method Send(data: seq<Byte>)
      modifies this`sent, this`buffered, this`levels
      ensures sent == old(sent) + [data] && buffered == old(buffered) + |data|
      ensures levels == old(levels) + [buffered]
    {
      sent := sent + [data];
      buffered := buffered + |data|;
      levels := levels + [buffered];
    }
  }

  datatype BulkSent = BulkSent(hex: Hex, chunkBytes: nat, maximumBuffered: nat)

  /** The chunk that starts at `offset`. */
  function ChunkSize(chunkBytes: nat, total: nat, offset: nat): nat
    requires offset <= total
  {
    Min(chunkBytes, total - offset)
  }

  predicate IsLargest(m: nat, levels: seq<nat>) {
    (forall i | 0 <= i < |levels| :: levels[i] <= m) && (m in levels || (levels == [] && m == 0))
  }

  /** Every chunk is full, but the last one need not be unless `all`. */
  predicate FullButLast(chunks: seq<seq<Byte>>, chunkBytes: nat, all: bool) {
    && (forall i | 0 <= i < |chunks| :: 0 < |chunks[i]| <= chunkBytes)
    && (forall i | 0 <= i < |chunks| && (all || i < |chunks| - 1) :: |chunks[i]| == chunkBytes)
  }

  lemma OneMoreChunk(chunks: seq<seq<Byte>>, chunk: seq<Byte>, chunkBytes: nat)
    requires FullButLast(chunks, chunkBytes, true) && 0 < |chunk| <= chunkBytes
    ensures FullButLast(chunks + [chunk], chunkBytes, |chunk| == chunkBytes)
  {
  }

  lemma LargestSoFar(m: nat, levels: seq<nat>, level: nat)
    requires IsLargest(m, levels)
    ensures IsLargest(if level > m then level else m, levels + [level])
  {
    assert (levels + [level])[|levels|] == level;
    assert forall x | x in levels :: x in levels + [level];
  }

  /** Nothing is returned when the channel closes during the transfer. */
  method SendBulk(channel: Channel, total: nat, highWater: nat, maxMessageSize: nat, rooms: nat -> Room, digest: Digest)
    returns (result: Option<BulkSent>)
    requires total > 0 ==> maxMessageSize > 0
    modifies channel
    ensures old(channel.sent) <= channel.sent
    ensures var mine := Concat(channel.sent[|old(channel.sent)|..]);
            && (result.Some? ==> mine == Pattern(total) && result.value.hex == digest(Pattern(total)))
            && (result.None? ==> channel.closed && mine < Pattern(total))
    ensures var mine := channel.sent[|old(channel.sent)|..];
            var size := if maxMessageSize < 65536 then maxMessageSize else 65536;
            && (forall i | 0 <= i < |mine| :: 0 < |mine[i]| <= size)
            && (forall i | 0 <= i < |mine| - 1 :: |mine[i]| == size)
    ensures result.Some? ==>
              && result.value.chunkBytes == (if maxMessageSize < 65536 then maxMessageSize else 65536)
              && result.value.maximumBuffered <= highWater + result.value.chunkBytes
    ensures old(channel.levels) <= channel.levels
    ensures result.Some? ==> IsLargest(result.value.maximumBuffered, channel.levels[|old(channel.levels)|..])
    ensures channel.buffered <= old(channel.buffered)
            || channel.buffered <= highWater + Min(BULK_CHUNK_BYTES, maxMessageSize)
  {
    var chunkBytes := Min(BULK_CHUNK_BYTES, maxMessageSize);
    var hashed: seq<Byte> := [];
    var maximumBuffered: nat := 0;
    var offset := 0;
    ghost var start, mine, mark, levels := |channel.sent|, [], |channel.levels|, [];
    while offset < total
      invariant offset <= total && hashed == Pattern(offset) && Concat(mine) == Pattern(offset)
      invariant channel.sent == old(channel.sent) + mine
      invariant maximumBuffered <= highWater + chunkBytes
      invariant channel.buffered <= old(channel.buffered) || channel.buffered <= highWater + chunkBytes
      invariant FullButLast(mine, chunkBytes, offset < total)
      invariant channel.levels == old(channel.levels) + levels && IsLargest(maximumBuffered, levels)
      decreases total - offset
    {
      var chunk := new Byte[ChunkSize(chunkBytes, total, offset)](_ => 0);
      FillPattern(chunk, offset);
      PatternExtends(offset, chunk.Length);
      hashed := hashed + chunk[..];
      channel.WaitForRoom(highWater, rooms(offset));
      assert channel.sent[start..] == mine;
      if channel.closed {
        assert Pattern(total)[..offset] == Pattern(offset);
        return None;
      }
      ConcatAppend(mine, chunk[..]);
      OneMoreChunk(mine, chunk[..], chunkBytes);
      mine := mine + [chunk[..]];
      channel.Send(chunk[..]);
      LargestSoFar(maximumBuffered, levels, channel.buffered);
      levels := levels + [channel.buffered];
      if channel.buffered > maximumBuffered {
        maximumBuffered := channel.buffered;
      }
      offset := offset + chunk.Length;
    }
    assert channel.sent[start..] == mine && channel.levels[mark..] == levels;
    result := Some(BulkSent(digest(hashed), chunkBytes, maximumBuffered));
  }

  /** The sender's offset after `n` rounds of its loop. */
  function OffsetAfter(chunkBytes: nat, total: nat, n: nat): (offset: nat)
    ensures offset <= total
  {
    if n == 0 then 0
    else
      var before := OffsetAfter(chunkBytes, total, n - 1);
      before + ChunkSize(chunkBytes, total, before)
  }

  lemma {:induction false} OffsetIsLinear(chunkBytes: nat, total: nat, n: nat)
    ensures chunkBytes == 0 ==> OffsetAfter(chunkBytes, total, n) == 0
    ensures chunkBytes > 0 ==> OffsetAfter(chunkBytes, total, n) >= Min(n, total)
  {
    if n > 0 {
      OffsetIsLinear(chunkBytes, total, n - 1);
    }
  }

  /** Each round but the last sends a full chunk. */
  lemma {:induction false} OffsetIsExact(chunkBytes: nat, total: nat, n: nat)
    ensures OffsetAfter(chunkBytes, total, n) == if chunkBytes * n < total then chunkBytes * n else total
  {
    if n > 0 {
      OffsetIsExact(chunkBytes, total, n - 1);
      assert chunkBytes * n == chunkBytes * (n - 1) + chunkBytes;
    }
  }

  /** The loop is over before round `n`, or ends in it because the wait finds the channel closed. */
  predicate EndsBy(chunkBytes: nat, total: nat, closed: nat -> bool, n: nat) {
    OffsetAfter(chunkBytes, total, n) >= total || closed(n)
  }

  /** With empty chunks and something to send, the loop ends only by the channel closing; otherwise it always ends. */
  lemma LoopEndsUnlessChunksAreEmpty(chunkBytes: nat, total: nat, closed: nat -> bool)
    ensures (exists n: nat :: EndsBy(chunkBytes, total, closed, n))
            <==> chunkBytes > 0 || total == 0 || exists n: nat :: closed(n)
  {
    if chunkBytes > 0 || total == 0 {
      OffsetIsLinear(chunkBytes, total, total);
      assert EndsBy(chunkBytes, total, closed, total);
    } else if n: nat :| closed(n) {
      assert EndsBy(chunkBytes, total, closed, n);
    } else {
      forall n: nat
        ensures OffsetAfter(chunkBytes, total, n) == 0
      {
        OffsetIsLinear(chunkBytes, total, n);
      }
    }
  }

  // ---------- the receiver ----------

  /** `calls` are the completion callbacks made so far; `armed` says one is registered. */
  datatype Sink = Sink(
    content: seq<Byte>, received: nat, expected: Option<nat>, hex: Option<Hex>, armed: bool, calls: seq<(nat, Hex)>)

  function EmptySink(): Sink {
    Sink([], 0, None, None, false, [])
  }

  function Completed(s: Sink, digest: Digest): Sink {
    if s.expected.None? || s.received < s.expected.value || s.hex.Some? then s
    else
      var hex := digest(s.content);
      s.(hex := Some(hex), armed := false, calls := if s.armed then s.calls + [(s.received, hex)] else s.calls)
  }

  function Expecting(s: Sink, bytes: nat, callback: bool, digest: Digest): Sink {
    Completed(s.(expected := Some(bytes), armed := callback), digest)
  }

  function Added(s: Sink, data: seq<Byte>, digest: Digest): Sink {
    Completed(s.(content := s.content + data, received := s.received + |data|), digest)
  }

  /** Each method runs under the sink's mutex, so calls happen one at a time. */
  class BulkSink {
    const digest: Digest
    var content: seq<Byte>
    var received: nat
    var expected: Option<nat>
    var hex: Option<Hex>
    var armed: bool
    var calls: seq<(nat, Hex)>

    ghost function View(): Sink
      reads this
    {
      Sink(content, received, expected, hex, armed, calls)
    }

    constructor (digest: Digest)
      ensures View() == EmptySink() && this.digest == digest
    {
      this.digest := digest;
      content, received, expected := [], 0, None;
      hex, armed, calls := None, false, [];
    }

    method Expect(bytes: nat, callback: bool)
      modifies this
      ensures View() == Expecting(old(View()), bytes, callback, digest)
    {
      expected := Some(bytes);
      armed := callback;
      FinishIfComplete();
    }

    method Add(data: seq<Byte>)
      modifies this
      ensures View() == Added(old(View()), data, digest)
    {
      content := content + data;
      received := received + |data|;
      FinishIfComplete();
    }

    method FinishIfComplete()
      modifies this
      ensures View() == Completed(old(View()), digest)
    {
      if expected.None? || received < expected.value || hex.Some? {
        return;
      }
      hex := Some(digest(content));
      var complete := armed;
      armed := false;
      if complete {
        calls := calls + [(received, hex.value)];
      }
    }
  }

  // ---------- both ends ----------

  /** The sizes are fixed for one transfer; `link` is the reliable ordered channel. */
  datatype Setup = Setup(total: nat, chunkBytes: nat, highWater: nat, digest: Digest)
  datatype System = System(offset: nat, buffered: nat, closed: bool, link: seq<seq<Byte>>, sink: Sink)

  datatype Action =
    | SenderSends
    | ChannelDrains(bytes: nat)
    | ChannelCloses
    | LinkDelivers
    | ReceiverExpects(callback: bool)

  function Init(): System {
    System(0, 0, false, [], EmptySink())
  }

  function Step(c: Setup, s: System, a: Action): System {
    match a
    case SenderSends =>
      if s.closed || s.offset >= c.total || s.buffered > c.highWater then s
      else
        var n := ChunkSize(c.chunkBytes, c.total, s.offset);
        s.(offset := s.offset + n, buffered := s.buffered + n, link := s.link + [PatternSlice(s.offset, n)])
    case ChannelDrains(bytes) => s.(buffered := s.buffered - Min(bytes, s.buffered))
    case ChannelCloses => s.(closed := true)
    case LinkDelivers =>
      if s.link == [] then s
      else s.(link := s.link[1..], sink := Added(s.sink, s.link[0], c.digest))
    case ReceiverExpects(callback) => s.(sink := Expecting(s.sink, c.total, callback, c.digest))
  }

  function Run(c: Setup, actions: seq<Action>): System {
    if actions == [] then Init()
    else Step(c, Run(c, actions[..|actions| - 1]), actions[|actions| - 1])
  }

  ghost predicate SinkInv(c: Setup, s: Sink) {
    && s.received == |s.content| <= c.total
    && (s.expected.Some? ==> s.expected.value == c.total)
    && (s.hex.Some? <==> s.expected.Some? && s.received == c.total)
    && (s.hex.Some? ==> s.content == Pattern(c.total) && s.hex.value == c.digest(Pattern(c.total)))
    && (s.hex.None? ==> s.calls == [])
    && (s.calls != [] ==> s.calls == [(c.total, c.digest(Pattern(c.total)))])
  }

  ghost predicate Inv(c: Setup, s: System) {
    && s.offset <= c.total && s.buffered <= c.highWater + c.chunkBytes
    && s.sink.content + Concat(s.link) == Pattern(s.offset)
    && (forall i | 0 <= i < |s.link| :: 0 < c.chunkBytes ==> 0 < |s.link[i]|)
    && SinkInv(c, s.sink)
  }

  lemma StepKeepsInv(c: Setup, s: System, a: Action)
    requires c.chunkBytes > 0 && Inv(c, s)
    ensures Inv(c, Step(c, s, a))
  {
    match a
    case SenderSends =>
      if !s.closed && s.offset < c.total && s.buffered <= c.highWater { SendKeepsInv(c, s); }
    case LinkDelivers => if s.link != [] { DeliverKeepsInv(c, s); }
    case ReceiverExpects(callback) => ExpectKeepsInv(c, s, callback);
    case _ =>
  }

  lemma SendKeepsInv(c: Setup, s: System)
    requires c.chunkBytes > 0 && Inv(c, s)
    requires !s.closed && s.offset < c.total && s.buffered <= c.highWater
    ensures Inv(c, Step(c, s, SenderSends))
  {
    var n := ChunkSize(c.chunkBytes, c.total, s.offset);
    ConcatAppend(s.link, PatternSlice(s.offset, n));
    PatternExtends(s.offset, n);
    var s' := Step(c, s, SenderSends);
    assert s'.sink.content + Concat(s'.link) == (s.sink.content + Concat(s.link)) + PatternSlice(s.offset, n);
  }

  lemma ExpectKeepsInv(c: Setup, s: System, callback: bool)
    requires Inv(c, s)
    ensures Inv(c, Step(c, s, ReceiverExpects(callback)))
  {
    if s.sink.received == c.total {
      assert |s.sink.content + Concat(s.link)| == s.offset;
      assert s.sink.content == Pattern(c.total);
    }
  }

  lemma DeliverKeepsInv(c: Setup, s: System)
    requires c.chunkBytes > 0 && Inv(c, s) && s.link != []
    ensures Inv(c, Step(c, s, LinkDelivers))
  {
    var content, rest := s.sink.content + s.link[0], s.link[1..];
    DeliveryMoves(s.sink.content, s.link);
    assert |content| + |Concat(rest)| == s.offset && s.sink.received < c.total;
    if |content| == c.total {
      assert content == Pattern(c.total);
    }
    DeliveredSink(c, s.sink, s.link[0]);
  }

  lemma DeliveryMoves(content: seq<Byte>, link: seq<seq<Byte>>)
    requires link != []
    ensures content + Concat(link) == (content + link[0]) + Concat(link[1..])
  {
    ConcatSplit(link[0], link[1..]);
    assert link == [link[0]] + link[1..];
  }

  lemma DeliveredSink(c: Setup, s: Sink, data: seq<Byte>)
    requires SinkInv(c, s) && s.received < c.total && |s.content + data| <= c.total
    requires |s.content + data| == c.total ==> s.content + data == Pattern(c.total)
    ensures SinkInv(c, Added(s, data, c.digest))
  {
  }

  lemma {:induction false} ReachableInv(c: Setup, actions: seq<Action>)
    requires c.chunkBytes > 0
    ensures Inv(c, Run(c, actions))
  {
    if actions != [] {
      ReachableInv(c, actions[..|actions| - 1]);
      StepKeepsInv(c, Run(c, actions[..|actions| - 1]), actions[|actions| - 1]);
    }
  }

  /**
    Under every interleaving of sending, draining, closing, delivery and `expect`: a digest is
    published exactly when the size is known and every byte has arrived, it is the sender's, and the
    completion runs at most once, with the full size.
   */
  lemma {:induction false} DigestIsSenders(c: Setup, actions: seq<Action>)
    requires c.chunkBytes > 0
    ensures var s := Run(c, actions);
            && (s.sink.hex.Some? <==> s.sink.expected.Some? && s.offset == c.total && s.link == [])
            && (s.sink.hex.Some? ==> s.sink.hex.value == c.digest(Pattern(c.total)))
            && |s.sink.calls| <= 1
            && (s.sink.calls != [] ==> s.sink.hex.Some? && s.sink.calls[0] == (c.total, s.sink.hex.value))
  {
    ReachableInv(c, actions);
    var s := Run(c, actions);
    assert |s.sink.content| + |Concat(s.link)| == |Pattern(s.offset)| == s.offset;
    if s.link != [] {
      ConcatSplit(s.link[0], s.link[1..]);
      assert s.link == [s.link[0]] + s.link[1..];
    }
  }

  /** Backpressure: at no point is more than the high-water mark and one chunk buffered. */
  lemma {:induction false} BufferIsBounded(c: Setup, actions: seq<Action>)
    requires c.chunkBytes > 0
    ensures Run(c, actions).buffered <= c.highWater + c.chunkBytes
  {
    ReachableInv(c, actions);
  }

  // ---------- any use of a sink ----------

  datatype Call = Expect(bytes: nat, callback: bool) | Add(data: seq<Byte>)

  function Apply(s: Sink, call: Call, digest: Digest): Sink {
    match call
    case Expect(bytes, callback) => Expecting(s, bytes, callback, digest)
    case Add(data) => Added(s, data, digest)
  }

  function ApplyAll(calls: seq<Call>, digest: Digest): Sink {
    if calls == [] then EmptySink() else Apply(ApplyAll(calls[..|calls| - 1], digest), calls[|calls| - 1], digest)
  }

  /** The `n`-th call published the digest, of the bytes in by then, which covered the size announced by then. */
  ghost predicate PublishedAt(calls: seq<Call>, n: nat, digest: Digest)
    requires 0 < n <= |calls|
  {
    var then' := ApplyAll(calls[..n], digest);
    && ApplyAll(calls[..n - 1], digest).hex.None?
    && then'.hex == Some(digest(then'.content))
    && then'.expected.Some? && |then'.content| >= then'.expected.value
  }

  lemma {:induction false} CallbackRunsOnce(calls: seq<Call>, digest: Digest)
    ensures var s := ApplyAll(calls, digest);
            |s.calls| <= 1 && (s.hex.None? ==> s.calls == []) && s.received == |s.content|
  {
    if calls != [] {
      CallbackRunsOnce(calls[..|calls| - 1], digest);
    }
  }

  /** The call that published in the first `m` calls is the one that published in all of them. */
  lemma PublishedEarlier(calls: seq<Call>, m: nat, n: nat, digest: Digest)
    requires 0 < n <= m <= |calls| && PublishedAt(calls[..m], n, digest)
    ensures PublishedAt(calls, n, digest) && ApplyAll(calls[..m][..n], digest) == ApplyAll(calls[..n], digest)
  {
    assert calls[..m][..n] == calls[..n] && calls[..m][..n - 1] == calls[..n - 1];
  }

  lemma PublishedLast(calls: seq<Call>, digest: Digest)
    requires calls != [] && ApplyAll(calls[..|calls| - 1], digest).hex.None? && ApplyAll(calls, digest).hex.Some?
    requires ApplyAll(calls[..|calls| - 1], digest).received == |ApplyAll(calls[..|calls| - 1], digest).content|
    ensures PublishedAt(calls, |calls|, digest) && ApplyAll(calls[..|calls|], digest) == ApplyAll(calls, digest)
  {
    assert calls[..|calls|] == calls;
  }

  lemma {:induction false} WhenPublished(calls: seq<Call>, digest: Digest) returns (n: nat)
    requires ApplyAll(calls, digest).hex.Some?
    ensures 0 < n <= |calls| && PublishedAt(calls, n, digest)
    ensures ApplyAll(calls[..n], digest).hex == ApplyAll(calls, digest).hex
  {
    var m := |calls| - 1;
    if ApplyAll(calls[..m], digest).hex.Some? {
      n := WhenPublished(calls[..m], digest);
      PublishedEarlier(calls, m, n, digest);
    } else {
      CallbackRunsOnce(calls[..m], digest);
      PublishedLast(calls, digest);
      n := |calls|;
    }
  }

  /**
    Whatever sizes are announced and whatever arrives: the published digest is that of the bytes in
    at the one moment when they first covered the announced size, it never changes afterwards, and
    the completion has run at most once.
   */
  lemma {:induction false} PublishedOnce(calls: seq<Call>, digest: Digest)
    ensures var s := ApplyAll(calls, digest);
            && |s.calls| <= 1 && (s.hex.None? ==> s.calls == []) && s.received == |s.content|
            && (s.hex.Some? ==> exists n: nat | 0 < n <= |calls| ::
                  PublishedAt(calls, n, digest) && ApplyAll(calls[..n], digest).hex == s.hex)
  {
    CallbackRunsOnce(calls, digest);
    if ApplyAll(calls, digest).hex.Some? {
      var n := WhenPublished(calls, digest);
    }
  }

  // ---------- the sink against its calls ----------

  function Arrived(calls: seq<Call>): seq<Byte> {
    if calls == [] then []
    else
      var last := calls[|calls| - 1];
      Arrived(calls[..|calls| - 1]) + if last.Add? then last.data else []
  }

  /** The last `expect`, if there was one. */
  function LastExpect(calls: seq<Call>): Option<Call> {
    if calls == [] then None
    else if calls[|calls| - 1].Expect? then Some(calls[|calls| - 1])
    else LastExpect(calls[..|calls| - 1])
  }

  /** A size is announced, and that many bytes are in. */
  predicate Covered(calls: seq<Call>) {
    LastExpect(calls).Some? && LastExpect(calls).value.Expect? && |Arrived(calls)| >= LastExpect(calls).value.bytes
  }

  /** The calls up to the first moment that covers the announced size; all of them when there is none. */
  function UntilCovered(calls: seq<Call>): (first: seq<Call>)
    ensures first <= calls
  {
    if calls == [] || UntilCovered(calls[..|calls| - 1]) < calls[..|calls| - 1] then
      (if calls == [] then [] else UntilCovered(calls[..|calls| - 1]))
    else if Covered(calls[..|calls| - 1]) then calls[..|calls| - 1]
    else calls
  }

  lemma {:induction false} UntilCoveredIsFirst(calls: seq<Call>)
    ensures var first := UntilCovered(calls);
            && first == calls[..|first|]
            && (first != calls ==> Covered(first))
            && forall k: nat | k < |first| :: !Covered(calls[..k])
  {
    if calls != [] {
      var before := calls[..|calls| - 1];
      UntilCoveredIsFirst(before);
      assert forall k: nat | k <= |before| :: before[..k] == calls[..k];
    }
  }

  /**
    The sink by its calls: it holds what arrived; it publishes at the first moment the announced size
    is covered, the digest of what had arrived by then; and the completion registered by the last
    `expect` before that moment runs there and then, once, with those bytes and that digest.
   */
  lemma {:induction false} SinkFollowsCalls(calls: seq<Call>, digest: Digest)
    ensures var s, first := ApplyAll(calls, digest), UntilCovered(calls);
            var hex := digest(Arrived(first));
            && s.content == Arrived(calls) && s.received == |Arrived(calls)|
            && (s.expected.Some? <==> LastExpect(calls).Some?)
            && (s.hex.Some? <==> Covered(first))
            && (Covered(first) ==>
                  && s.hex == Some(hex)
                  && s.calls == if LastExpect(first).value.callback then [(|Arrived(first)|, hex)] else [])
            && (!Covered(first) ==> first == calls && s.calls == [])
  {
    SinkInStep(calls, digest);
  }

  ghost predicate InStep(s: Sink, calls: seq<Call>, digest: Digest) {
    var first, last := UntilCovered(calls), LastExpect(calls);
    && s.content == Arrived(calls) && s.received == |Arrived(calls)|
    && (last.Some? ==> last.value.Expect?)
    && s.expected == (if last.Some? then Some(last.value.bytes) else None)
    && (if Covered(first) then
          s.hex == Some(digest(Arrived(first))) && LastExpect(first).value.Expect? &&
          s.calls == if LastExpect(first).value.callback then [(|Arrived(first)|, digest(Arrived(first)))] else []
        else
          first == calls && s.hex.None? && s.calls == [] && s.armed == (last.Some? && last.value.callback))
  }

  lemma {:induction false} SinkInStep(calls: seq<Call>, digest: Digest)
    ensures InStep(ApplyAll(calls, digest), calls, digest)
  {
    if calls != [] {
      var before := calls[..|calls| - 1];
      SinkInStep(before, digest);
      CallKeepsStep(ApplyAll(before, digest), before, calls[|calls| - 1], digest);
      assert calls == before + [calls[|calls| - 1]];
    }
  }

  lemma CallKeepsStep(s: Sink, calls: seq<Call>, call: Call, digest: Digest)
    requires InStep(s, calls, digest)
    ensures InStep(Apply(s, call, digest), calls + [call], digest)
  {
    assert (calls + [call])[..|calls|] == calls;
    UntilCoveredIsFirst(calls);
  }

  /** The calls a run makes on its sink, and the sink of a run is what they make of it. */
  function SinkCalls(c: Setup, actions: seq<Action>): seq<Call> {
    if actions == [] then []
    else
      var before := actions[..|actions| - 1];
      SinkCalls(c, before) +
      match actions[|actions| - 1]
      case LinkDelivers => var link := Run(c, before).link; if link == [] then [] else [Add(link[0])]
      case ReceiverExpects(callback) => [Expect(c.total, callback)]
      case _ => []
  }

  lemma {:induction false} SinkOfRun(c: Setup, actions: seq<Action>)
    ensures Run(c, actions).sink == ApplyAll(SinkCalls(c, actions), c.digest)
  {
    if actions != [] {
      var before := actions[..|actions| - 1];
      SinkOfRun(c, before);
      var calls, s := SinkCalls(c, before), Run(c, before);
      assert calls + [] == calls;
      match actions[|actions| - 1]
      case LinkDelivers => if s.link != [] { OneMoreCall(calls, Add(s.link[0]), c.digest); }
      case ReceiverExpects(callback) => OneMoreCall(calls, Expect(c.total, callback), c.digest);
      case _ =>
    }
  }

  lemma OneMoreCall(calls: seq<Call>, call: Call, digest: Digest)
    ensures ApplyAll(calls + [call], digest) == Apply(ApplyAll(calls, digest), call, digest)
  {
    assert (calls + [call])[..|calls|] == calls;
  }

  /** A round sends a full chunk or the rest while the channel is open and no more than the mark is buffered. */
  lemma SendsExactlyWhen(c: Setup, s: System)
    requires s.offset <= c.total && c.chunkBytes > 0
    ensures var s' := Step(c, s, SenderSends);
            var sends := !s.closed && s.offset < c.total && s.buffered <= c.highWater;
            && (sends <==> s' != s)
            && (sends ==>
                  && s'.offset == (if s.offset + c.chunkBytes < c.total then s.offset + c.chunkBytes else c.total)
                  && s'.buffered - s.buffered == s'.offset - s.offset
                  && |s'.link| == |s.link| + 1 && s'.link[..|s.link|] == s.link)
  {
  }
}
