/** VMBus byte rings: framed messages through 4096 bytes that wrap around, written and read one byte at
    a time by two sides that run at their own pace. */
module VmbusRing {
  import opened Bytes

  const SIZE: nat := 4096
  const TRAIL: nat := 8

  // ----- framing

  /** An in-band message, or one that points at a buffer by its page frame. */
  datatype Message =
    | InBand(payload: seq<Byte>, tid: nat)
    | GpaDirect(payload: seq<Byte>, tid: nat, byteCount: nat, byteOffset: nat, pfn: nat)

  /** The packet header: kind, offset and length in units of 8 bytes, flags, transaction. */
  function Header(kind: nat, offset8: nat, len8: nat, tid: nat): (h: seq<Byte>)
    ensures |h| == 16 && U16(h, 2) == offset8 % 0x1_0000 && U16(h, 4) == len8 % 0x1_0000
    ensures U16(h, 0) == kind % 0x1_0000 && U16(h, 6) == 1 && U64(h[8..], 0) == tid % 0x1_0000_0000_0000_0000
  {
    hide Le16, Le64, U64;
    var h := Le16(kind) + Le16(offset8) + Le16(len8) + Le16(1) + Le64(tid);
    assert h[0..2] == Le16(kind) && h[2..4] == Le16(offset8) && h[4..6] == Le16(len8) && h[6..8] == Le16(1)
           && h[8..] == Le64(tid);
    assert U16(h, 0) == U16(h[0..2], 0) && U16(h, 2) == U16(h[2..4], 0);
    assert U16(h, 4) == U16(h[4..6], 0) && U16(h, 6) == U16(h[6..8], 0);
    h
  }

  /** Bytes before the payload. */
  function HeadSize(m: Message): nat {
    if m.InBand? then 16 else 40
  }

  function Pad(m: Message): (p: nat)
    ensures (|m.payload| + p) % 8 == 0 && p < 8
  {
    (8 - |m.payload| % 8) % 8
  }

  /** The payload, zero-padded to a multiple of 8. */
  function Padded(m: Message): (b: seq<Byte>)
    ensures |b| % 8 == 0 && m.payload <= b
  {
    m.payload + Zeros(Pad(m))
  }

  function Head(m: Message): (h: seq<Byte>)
    ensures |h| == HeadSize(m)
    ensures U16(h, 2) == HeadSize(m) / 8 && U16(h, 4) == (HeadSize(m) + |Padded(m)|) / 8 % 0x1_0000
  {
    hide Le32, Le64, Padded, Pad;
    var len8 := (HeadSize(m) + |Padded(m)|) / 8;
    match m
    case InBand(_, tid) => Header(6, 2, len8, tid)
    case GpaDirect(_, tid, count, offset, pfn) =>
      var h := Header(9, 5, len8, tid);
      var d := h + Le32(0) + Le32(1) + Le32(count) + Le32(offset) + Le64(pfn);
      SamePrefix(h, d);
      d
  }

  lemma SamePrefix(h: seq<Byte>, d: seq<Byte>)
    requires |h| >= 6 && h <= d
    ensures U16(d, 2) == U16(h, 2) && U16(d, 4) == U16(h, 4)
  {
    assert forall i :: 0 <= i < |h| ==> d[i] == h[i];
  }

  /** Everything that goes on the ring for a message that starts at write index w0. */
  function Frame(m: Message, w0: nat): (f: seq<Byte>)
    ensures |f| == HeadSize(m) + |Padded(m)| + TRAIL
  {
    Head(m) + Padded(m) + Le64(w0)
  }

  lemma WordIn(f: seq<Byte>, p: nat, b: seq<Byte>)
    requires p + |b| <= |f| && forall i :: 0 <= i < |b| ==> f[p + i] == b[i]
    ensures |b| == 2 ==> U16(f, p) == U16(b, 0)
    ensures |b| == 4 ==> U32(f, p) == U32(b, 0)
    ensures |b| == 8 ==> U64(f, p) == U64(b, 0)
  {
  }

  /** Every byte of a frame: the header with the acknowledgement flag, for a GPA-direct message the one range of its
      buffer, the payload, at most seven zeros up to a multiple of 8, and the write index it started at. */
  lemma FrameBytes(m: Message, w0: nat)
    ensures var f, n := Frame(m, w0), if m.InBand? then 16 else 40;
            && |f| % 8 == 0 && n + |m.payload| + 8 <= |f| < n + |m.payload| + 16
            && U16(f, 0) == (if m.InBand? then 6 else 9) && U16(f, 2) == n / 8
            && U16(f, 4) == (|f| - 8) / 8 % 0x1_0000 && U16(f, 6) == 1
            && U64(f, 8) == m.tid % 0x1_0000_0000_0000_0000
            && (m.GpaDirect? ==>
                  && U32(f, 16) == 0 && U32(f, 20) == 1 && U32(f, 24) == m.byteCount % 0x1_0000_0000
                  && U32(f, 28) == m.byteOffset % 0x1_0000_0000 && U64(f, 32) == m.pfn % 0x1_0000_0000_0000_0000)
            && f[n..n + |m.payload|] == m.payload && (forall i :: n + |m.payload| <= i < |f| - 8 ==> f[i] == 0)
            && U64(f, |f| - 8) == w0 % 0x1_0000_0000_0000_0000
  {
    hide U16, U32, U64, Le16, Le32, Le64, Head, Pad, Header;
    var f, h, p := Frame(m, w0), Head(m), Padded(m);
    HeadBytes(m);
    var n := |h|;
    assert forall i :: 0 <= i < n ==> f[i] == h[i];
    WordIn(f, 0, h[0..2]);
    WordIn(h, 0, h[0..2]);
    WordIn(f, 2, h[2..4]);
    WordIn(h, 2, h[2..4]);
    WordIn(f, 4, h[4..6]);
    WordIn(h, 4, h[4..6]);
    WordIn(f, 6, h[6..8]);
    WordIn(h, 6, h[6..8]);
    WordIn(f, 8, h[8..16]);
    WordIn(h, 8, h[8..16]);
    if m.GpaDirect? {
      GpaIn(f, h);
    }
    assert f[n..n + |m.payload|] == m.payload;
    assert forall i :: n + |m.payload| <= i < n + |p| ==> f[i] == p[i - n] == 0;
    WordIn(f, |f| - 8, Le64(w0));
  }

  lemma GpaIn(f: seq<Byte>, h: seq<Byte>)
    requires |h| == 40 && |f| >= 40 && forall i :: 0 <= i < 40 ==> f[i] == h[i]
    ensures U32(f, 16) == U32(h, 16) && U32(f, 20) == U32(h, 20) && U32(f, 24) == U32(h, 24)
    ensures U32(f, 28) == U32(h, 28) && U64(f, 32) == U64(h, 32)
  {
  }

  lemma HeadBytes(m: Message)
    ensures var h := Head(m);
            && |h| == (if m.InBand? then 16 else 40)
            && U16(h, 0) == (if m.InBand? then 6 else 9) && U16(h, 6) == 1
            && U64(h, 8) == m.tid % 0x1_0000_0000_0000_0000
            && (m.GpaDirect? ==>
                  && U32(h, 16) == 0 && U32(h, 20) == 1 && U32(h, 24) == m.byteCount % 0x1_0000_0000
                  && U32(h, 28) == m.byteOffset % 0x1_0000_0000 && U64(h, 32) == m.pfn % 0x1_0000_0000_0000_0000)
  {
    hide U16, U32, U64, Le16, Le32, Le64, Padded, Pad, Header;
    var len8 := (HeadSize(m) + |Padded(m)|) / 8;
    var d := Head(m);
    var h := if m.InBand? then Header(6, 2, len8, m.tid) else Header(9, 5, len8, m.tid);
    assert forall i :: 0 <= i < 16 ==> d[i] == h[i];
    WordIn(d, 0, h[0..2]);
    WordIn(h, 0, h[0..2]);
    WordIn(d, 6, h[6..8]);
    WordIn(h, 6, h[6..8]);
    WordIn(d, 8, h[8..]);
    if m.GpaDirect? {
      WordIn(d, 16, Le32(0));
      WordIn(d, 20, Le32(1));
      WordIn(d, 24, Le32(m.byteCount));
      WordIn(d, 28, Le32(m.byteOffset));
      WordIn(d, 32, Le64(m.pfn));
    }
  }

  // ----- what a receiver makes of the bytes it has taken

  /** Bytes of the packet without its trailer, once the header is there. */
  function Total(got: seq<Byte>): nat
    requires |got| >= 16
  {
    8 * U16(got, 4)
  }

  function Offset(got: seq<Byte>): nat
    requires |got| >= 16
  {
    8 * U16(got, 2)
  }

  predicate BadHeader(got: seq<Byte>) {
    |got| == 16 && (Offset(got) < 16 || Offset(got) > Total(got))
  }

  predicate Complete(got: seq<Byte>) {
    |got| >= 16 && |got| == Total(got) + TRAIL
  }

  /** What a receive into a buffer of the given capacity returns: at most that many bytes of the data, and
      how much data there was. */
  datatype Received = Received(data: seq<Byte>, size: nat, capacity: nat)

  function Result(got: seq<Byte>, capacity: nat): (r: Received)
    requires Complete(got) && 16 <= Offset(got) <= Total(got)
    ensures r.capacity == capacity
  {
    var size := Total(got) - Offset(got);
    Received(got[Offset(got)..Offset(got) + Min(size, capacity)], size, capacity)
  }

  function Expected(m: Message, capacity: nat): (r: Received)
    ensures r.capacity == capacity
  {
    Received(Padded(m)[..Min(|Padded(m)|, capacity)], |Padded(m)|, capacity)
  }

  /** The header of a frame says how long the frame is and where its payload starts. */
  lemma FrameReads(m: Message, w0: nat, n: nat)
    requires n <= |Frame(m, w0)| < SIZE
    ensures var got := Frame(m, w0)[..n];
            && !BadHeader(got)
            && (n >= 16 ==> Offset(got) == HeadSize(m) && Total(got) + TRAIL == |Frame(m, w0)|)
            && (Complete(got) <==> n == |Frame(m, w0)|)
  {
    hide Head, Padded, Le64;
    var f, h := Frame(m, w0), Head(m);
    assert h <= f;
    if n >= 16 {
      assert forall i :: 0 <= i < 16 ==> f[..n][i] == h[i];
      Lengths(m);
    }
  }

  lemma Lengths(m: Message)
    requires HeadSize(m) + |Padded(m)| < SIZE
    ensures 8 * ((HeadSize(m) + |Padded(m)|) / 8 % 0x1_0000) == HeadSize(m) + |Padded(m)|
  {
    hide Padded;
  }

  lemma FrameResult(m: Message, w0: nat, capacity: nat)
    requires |Frame(m, w0)| < SIZE
    ensures var f := Frame(m, w0);
            Complete(f) && 16 <= Offset(f) <= Total(f) && Result(f, capacity) == Expected(m, capacity)
  {
    hide Head, Padded, Le64;
    var f := Frame(m, w0);
    assert f[..|f|] == f;
    FrameReads(m, w0, |f|);
    var o := HeadSize(m);
    assert f[o..o + |Padded(m)|] == Padded(m);
  }

  // ----- both sides at work, one byte at a time

  /** A sender between two bytes: done bytes of the frame are in the ring, lw is its own write index. */
  datatype Producer = NotSending | Sending(m: Message, w0: nat, lw: nat, done: nat)

  /** A receiver between two bytes: got are the bytes it has taken, lr is its own read index. */
  datatype Consumer = NotReading | Reading(lr: nat, got: seq<Byte>)

  /** The ring page, the two published indices, both sides, and what has happened: all bytes ever put,
      the messages committed and the results returned. */
  datatype State = State(data: seq<Byte>, wi: nat, ri: nat, producer: Producer, consumer: Consumer,
                         stream: seq<Byte>, sent: seq<Message>, results: seq<Received>)

  /** The frames of the first n messages, one behind the other. */
  function Frames(sent: seq<Message>, n: nat): seq<Byte>
    requires n <= |sent|
  {
    if n == 0 then [] else Frames(sent, n - 1) + Frame(sent[n - 1], |Frames(sent, n - 1)| % SIZE)
  }

  /** How many bytes have been read and released. */
  function Released(s: State): nat
    requires |s.results| <= |s.sent|
  {
    |Frames(s.sent, |s.results|)|
  }

  const EMPTY: State := State(Zeros(SIZE), 0, 0, NotSending, NotReading, [], [], [])

  /** One step of either side.  The ring itself never checks for room: that the unread bytes stay below
      4096 is part of the step that puts one. */
  ghost predicate Step(s: State, s': State) {
    || (exists m :: StartSend(s, s', m))
    || PutByte(s, s') || CommitSend(s, s')
    || StartReceive(s, s') || GetByte(s, s') || Reject(s, s')
    || (exists capacity :: CommitReceive(s, s', capacity))
  }

  ghost predicate StartSend(s: State, s': State, m: Message) {
    s.producer.NotSending? && s' == s.(producer := Sending(m, s.wi, s.wi, 0))
  }

  /** ring_put_byte */
  ghost predicate PutByte(s: State, s': State) {
    && s.producer.Sending? && |s.data| == SIZE && s.producer.lw < SIZE && |s.results| <= |s.sent|
    && var p := s.producer;
       && p.done < |Frame(p.m, p.w0)| && |s.stream| + 1 - Released(s) < SIZE
       && var b := Frame(p.m, p.w0)[p.done];
          s' == s.(data := s.data[p.lw := b], stream := s.stream + [b],
                   producer := p.(lw := (p.lw + 1) % SIZE, done := p.done + 1))
  }

  ghost predicate CommitSend(s: State, s': State) {
    && s.producer.Sending? && s.producer.done == |Frame(s.producer.m, s.producer.w0)|
    && s' == s.(wi := s.producer.lw, producer := NotSending, sent := s.sent + [s.producer.m])
  }

  ghost predicate StartReceive(s: State, s': State) {
    s.consumer.NotReading? && s.ri != s.wi && s' == s.(consumer := Reading(s.ri, []))
  }

  /** ring_get_byte */
  ghost predicate GetByte(s: State, s': State) {
    && s.consumer.Reading? && !BadHeader(s.consumer.got) && !Complete(s.consumer.got) && s.consumer.lr < |s.data|
    && s' == s.(consumer := Reading((s.consumer.lr + 1) % SIZE, s.consumer.got + [s.data[s.consumer.lr]]))
  }

  ghost predicate Reject(s: State, s': State) {
    s.consumer.Reading? && BadHeader(s.consumer.got) && s' == s.(consumer := NotReading)
  }

  ghost predicate CommitReceive(s: State, s': State, capacity: nat) {
    && s.consumer.Reading? && Complete(s.consumer.got) && 16 <= Offset(s.consumer.got) <= Total(s.consumer.got)
    && s' == s.(ri := s.consumer.lr, consumer := NotReading, results := s.results + [Result(s.consumer.got, capacity)])
  }

  /** What every reachable state satisfies. */
  ghost predicate Inv(s: State) {
    && |s.data| == SIZE && |s.results| <= |s.sent|
    && (forall i :: 0 <= i < |s.results| ==> s.results[i] == Expected(s.sent[i], s.results[i].capacity))
    && (forall i :: 0 <= i < |s.sent| ==> |Frame(s.sent[i], 0)| < SIZE)
    && var read, committed := Released(s), |Frames(s.sent, |s.sent|)|;
       && read <= committed <= |s.stream| < read + SIZE
       && s.wi == committed % SIZE && s.ri == read % SIZE
       && s.stream[..committed] == Frames(s.sent, |s.sent|)
       && (forall k :: read <= k < |s.stream| ==> s.data[k % SIZE] == s.stream[k])
       && ProducerInv(s.producer, committed, s.stream)
       && ConsumerInv(s.consumer, s.sent, |s.results|, read)
  }

  ghost predicate ProducerInv(p: Producer, committed: nat, stream: seq<Byte>)
    requires committed <= |stream|
  {
    match p
    case NotSending => |stream| == committed
    case Sending(m, w0, lw, done) =>
      && w0 == committed % SIZE && lw == |stream| % SIZE && done == |stream| - committed
      && done <= |Frame(m, w0)| && stream[committed..] == Frame(m, w0)[..done]
  }

  ghost predicate ConsumerInv(c: Consumer, sent: seq<Message>, n: nat, read: nat)
    requires n <= |sent|
  {
    c.Reading? ==>
      && n < |sent|
      && var f := Frame(sent[n], read % SIZE);
         |c.got| <= |f| && c.got == f[..|c.got|] && c.lr == (read + |c.got|) % SIZE
  }

  lemma ModApart(a: nat, b: nat)
    requires a < b < a + SIZE
    ensures a % SIZE != b % SIZE
  {
  }

  lemma ModStep(a: nat)
    ensures (a % SIZE + 1) % SIZE == (a + 1) % SIZE
  {
  }

  lemma InitialInv()
    ensures Inv(EMPTY)
  {
  }

  lemma PutByteInv(s: State, s': State)
    requires Inv(s) && PutByte(s, s')
    ensures Inv(s')
  {
    hide Frame, Frames, Expected;
    var p, n := s.producer, |s.stream|;
    var committed := |Frames(s.sent, |s.sent|)|;
    var f := Frame(p.m, p.w0);
    ModStep(n);
    forall k | Released(s) <= k < n + 1
      ensures s'.data[k % SIZE] == s'.stream[k]
    {
      if k < n {
        ModApart(k, n);
      }
    }
    assert s'.stream[committed..] == s.stream[committed..] + [f[p.done]];
    assert f[..p.done + 1] == f[..p.done] + [f[p.done]];
    assert s'.stream[..committed] == s.stream[..committed];
  }

  lemma {:induction false} FramesSame(sent: seq<Message>, more: seq<Message>, n: nat)
    requires n <= |sent| && sent <= more
    ensures Frames(more, n) == Frames(sent, n)
  {
    hide Frame;
    if n > 0 {
      FramesSame(sent, more, n - 1);
    }
  }

  lemma {:induction false} FramesPrefix(sent: seq<Message>, i: nat, n: nat)
    requires i <= n <= |sent|
    ensures |Frames(sent, i)| <= |Frames(sent, n)| && Frames(sent, n)[..|Frames(sent, i)|] == Frames(sent, i)
  {
    hide Frame;
    if i < n {
      FramesPrefix(sent, i, n - 1);
    }
  }

  /** Where the frame of message n lies in the frames of all. */
  lemma FrameIn(sent: seq<Message>, n: nat)
    requires n < |sent|
    ensures var read, all := |Frames(sent, n)|, Frames(sent, |sent|);
            var f := Frame(sent[n], read % SIZE);
            && Frames(sent, n + 1) == Frames(sent, n) + f && read + |f| <= |all|
            && forall i :: 0 <= i < |f| ==> all[read + i] == f[i]
  {
    hide Frame;
    FramesPrefix(sent, n + 1, |sent|);
    var read, all := |Frames(sent, n)|, Frames(sent, |sent|);
    var f := Frame(sent[n], read % SIZE);
    assert Frames(sent, n + 1) == Frames(sent, n) + f;
    forall i | 0 <= i < |f|
      ensures all[read + i] == f[i]
    {
      assert all[read + i] == all[..read + |f|][read + i] == (Frames(sent, n) + f)[read + i];
    }
  }

  lemma CommitSendInv(s: State, s': State)
    requires Inv(s) && CommitSend(s, s')
    ensures Inv(s')
  {
    hide Frame, Frames, Expected;
    var p := s.producer;
    FramesSame(s.sent, s'.sent, |s.sent|);
    FramesSame(s.sent, s'.sent, |s.results|);
    var committed := |Frames(s.sent, |s.sent|)|;
    FrameIn(s'.sent, |s.sent|);
    assert Frame(p.m, p.w0)[..p.done] == Frame(p.m, p.w0);
    assert s.stream[..committed] + s.stream[committed..] == s.stream;
    assert s.stream[..|s.stream|] == s.stream;
  }

  /** The byte that a receiver takes has been committed, and is the next byte of its message. */
  lemma GetsCommitted(s: State)
    requires Inv(s) && s.consumer.Reading? && !Complete(s.consumer.got)
    ensures var k := Released(s) + |s.consumer.got|;
            var f := Frame(s.sent[|s.results|], Released(s) % SIZE);
            && k < |Frames(s.sent, |s.sent|)| && |s.consumer.got| < |f| && k % SIZE == s.consumer.lr
            && s.data[s.consumer.lr] == f[|s.consumer.got|]
  {
    hide Frame, Frames, Expected, Complete, BadHeader;
    var n, got := |s.results|, s.consumer.got;
    var f := Frame(s.sent[n], Released(s) % SIZE);
    FrameIn(s.sent, n);
    assert |f| == |Frame(s.sent[n], 0)| by { SameLength(s.sent[n], Released(s) % SIZE, 0); }
    FrameReads(s.sent[n], Released(s) % SIZE, |got|);
    var k, committed := Released(s) + |got|, |Frames(s.sent, |s.sent|)|;
    assert s.stream[k] == s.stream[..committed][k];
  }

  lemma SameLength(m: Message, a: nat, b: nat)
    ensures |Frame(m, a)| == |Frame(m, b)|
  {
  }

  /** No receiver ever rejects a header. */
  lemma NeverRejects(s: State)
    requires Inv(s) && s.consumer.Reading?
    ensures !BadHeader(s.consumer.got)
  {
    hide Frame, Frames, Expected, Complete, BadHeader;
    var n := |s.results|;
    SameLength(s.sent[n], Released(s) % SIZE, 0);
    FrameReads(s.sent[n], Released(s) % SIZE, |s.consumer.got|);
  }

  lemma GetByteInv(s: State, s': State)
    requires Inv(s) && GetByte(s, s')
    ensures Inv(s')
  {
    hide Frame, Frames, Expected, Complete, BadHeader;
    GetsCommitted(s);
    ModStep(Released(s) + |s.consumer.got|);
    var f := Frame(s.sent[|s.results|], Released(s) % SIZE);
    assert f[..|s.consumer.got| + 1] == f[..|s.consumer.got|] + [f[|s.consumer.got|]];
  }

  lemma CommitReceiveInv(s: State, s': State, capacity: nat)
    requires Inv(s) && CommitReceive(s, s', capacity)
    ensures Inv(s')
  {
    hide Frame, Frames, Expected, Complete, BadHeader, Result, Offset, Total;
    var n, got := |s.results|, s.consumer.got;
    var f := Frame(s.sent[n], Released(s) % SIZE);
    SameLength(s.sent[n], Released(s) % SIZE, 0);
    FrameReads(s.sent[n], Released(s) % SIZE, |got|);
    assert got == f by { assert f[..|f|] == f; }
    FrameResult(s.sent[n], Released(s) % SIZE, capacity);
    FrameIn(s.sent, n);
  }

  lemma StartReceiveInv(s: State, s': State)
    requires Inv(s) && StartReceive(s, s')
    ensures Inv(s')
  {
    hide Frame, Frames, Expected;
    assert Frame(s.sent[|s.results|], Released(s) % SIZE)[..0] == [];
  }

  /** A receiver sees that there is a message whenever one is committed and not yet received. */
  lemma PendingIsVisible(s: State)
    requires Inv(s)
    ensures s.ri != s.wi <==> |s.results| < |s.sent|
  {
    hide Frame, Expected;
    if |s.results| < |s.sent| {
      FrameIn(s.sent, |s.results|);
      ModApart(Released(s), |Frames(s.sent, |s.sent|)|);
    }
  }

  lemma StepInv(s: State, s': State)
    requires Inv(s) && Step(s, s')
    ensures Inv(s')
  {
    hide Frame, Frames, Expected, Complete, BadHeader, Result;
    if m :| StartSend(s, s', m) {
      assert Frame(m, s.wi)[..0] == [] && s.stream[|s.stream|..] == [];
    } else if PutByte(s, s') {
      PutByteInv(s, s');
    } else if CommitSend(s, s') {
      CommitSendInv(s, s');
    } else if StartReceive(s, s') {
      StartReceiveInv(s, s');
    } else if GetByte(s, s') {
      GetByteInv(s, s');
    } else if capacity :| CommitReceive(s, s', capacity) {
      CommitReceiveInv(s, s', capacity);
    }
  }

  /** First in, first out, across any number of wrap-arounds: in every run, however the two sides are
      interleaved and whatever buffers are given, the i-th receive returns the i-th message committed. */
  lemma {:induction false} Fifo(run: seq<State>, n: nat)
    requires n < |run| && run[0] == EMPTY && forall i :: 0 <= i < |run| - 1 ==> Step(run[i], run[i + 1])
    ensures Inv(run[n])
    ensures |run[n].results| <= |run[n].sent|
    ensures forall i :: 0 <= i < |run[n].results| ==>
              run[n].results[i] == Expected(run[n].sent[i], run[n].results[i].capacity)
  {
    hide Step, Frames, Frame, Expected, EMPTY;
    if n == 0 {
      InitialInv();
    } else {
      Fifo(run, n - 1);
      assert Step(run[n - 1], run[n - 1 + 1]);
      StepInv(run[n - 1], run[n]);
    }
  }

  // ----- the driver's own loops over a ring page

  /** A page with bytes laid into it from an index on, around its end. */
  function Laid(page: seq<Byte>, at: nat, bytes: seq<Byte>): (r: seq<Byte>)
    requires |page| == SIZE && at < SIZE
    ensures |r| == SIZE
  {
    if |bytes| == 0 then page
    else Laid(page, at, bytes[..|bytes| - 1])[(at + |bytes| - 1) % SIZE := bytes[|bytes| - 1]]
  }

  lemma {:induction false} LaidTwice(page: seq<Byte>, at: nat, a: seq<Byte>, b: seq<Byte>)
    requires |page| == SIZE && at < SIZE
    ensures Laid(Laid(page, at, a), (at + |a|) % SIZE, b) == Laid(page, at, a + b)
  {
    if |b| > 0 {
      var b' := b[..|b| - 1];
      LaidTwice(page, at, a, b');
      assert (a + b)[..|a + b| - 1] == a + b';
      WrapTwice(at + |a|, |b| - 1);
    } else {
      assert a + b == a;
    }
  }

  lemma WrapTwice(a: nat, b: nat)
    ensures (a % SIZE + b) % SIZE == (a + b) % SIZE
  {
  }

  /** n bytes of a page from an index on, around its end. */
  function Around(page: seq<Byte>, at: nat, n: nat): (b: seq<Byte>)
    requires |page| == SIZE
    ensures |b| == n
  {
    seq<Byte>(n, i requires 0 <= i < n => page[(at + i) % SIZE])
  }

  lemma NothingLaid(page: seq<Byte>, at: nat)
    requires |page| == SIZE && at < SIZE
    ensures Laid(page, at, []) == page
  {
  }

  lemma WholeFrame(m: Message, w0: nat)
    ensures [] + Head(m) + m.payload + Zeros(Pad(m)) + Le64(w0) == Frame(m, w0)
  {
    hide Head, Le64;
  }

  /** The state after n bytes of the message in hand have been put. */
  function AfterPuts(s: State, n: nat): (r: State)
    requires s.producer.Sending? && |s.data| == SIZE && s.producer.lw < SIZE && s.producer.done == 0
    requires n <= |Frame(s.producer.m, s.producer.w0)|
    ensures |r.data| == SIZE
  {
    var f, p := Frame(s.producer.m, s.producer.w0)[..n], s.producer;
    s.(data := Laid(s.data, p.lw, f), stream := s.stream + f, producer := p.(lw := (p.lw + n) % SIZE, done := n))
  }

  /** What Send lays into the page is what putting the frame byte by byte leaves there. */
  lemma SendIsSteps(s: State, n: nat)
    requires s.producer.Sending? && |s.data| == SIZE && s.producer.lw < SIZE && s.producer.done == 0
             && |s.results| <= |s.sent|
    requires n < |Frame(s.producer.m, s.producer.w0)| && |s.stream| + n + 1 - Released(s) < SIZE
    ensures PutByte(AfterPuts(s, n), AfterPuts(s, n + 1))
  {
    hide Frame, Released;
    var f, lw := Frame(s.producer.m, s.producer.w0), s.producer.lw;
    assert f[..n + 1][..n] == f[..n];
    assert s.stream + f[..n + 1] == s.stream + f[..n] + [f[n]];
    ModStep(lw + n);
    SameReleased(s, AfterPuts(s, n));
  }

  lemma SameReleased(s: State, s': State)
    requires |s.results| <= |s.sent| && s'.results == s.results && s'.sent == s.sent
    ensures Released(s') == Released(s)
  {
  }

  /** What Receive reads from the page is the frame of the next message. */
  lemma ReceiveIsNext(s: State, capacity: nat)
    requires Inv(s) && |s.results| < |s.sent|
    ensures var m := s.sent[|s.results|];
            var h := Around(s.data, s.ri, 16);
            var size := |Padded(m)|;
            && s.ri != s.wi && !BadHeader(h) && Total(h) - Offset(h) == size
            && Around(s.data, (s.ri + Offset(h)) % SIZE, Min(size, capacity)) == Expected(m, capacity).data
  {
    hide Frames, Padded, Head, Le64, Frame, BadHeader, Complete, Expected;
    PendingIsVisible(s);
    var m, read := s.sent[|s.results|], Released(s);
    var f := Frame(m, read % SIZE);
    PageHasFrame(s);
    SameLength(m, read % SIZE, 0);
    FrameReads(m, read % SIZE, 16);
    assert Around(s.data, s.ri, 16) == f[..16];
    AroundFrame(s.data, s.ri, m, read % SIZE, Min(|Padded(m)|, capacity));
    ExpectedIs(m, capacity);
  }

  lemma ExpectedIs(m: Message, capacity: nat)
    ensures Expected(m, capacity).data == Padded(m)[..Min(|Padded(m)|, capacity)]
  {
  }

  lemma PageHasFrame(s: State)
    requires Inv(s) && |s.results| < |s.sent|
    ensures var f := Frame(s.sent[|s.results|], Released(s) % SIZE);
            forall i :: 0 <= i < |f| ==> s.data[(s.ri + i) % SIZE] == f[i]
  {
    hide Frames, Frame, Expected;
    var read := Released(s);
    var f := Frame(s.sent[|s.results|], read % SIZE);
    FrameIn(s.sent, |s.results|);
    forall i | 0 <= i < |f|
      ensures s.data[(s.ri + i) % SIZE] == f[i]
    {
      WrapTwice(read, i);
      assert s.stream[read + i] == s.stream[..|Frames(s.sent, |s.sent|)|][read + i];
    }
  }

  lemma AroundFrame(page: seq<Byte>, at: nat, m: Message, w0: nat, n: nat)
    requires |page| == SIZE && n <= |Padded(m)| && forall i :: 0 <= i < |Frame(m, w0)| ==>
               page[(at + i) % SIZE] == Frame(m, w0)[i]
    ensures Around(page, (at + HeadSize(m)) % SIZE, n) == Padded(m)[..n]
  {
    hide Padded, Head, Le64;
    var o, f := HeadSize(m), Frame(m, w0);
    var a := Around(page, (at + o) % SIZE, n);
    forall i | 0 <= i < n
      ensures a[i] == Padded(m)[i]
    {
      WrapTwice(at + o, i);
      assert a[i] == page[(at + (o + i)) % SIZE] == f[o + i];
    }
  }

  /** One direction of a channel: a data page and the two indices of its header page. */
  class Ring {
    const page: array<Byte>
    var writeIndex: nat
    var readIndex: nat

    ghost predicate Valid()
      reads this
    {
      page.Length == SIZE && writeIndex < SIZE && readIndex < SIZE
    }

    constructor ()
      ensures Valid() && fresh(page) && writeIndex == readIndex == 0
    {
      page := new Byte[SIZE](_ => 0);
      writeIndex, readIndex := 0, 0;
    }

    /** ring_put_byte for each byte, with the sender's own index. */
    method PutAll(wi: nat, bytes: seq<Byte>) returns (wi': nat)
      requires Valid() && wi < SIZE
      modifies page
      ensures page[..] == Laid(old(page[..]), wi, bytes) && wi' == (wi + |bytes|) % SIZE
    {
      ghost var before := page[..];
      wi' := wi;
      assert bytes[..0] == [];
      for i := 0 to |bytes|
        invariant wi' == (wi + i) % SIZE && page[..] == Laid(before, wi, bytes[..i])
      {
        assert bytes[..i + 1][..i] == bytes[..i];
        ModStep(wi + i);
        page[wi'] := bytes[i];
        wi' := (wi' + 1) % SIZE;
      }
      assert bytes[..|bytes|] == bytes;
    }

    /** vsp_ring_send_gpa and hyperv_ring_send_inband: head, payload, padding, trailer, then the index. */
    method Send(m: Message)
      requires Valid()
      modifies this`writeIndex, page
      ensures Valid() && page[..] == Laid(old(page[..]), old(writeIndex), Frame(m, old(writeIndex)))
      ensures writeIndex == (old(writeIndex) + |Frame(m, old(writeIndex))|) % SIZE
    {
      hide Head, Le64, Laid, Padded, Pad, Zeros;
      ghost var before := page[..];
      var w0 := writeIndex;
      NothingLaid(before, w0);
      var wi := PutMore(w0, Head(m), before, w0, []);
      wi := PutMore(wi, m.payload, before, w0, [] + Head(m));
      wi := PutMore(wi, Zeros(Pad(m)), before, w0, [] + Head(m) + m.payload);
      wi := PutMore(wi, Le64(w0), before, w0, [] + Head(m) + m.payload + Zeros(Pad(m)));
      WholeFrame(m, w0);
      writeIndex := wi;
    }

    /** Another part of a frame, behind the parts in done. */
    method PutMore(wi: nat, bytes: seq<Byte>, ghost before: seq<Byte>, ghost w0: nat, ghost done: seq<Byte>)
        returns (wi': nat)
      requires Valid() && |before| == SIZE && w0 < SIZE && page[..] == Laid(before, w0, done)
               && wi == (w0 + |done|) % SIZE
      modifies page
      ensures page[..] == Laid(before, w0, done + bytes) && wi' == (w0 + |done + bytes|) % SIZE
    {
      hide Laid;
      wi' := PutAll(wi, bytes);
      LaidTwice(before, w0, done, bytes);
      WrapTwice(w0 + |done|, |bytes|);
    }

    /** ring_get_byte n times, with the receiver's own index. */
    method GetAll(ri: nat, n: nat) returns (bytes: seq<Byte>, ri': nat)
      requires Valid() && ri < SIZE
      ensures bytes == Around(page[..], ri, n) && ri' == (ri + n) % SIZE
    {
      bytes, ri' := [], ri;
      for i := 0 to n
        invariant ri' == (ri + i) % SIZE && bytes == Around(page[..], ri, i)
      {
        ModStep(ri + i);
        bytes := bytes + [page[ri']];
        ri' := (ri' + 1) % SIZE;
      }
    }

    /** One look of hyperv_ring_recv_payload at the ring: nothing there, a header that is refused, or
        the data of one packet, after which the read index moves behind its trailer. */
    method Receive(capacity: nat) returns (ok: bool, data: seq<Byte>, size: nat)
      requires Valid()
      modifies this`readIndex
      ensures Valid()
      ensures var h := Around(page[..], old(readIndex), 16);
              && (ok <==> old(readIndex) != writeIndex && !BadHeader(h))
              && (ok ==> && readIndex == (old(readIndex) + Total(h) + TRAIL) % SIZE && size == Total(h) - Offset(h)
                         && data == Around(page[..], (old(readIndex) + Offset(h)) % SIZE, Min(size, capacity)))
              && (!ok ==> readIndex == old(readIndex))
    {
      ok, data, size := false, [], 0;
      var r := readIndex;
      if r == writeIndex {
        return;
      }
      var header, skipped;
      header, r := GetAll(r, 16);
      var total, offset := Total(header), Offset(header);
      if offset < 16 || offset > total {
        return;
      }
      skipped, r := GetAll(r, offset - 16);
      WrapTwice(readIndex + 16, offset - 16);
      size := total - offset;
      var copy := Min(size, capacity);
      data, r := GetAll(r, copy);
      WrapTwice(readIndex + offset, copy);
      skipped, r := GetAll(r, size - copy + TRAIL);
      WrapTwice(readIndex + offset + copy, size - copy + TRAIL);
      readIndex := r;
      ok := true;
    }
  }
}
