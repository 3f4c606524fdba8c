/** The IPC mailbox: 32 slots shared by all receivers. */
module Ipc {
  import opened Bytes

  const CAPACITY: nat := 32
  const MESSAGE_SIZE: nat := 64

  datatype Message = Message(sender: nat, receiver: nat, data: seq<Byte>)

  /** A slot: empty, or a message with its number in the order of sending. */
  datatype Slot = Empty | Full(message: Message, number: nat)

  type Slots = s: seq<Slot> | |s| == CAPACITY witness seq(CAPACITY, _ => Empty)

  /** How many of the first n slots are used. */
  function Used(slots: Slots, n: nat): (k: nat)
    requires n <= CAPACITY
    ensures k <= n
  {
    if n == 0 then 0 else Used(slots, n - 1) + (if slots[n - 1].Full? then 1 else 0)
  }

  ghost function Content(s: Slot): multiset<Message> {
    if s.Full? then multiset{s.message} else multiset{}
  }

  /** The messages in the first n slots. */
  ghost function Queued(slots: Slots, n: nat): multiset<Message>
    requires n <= CAPACITY
  {
    if n == 0 then multiset{} else Queued(slots, n - 1) + Content(slots[n - 1])
  }

  lemma {:induction false} UsedSet(slots: Slots, i: nat, s: Slot, n: nat)
    requires i < CAPACITY && n <= CAPACITY
    ensures Used(slots[i := s], n) + (if i < n && slots[i].Full? then 1 else 0) ==
            Used(slots, n) + (if i < n && s.Full? then 1 else 0)
  {
    if n > 0 {
      UsedSet(slots, i, s, n - 1);
    }
  }

  lemma {:induction false} QueuedSet(slots: Slots, i: nat, s: Slot, n: nat)
    requires i < CAPACITY && n <= CAPACITY
    ensures i >= n ==> Queued(slots[i := s], n) == Queued(slots, n)
    ensures i < n ==> Queued(slots[i := s], n) + Content(slots[i]) == Queued(slots, n) + Content(s)
  {
    hide Content;
    if n > 0 {
      QueuedSet(slots, i, s, n - 1);
      if i < n - 1 {
        Shift(Queued(slots, n - 1), Queued(slots[i := s], n - 1), Content(slots[n - 1]), Content(slots[i]), Content(s));
      } else if i == n - 1 {
        assert Queued(slots, n - 1) + Content(s) + Content(slots[i]) ==
               Queued(slots, n - 1) + Content(slots[i]) + Content(s);
      }
    }
  }

  lemma Shift(q: multiset<Message>, q': multiset<Message>, m: multiset<Message>, x: multiset<Message>,
              y: multiset<Message>)
    requires q' + x == q + y
    ensures (q' + m) + x == (q + m) + y
  {
    assert (q' + m) + x == (q' + x) + m;
    assert (q + m) + y == (q + y) + m;
  }

  lemma {:induction false} FullWhenAllUsed(slots: Slots, n: nat)
    requires n <= CAPACITY && forall i :: 0 <= i < n ==> slots[i].Full?
    ensures Used(slots, n) == n
  {
    if n > 0 {
      FullWhenAllUsed(slots, n - 1);
    }
  }

  lemma {:induction false} EmptyWhenNoneUsed(slots: Slots, n: nat)
    requires n <= CAPACITY && Used(slots, n) == 0
    ensures forall i :: 0 <= i < n ==> slots[i].Empty?
  {
    if n > 0 {
      EmptyWhenNoneUsed(slots, n - 1);
    }
  }

  lemma {:induction false} UsedWhenOne(slots: Slots, i: nat, n: nat)
    requires i < n <= CAPACITY && slots[i].Full?
    ensures Used(slots, n) > 0
  {
    if i < n - 1 {
      UsedWhenOne(slots, i, n - 1);
    }
  }

  /** Slot k places behind start, around the end. */
  function Around(start: nat, k: nat): (s: nat)
    ensures s < CAPACITY
  {
    (start + k) % CAPACITY
  }

  lemma AroundAll(start: nat, s: nat) returns (k: nat)
    requires start < CAPACITY && s < CAPACITY
    ensures k < CAPACITY && Around(start, k) == s
  {
    k := if s >= start then s - start else s + CAPACITY - start;
  }

  lemma AroundOnce(start: nat, j: nat, k: nat)
    requires start < CAPACITY && j < CAPACITY && k < CAPACITY && Around(start, j) == Around(start, k)
    ensures j == k
  {
  }

  lemma AroundTwo(start: nat, j: nat, k: nat)
    requires start < CAPACITY && j < k < CAPACITY
    ensures Around(start, j) != Around(start, k)
  {
  }

  lemma AroundNext(start: nat, k: nat)
    ensures (Around(start, k) + 1) % CAPACITY == Around(start, k + 1)
  {
  }

  lemma AroundShift(start: nat, m: nat, k: nat)
    ensures Around(Around(start, m), k) == Around(start, m + k)
  {
  }

  /** Starting at head, the used slots hold messages in the order of sending, all within span places, and
      the tail is the place behind them. */
  ghost predicate InOrder(slots: Slots, head: nat, tail: nat, span: nat, next: nat) {
    && span <= CAPACITY && tail == Around(head, span)
    && (forall k :: 0 <= k < CAPACITY && slots[Around(head, k)].Full? ==>
        k < span && slots[Around(head, k)].number < next)
    && (forall j, k :: 0 <= j < k < span && slots[Around(head, j)].Full? && slots[Around(head, k)].Full? ==>
          slots[Around(head, j)].number < slots[Around(head, k)].number)
  }

  /** A message that was received, with its number in the order of sending. */
  datatype Delivery = Delivery(message: Message, number: nat)

  ghost function Messages(ds: seq<Delivery>): multiset<Message> {
    if |ds| == 0 then multiset{} else Messages(ds[..|ds| - 1]) + multiset{ds[|ds| - 1].message}
  }

  /** Seen from head, the messages for r stand in the order of sending. */
  ghost predicate OrderFor(slots: Slots, head: nat, r: nat) {
    forall j, k :: 0 <= j < k < CAPACITY && IsFor(slots[Around(head, j)], r) && IsFor(slots[Around(head, k)], r) ==>
                     slots[Around(head, j)].number < slots[Around(head, k)].number
  }

  /** Seen from head, a message for r lies behind slot s. */
  ghost predicate LiesBehind(slots: Slots, head: nat, s: nat, r: nat) {
    exists j, k :: 0 <= j < k < CAPACITY && Around(head, j) == s && IsFor(slots[Around(head, k)], r)
  }

  /** From delivery number since on, receiver r got its messages in the order of sending, and what is
      still queued for it is later. */
  ghost predicate Delivered(ds: seq<Delivery>, since: nat, slots: Slots, r: nat) {
    && (forall i, j :: since <= i < j < |ds| && ds[i].message.receiver == r == ds[j].message.receiver ==>
        ds[i].number < ds[j].number)
    && (forall i, s :: since <= i < |ds| && 0 <= s < CAPACITY && ds[i].message.receiver == r && IsFor(slots[s], r) ==>
          ds[i].number < slots[s].number)
  }

  /** Since when a receiver has been served in order: from the start unless its order was lost before. */
  ghost function From(since: map<nat, nat>, r: nat): nat {
    if r in since then since[r] else 0
  }

  /** Every message sent so far has a number below next. */
  ghost predicate Numbered(ds: seq<Delivery>, slots: Slots, next: nat) {
    && (forall s :: 0 <= s < CAPACITY && slots[s].Full? ==> slots[s].number < next)
    && (forall i :: 0 <= i < |ds| ==> ds[i].number < next)
  }

  /** The receivers in lost are those whose queued messages are out of order; all others have been served in
      the order of sending since their time in since. */
  ghost predicate Fair(slots: Slots, head: nat, next: nat, ds: seq<Delivery>, lost: set<nat>, since: map<nat, nat>) {
    && Numbered(ds, slots, next)
    && (forall r: nat :: r in lost <==> !OrderFor(slots, head, r))
    && (forall r: nat :: r !in lost ==> Delivered(ds, From(since, r), slots, r))
  }

  /** A send into slot s keeps a receiver's order if and only if it is not for that receiver or none of
      its messages lies behind s. */
  lemma OrderAfterSend(slots: Slots, head: nat, next: nat, s: nat, m: Message, r: nat)
    requires head < CAPACITY && s < CAPACITY && slots[s].Empty? && OrderFor(slots, head, r)
    requires forall t :: 0 <= t < CAPACITY && slots[t].Full? ==> slots[t].number < next
    ensures OrderFor(slots[s := Full(m, next)], head, r) <==> !(m.receiver == r && LiesBehind(slots, head, s, r))
  {
    var slots' := slots[s := Full(m, next)];
    var d := AroundAll(head, s);
    if m.receiver == r && LiesBehind(slots, head, s, r) {
      var j, k :| 0 <= j < k < CAPACITY && Around(head, j) == s && IsFor(slots[Around(head, k)], r);
      AroundOnce(head, d, j);
      AroundTwo(head, j, k);
      assert IsFor(slots'[Around(head, j)], r) && IsFor(slots'[Around(head, k)], r);
    } else {
      forall j, k | 0 <= j < k < CAPACITY && IsFor(slots'[Around(head, j)], r) && IsFor(slots'[Around(head, k)], r)
        ensures slots'[Around(head, j)].number < slots'[Around(head, k)].number
      {
        if Around(head, j) == s || Around(head, k) == s {
          AroundOnce(head, d, if Around(head, j) == s then j else k);
        }
      }
    }
  }

  lemma FairSend(slots: Slots, head: nat, next: nat, ds: seq<Delivery>, lost: set<nat>, since: map<nat, nat>, s: nat,
                 m: Message)
    requires head < CAPACITY && s < CAPACITY && slots[s].Empty? && Fair(slots, head, next, ds, lost, since)
    ensures Fair(slots[s := Full(m, next)], head, next + 1, ds, Losing(lost, slots, head, s, m.receiver), since)
  {
    hide LiesBehind, OrderFor, From;
    var slots' := slots[s := Full(m, next)];
    forall r: nat
      ensures r in Losing(lost, slots, head, s, m.receiver) <==> !OrderFor(slots', head, r)
      ensures r !in lost ==> Delivered(ds, From(since, r), slots', r)
    {
      if OrderFor(slots, head, r) {
        OrderAfterSend(slots, head, next, s, m, r);
      } else {
        DisorderStays(slots, head, s, Full(m, next), r);
      }
    }
  }

  /** Another message does not restore an order. */
  lemma DisorderStays(slots: Slots, head: nat, s: nat, m: Slot, r: nat)
    requires s < CAPACITY && slots[s].Empty? && !OrderFor(slots, head, r)
    ensures !OrderFor(slots[s := m], head, r)
  {
    var j, k :| 0 <= j < k < CAPACITY && IsFor(slots[Around(head, j)], r) && IsFor(slots[Around(head, k)], r)
                && slots[Around(head, j)].number >= slots[Around(head, k)].number;
    assert slots[s := m][Around(head, j)] == slots[Around(head, j)]
           && slots[s := m][Around(head, k)] == slots[Around(head, k)];
  }

  /** The receivers whose order is lost once a message for r was put into slot s. */
  ghost function Losing(lost: set<nat>, slots: Slots, head: nat, s: nat, r: nat): set<nat> {
    if LiesBehind(slots, head, s, r) then lost + {r} else lost
  }

  /** A message put into the empty tail slot comes last. */
  lemma OrderSend(slots: Slots, head: nat, tail: nat, span: nat, next: nat, m: Message)
    requires head < CAPACITY && InOrder(slots, head, tail, span, next) && slots[tail].Empty?
    requires span == CAPACITY ==> slots[head].Full?
    ensures span < CAPACITY && InOrder(slots[tail := Full(m, next)], head, (tail + 1) % CAPACITY, span + 1, next + 1)
    ensures forall lost: set<nat> :: Losing(lost, slots, head, tail, m.receiver) == lost
  {
    hide Losing;
    var slots' := slots[tail := Full(m, next)];
    AroundNext(head, span);
    assert Around(head, CAPACITY) == head;
    forall k | 0 <= k < CAPACITY && slots'[Around(head, k)].Full?
      ensures k < span + 1 && slots'[Around(head, k)].number < next + 1
      ensures k < span ==> slots'[Around(head, k)] == slots[Around(head, k)]
    {
      if Around(head, k) == tail {
        AroundOnce(head, k, span);
      }
    }
    NoneBehindTail(slots, head, tail, span, next, m.receiver);
  }

  lemma NoneBehindTail(slots: Slots, head: nat, tail: nat, span: nat, next: nat, r: nat)
    requires head < CAPACITY && span < CAPACITY && InOrder(slots, head, tail, span, next)
    ensures forall lost: set<nat> :: Losing(lost, slots, head, tail, r) == lost
  {
    forall j, k | 0 <= j < k < CAPACITY && Around(head, j) == tail
      ensures slots[Around(head, k)].Empty?
    {
      AroundOnce(head, j, span);
    }
  }

  /** Removing a message keeps the others in order. */
  lemma OrderRemove(slots: Slots, head: nat, tail: nat, span: nat, next: nat, s: nat)
    requires InOrder(slots, head, tail, span, next) && s < CAPACITY
    ensures InOrder(slots[s := Empty], head, tail, span, next)
  {
  }

  /** Moving the head over empty slots keeps every receiver's order. */
  lemma FairAdvance(slots: Slots, head: nat, next: nat, ds: seq<Delivery>, lost: set<nat>, since: map<nat, nat>)
    requires head < CAPACITY && Fair(slots, head, next, ds, lost, since) && slots[head].Empty?
    ensures Fair(slots, (head + 1) % CAPACITY, next, ds, lost, since)
  {
    hide OrderFor;
    forall r: nat
      ensures OrderFor(slots, (head + 1) % CAPACITY, r) <==> OrderFor(slots, head, r)
    {
      OrderForAdvance(slots, head, r);
    }
  }

  lemma OrderForAdvance(slots: Slots, head: nat, r: nat)
    requires head < CAPACITY && slots[head].Empty?
    ensures OrderFor(slots, (head + 1) % CAPACITY, r) <==> OrderFor(slots, head, r)
  {
    var h := (head + 1) % CAPACITY;
    assert Around(head, 0) == head;
    forall k | 0 <= k < CAPACITY
      ensures Around(h, k) == Around(head, k + 1) && (k == CAPACITY - 1 ==> Around(h, k) == head)
    {
      AroundShift(head, 1, k);
    }
    forall j, k | OrderFor(slots, h, r) && 0 <= j < k < CAPACITY && IsFor(slots[Around(head, j)], r)
        && IsFor(slots[Around(head, k)], r)
      ensures slots[Around(head, j)].number < slots[Around(head, k)].number
    {
      assert j > 0 && Around(h, j - 1) == Around(head, j) && Around(h, k - 1) == Around(head, k);
    }
  }

  /** Moving the head over empty slots keeps the order. */
  lemma OrderAdvance(slots: Slots, head: nat, tail: nat, span: nat, next: nat)
    requires head < CAPACITY && InOrder(slots, head, tail, span, next) && slots[head].Empty? && span > 0
    ensures InOrder(slots, (head + 1) % CAPACITY, tail, span - 1, next)
  {
    var h := (head + 1) % CAPACITY;
    assert Around(head, 0) == head;
    forall k | 0 <= k < CAPACITY
      ensures Around(h, k) == Around(head, k + 1) && (k == CAPACITY - 1 ==> Around(h, k) == head)
    {
      AroundShift(head, 1, k);
    }
    AroundShift(head, 1, span - 1);
  }

  /** The first match from the head on is the earliest message for that receiver. */
  lemma FirstIsEarliest(slots: Slots, head: nat, k: nat, pid: nat)
    requires head < CAPACITY && OrderFor(slots, head, pid) && k < CAPACITY && IsFor(slots[Around(head, k)], pid)
    requires forall j :: 0 <= j < k ==> !IsFor(slots[Around(head, j)], pid)
    ensures forall t :: 0 <= t < CAPACITY && t != Around(head, k) && IsFor(slots[t], pid) ==>
                          slots[Around(head, k)].number < slots[t].number
  {
    forall t | 0 <= t < CAPACITY && t != Around(head, k) && IsFor(slots[t], pid)
      ensures slots[Around(head, k)].number < slots[t].number
    {
      var j := AroundAll(head, t);
    }
  }

  predicate IsFor(s: Slot, pid: nat) {
    s.Full? && s.message.receiver == pid
  }

  /** The receivers out of order after one message for pid was taken out, leaving slots. */
  ghost function Remaining(lost: set<nat>, slots: Slots, head: nat, pid: nat): set<nat> {
    if OrderFor(slots, head, pid) then lost - {pid} else lost
  }

  /** A receiver whose order is restored that way is served in order from delivery number n on. */
  ghost function Resumed(since: map<nat, nat>, lost: set<nat>, pid: nat, n: nat): map<nat, nat> {
    if pid in lost then since[pid := n] else since
  }

  /** Taking out the first message for a receiver keeps every receiver's order, and may restore its own. */
  lemma FairReceive(slots: Slots, head: nat, next: nat, ds: seq<Delivery>, lost: set<nat>, since: map<nat, nat>,
                    k: nat, pid: nat)
    requires head < CAPACITY && Fair(slots, head, next, ds, lost, since) && k < CAPACITY
             && IsFor(slots[Around(head, k)], pid)
    requires forall j :: 0 <= j < k ==> !IsFor(slots[Around(head, j)], pid)
    ensures var s := Around(head, k);
            Fair(slots[s := Empty], head, next, ds + [Delivery(slots[s].message, slots[s].number)],
                 Remaining(lost, slots[s := Empty], head, pid), Resumed(since, lost, pid, |ds| + 1))
    ensures pid !in lost ==>
              forall t :: 0 <= t < CAPACITY && IsFor(slots[t], pid) ==> slots[Around(head, k)].number <= slots[t].number
  {
    hide OrderFor;
    var s := Around(head, k);
    var more, slots' := ds + [Delivery(slots[s].message, slots[s].number)], slots[s := Empty];
    var lost', since' := Remaining(lost, slots', head, pid), Resumed(since, lost, pid, |ds| + 1);
    forall r: nat
      ensures r in lost' <==> !OrderFor(slots', head, r)
      ensures r !in lost' ==> Delivered(more, From(since', r), slots', r)
    {
      OrderForLess(slots, head, s, r);
      if r !in lost {
        DeliverNext(slots, head, ds, From(since, r), k, pid, r);
      }
    }
    if pid !in lost {
      FirstIsEarliest(slots, head, k, pid);
    }
  }

  lemma OrderForLess(slots: Slots, head: nat, s: nat, r: nat)
    requires s < CAPACITY
    ensures OrderFor(slots, head, r) ==> OrderFor(slots[s := Empty], head, r)
    ensures !IsFor(slots[s], r) ==> (OrderFor(slots[s := Empty], head, r) <==> OrderFor(slots, head, r))
  {
    if !IsFor(slots[s], r) && !OrderFor(slots, head, r) {
      var j, k :| 0 <= j < k < CAPACITY && IsFor(slots[Around(head, j)], r) && IsFor(slots[Around(head, k)], r)
                  && slots[Around(head, j)].number >= slots[Around(head, k)].number;
      assert slots[s := Empty][Around(head, j)] == slots[Around(head, j)]
             && slots[s := Empty][Around(head, k)] == slots[Around(head, k)];
    }
  }

  lemma DeliverNext(slots: Slots, head: nat, ds: seq<Delivery>, since: nat, k: nat, pid: nat, r: nat)
    requires head < CAPACITY && OrderFor(slots, head, r) && Delivered(ds, since, slots, r) && k < CAPACITY
             && IsFor(slots[Around(head, k)], pid)
    requires forall j :: 0 <= j < k ==> !IsFor(slots[Around(head, j)], pid)
    ensures var s := Around(head, k);
            Delivered(ds + [Delivery(slots[s].message, slots[s].number)], since, slots[s := Empty], r)
  {
    if r == pid {
      FirstIsEarliest(slots, head, k, pid);
    }
  }

  /** Conservation: the counter counts the used slots, and what was sent was received or is queued. */
  ghost predicate Books(slots: Slots, count: nat, sent: seq<Message>, ds: seq<Delivery>) {
    count == Used(slots, CAPACITY) && multiset(sent) == Messages(ds) + Queued(slots, CAPACITY)
  }

  lemma BooksSend(slots: Slots, count: nat, sent: seq<Message>, ds: seq<Delivery>, i: nat, m: Message, n: nat)
    requires Books(slots, count, sent, ds) && i < CAPACITY && slots[i].Empty?
    ensures Books(slots[i := Full(m, n)], count + 1, sent + [m], ds)
  {
    hide Used, Queued, Messages;
    UsedSet(slots, i, Full(m, n), CAPACITY);
    QueuedSet(slots, i, Full(m, n), CAPACITY);
    QueuedMore(sent, m, ds, Queued(slots, CAPACITY), Queued(slots[i := Full(m, n)], CAPACITY));
  }

  lemma BooksReceive(slots: Slots, count: nat, sent: seq<Message>, ds: seq<Delivery>, i: nat)
    requires Books(slots, count, sent, ds) && i < CAPACITY && slots[i].Full?
    ensures count > 0 && Books(slots[i := Empty], count - 1, sent, ds + [Delivery(slots[i].message, slots[i].number)])
  {
    hide Used, Queued;
    var d := Delivery(slots[i].message, slots[i].number);
    UsedWhenOne(slots, i, CAPACITY);
    UsedSet(slots, i, Empty, CAPACITY);
    QueuedSet(slots, i, Empty, CAPACITY);
    assert (ds + [d])[..|ds|] == ds;
    QueuedLess(Messages(ds), multiset{d.message}, Queued(slots, CAPACITY), Queued(slots[i := Empty], CAPACITY));
  }

  lemma QueuedLess(ds: multiset<Message>, m: multiset<Message>, q: multiset<Message>, q': multiset<Message>)
    requires q' + m == q + multiset{}
    ensures ds + q == (ds + m) + q'
  {
    assert q + multiset{} == q;
  }

  lemma CountedEmpty(slots: Slots, count: nat, sent: seq<Message>, ds: seq<Delivery>)
    requires Books(slots, count, sent, ds)
    ensures count == 0 ==> forall i :: 0 <= i < CAPACITY ==> slots[i].Empty?
    ensures count > 0 ==> exists i :: 0 <= i < CAPACITY && slots[i].Full?
    ensures count <= CAPACITY
  {
    if count == 0 {
      EmptyWhenNoneUsed(slots, CAPACITY);
    } else if forall i :: 0 <= i < CAPACITY ==> slots[i].Empty? {
      NothingQueued(slots, CAPACITY);
    }
  }

  ghost predicate Indexed(slots: Slots, head: nat, tail: nat, count: nat, next: nat, lost: set<nat>, orderly: bool,
                          span: nat) {
    && head < CAPACITY && tail < CAPACITY && (if count == 0 then head == tail == 0 else slots[head].Full?)
    && (orderly ==> lost == {} && InOrder(slots, head, tail, span, next) && (count == 0 ==> span == 0))
  }

  lemma IndexedSend(slots: Slots, head: nat, tail: nat, count: nat, next: nat, lost: set<nat>, orderly: bool,
                    span: nat, s: nat, m: Message)
    requires Indexed(slots, head, tail, count, next, lost, orderly, span) && FirstEmpty(slots, tail, s)
    requires count == 0 ==> slots[0].Empty?
    ensures s < CAPACITY && slots[s].Empty?
    ensures Indexed(slots[s := Full(m, next)], head, (s + 1) % CAPACITY, count + 1, next + 1,
                    Losing(lost, slots, head, s, m.receiver),
                    orderly && slots[tail].Empty?, span + 1)
  {
    hide InOrder, Losing, FirstEmpty;
    FoundEmpty(slots, tail, s);
    if slots[tail].Empty? && orderly {
      SpanFull(slots, head, tail, span, next, count);
      OrderSend(slots, head, tail, span, next, m);
    }
  }

  /** What a send leaves. */
  lemma SendKeeps(slots: Slots, head: nat, tail: nat, count: nat, sent: seq<Message>, ds: seq<Delivery>, lost: set<nat>,
                  since: map<nat, nat>, orderly: bool, span: nat, s: nat, m: Message)
    requires Books(slots, count, sent, ds) && Fair(slots, head, |sent|, ds, lost, since) && FirstEmpty(slots, tail, s)
    requires Indexed(slots, head, tail, count, |sent|, lost, orderly, span)
    ensures s < CAPACITY && slots[s].Empty?
    ensures var slots', lost' := slots[s := Full(m, |sent|)], Losing(lost, slots, head, s, m.receiver);
            && Books(slots', count + 1, sent + [m], ds) && Fair(slots', head, |sent| + 1, ds, lost', since)
            && Indexed(slots', head, (s + 1) % CAPACITY, count + 1, |sent| + 1, lost',
                       orderly && slots[tail].Empty?, span + 1)
            && (m.receiver in lost' <==> !OrderFor(slots', head, m.receiver))
  {
    hide Books, InOrder, Fair, Losing, OrderFor, FirstEmpty;
    CountedEmpty(slots, count, sent, ds);
    IndexedSend(slots, head, tail, count, |sent|, lost, orderly, span, s, m);
    BooksSend(slots, count, sent, ds, s, m, |sent|);
    FairSend(slots, head, |sent|, ds, lost, since, s, m);
    FairMeans(slots[s := Full(m, |sent|)], head, |sent| + 1, ds, Losing(lost, slots, head, s, m.receiver), since,
              m.receiver);
  }

  class Mailbox {
    var slots: Slots
    var head: nat
    var tail: nat
    var count: nat
    /** How many messages were sent; it numbers them. */
    var sends: nat
    ghost var sent: seq<Message>
    ghost var received: seq<Delivery>
    /** The receivers whose queued messages are out of order, and since which delivery the others that once
        were among them have been served in order. */
    ghost var lost: set<nat>
    ghost var since: map<nat, nat>
    /** No send has found its tail slot occupied. */
    ghost var orderly: bool
    ghost var span: nat

    /** What was sent has been received or is queued, and the counter counts the used slots. */
    ghost predicate Valid()
      reads this
    {
      && sends == |sent| && Books(slots, count, sent, received) && Fair(slots, head, sends, received, lost, since)
      && Indexed(slots, head, tail, count, sends, lost, orderly, span)
    }

    constructor ()
      ensures Valid() && sent == [] && received == [] && orderly && lost == {} && since == map[] && count == 0
      ensures head == tail == 0 && slots == seq(CAPACITY, _ => Empty)
    {
      slots := seq(CAPACITY, _ => Empty);
      head, tail, count, sends := 0, 0, 0, 0;
      sent, received, lost, since, orderly, span := [], [], {}, map[], true, 0;
      new;
      NothingQueued(slots, CAPACITY);
    }

    /** ipc_send: refused when the message is too long or all slots are used; otherwise the message goes
        into the first empty slot from the tail on.  The receiver's order is lost if and only if one of
        its messages lies behind that slot, which cannot happen while no send found its tail slot occupied. */
    method Send(sender: nat, receiver: nat, data: seq<Byte>) returns (ok: bool, ghost slot: nat)
      requires Valid()
      modifies this
      ensures Valid() && received == old(received) && head == old(head)
      ensures ok <==> |data| <= MESSAGE_SIZE && old(count) < CAPACITY
      ensures ok ==> sent == old(sent) + [Message(sender, receiver, data)] && count == old(count) + 1
      ensures ok ==> FirstEmpty(old(slots), old(tail), slot) && tail == (slot + 1) % CAPACITY
      ensures ok ==> slots == old(slots)[slot := Full(Message(sender, receiver, data), old(sends))]
      ensures since == old(since) && (ok ==> lost == Losing(old(lost), old(slots), head, slot, receiver))
      ensures ok ==> (receiver in lost <==> !OrderFor(slots, head, receiver))
      ensures !ok ==>
                sent == old(sent) && slots == old(slots) && count == old(count) && tail == old(tail)
                && lost == old(lost)
      ensures orderly == (old(orderly) && (!ok || old(slots[tail]).Empty?))
    {
      hide Books, Indexed, Fair, Losing, OrderFor, FirstEmpty;
      slot := 0;
      if |data| > MESSAGE_SIZE || count >= CAPACITY {
        return false, 0;
      }
      var m := Message(sender, receiver, data);
      RoomLeft(slots, count, sent, received);
      InBounds(slots, head, tail, count, sends, lost, orderly, span);
      var found := FindEmpty();
      slot := found;
      SendKeeps(slots, head, tail, count, sent, received, lost, since, orderly, span, slot, m);
      orderly := orderly && slots[tail].Empty?;
      lost := Losing(lost, slots, head, slot, receiver);
      slots := slots[found := Full(m, sends)];
      tail := (found + 1) % CAPACITY;
      count := count + 1;
      sent, sends := sent + [m], sends + 1;
      span := span + 1;
      ok := true;
    }

    /** ipc_receive: the first message for the receiver from the head on, at place k.  It succeeds exactly
        when there is one, and it is the earliest unless the receiver's messages were out of order.  When
        those that are left are in order again, the receiver is served in order from then on. */
    method Receive(pid: nat) returns (ok: bool, m: Message, ghost number: nat, ghost k: nat)
      requires Valid()
      modifies this
      ensures Valid() && sent == old(sent) && orderly == old(orderly)
      ensures lost - {pid} == old(lost) - {pid} && (pid in lost <==> !OrderFor(slots, head, pid))
      ensures since == if ok then Resumed(old(since), old(lost), pid, |received|) else old(since)
      ensures ok <==> exists i :: 0 <= i < CAPACITY && IsFor(old(slots)[i], pid)
      ensures ok ==> received == old(received) + [Delivery(m, number)] && m.receiver == pid && count == old(count) - 1
      ensures ok ==> k < CAPACITY && old(slots)[Around(old(head), k)] == Full(m, number)
      ensures ok ==> forall j :: 0 <= j < k ==> !IsFor(old(slots)[Around(old(head), j)], pid)
      ensures ok ==> slots == old(slots)[Around(old(head), k) := Empty]
      ensures !ok ==> received == old(received) && slots == old(slots) && head == old(head)
      ensures count > 0 ==> FirstUsed(slots, old(head), head) && tail == old(tail)
      ensures ok && pid !in old(lost) ==> forall i :: 0 <= i < CAPACITY && IsFor(old(slots)[i], pid) ==>
                number <= old(slots)[i].number
    {
      hide Books, InOrder, Fair, FirstUsed;
      m, number, k := Message(0, 0, []), 0, 0;
      for index := 0 to CAPACITY
        invariant Valid() && slots == old(slots) && head == old(head) && tail == old(tail) && span == old(span)
                  && lost == old(lost) && since == old(since)
        invariant orderly == old(orderly) && sent == old(sent) && received == old(received) && count == old(count)
        invariant forall j :: 0 <= j < index ==> !IsFor(slots[Around(head, j)], pid)
      {
        var slot := (head + index) % CAPACITY;
        assert slot == Around(head, index);
        if IsFor(slots[slot], pid) {
          m, number, k := slots[slot].message, slots[slot].number, index;
          FairReceive(slots, head, sends, received, lost, since, index, pid);
          if orderly {
            OrderRemove(slots, head, tail, span, sends, slot);
          }
          BooksReceive(slots, count, sent, received, slot);
          received := received + [Delivery(m, number)];
          since := Resumed(since, lost, pid, |received|);
          lost := Remaining(lost, slots[slot := Empty], head, pid);
          slots := slots[slot := Empty];
          count := count - 1;
          MoveHead();
          FairMeans(slots, head, sends, received, lost, since, pid);
          return true, m, number, k;
        }
      }
      NoneFor(slots, head, pid);
      NoneInOrder(slots, head, pid);
      FairMeans(slots, head, sends, received, lost, since, pid);
      if count > 0 {
        UsedHead(slots, head);
      }
      ok := false;
    }

    /** The head moves to the next used slot; with none left both indices start over. */
    method MoveHead()
      requires head < CAPACITY && tail < CAPACITY && sends == |sent| && Books(slots, count, sent, received)
      requires Fair(slots, head, sends, received, lost, since)
      requires orderly ==> lost == {} && InOrder(slots, head, tail, span, sends)
      modifies this`head, this`tail, this`span
      ensures Valid()
      ensures count > 0 ==> FirstUsed(slots, old(head), head) && tail == old(tail)
    {
      hide Books, InOrder, Fair;
      CountedEmpty(slots, count, sent, received);
      if count == 0 {
        OrderEmpty(slots, sends);
        FairEmpty(slots, head, sends, received, lost, since);
        head, tail, span := 0, 0, 0;
        return;
      }
      ghost var k := 0;
      while slots[head].Empty?
        invariant head < CAPACITY && tail == old(tail) && k <= CAPACITY && head == Around(old(head), k)
        invariant forall j :: 0 <= j < k && j < CAPACITY ==> slots[Around(old(head), j)].Empty?
        invariant Fair(slots, head, sends, received, lost, since)
        invariant orderly ==> lost == {} && InOrder(slots, head, tail, span, sends)
        decreases CAPACITY - k
      {
        if k == CAPACITY {
          AllEmpty(slots, old(head));
        }
        if orderly {
          SpanLeft(slots, head, tail, span, sends);
          OrderAdvance(slots, head, tail, span, sends);
          span := span - 1;
        }
        FairAdvance(slots, head, sends, received, lost, since);
        AroundNext(old(head), k);
        head := (head + 1) % CAPACITY;
        k := k + 1;
      }
    }

    /** The search for an empty slot from the tail on; it ends because not all slots are used. */
    method FindEmpty() returns (slot: nat)
      requires tail < CAPACITY && Used(slots, CAPACITY) < CAPACITY
      ensures FirstEmpty(slots, tail, slot)
    {
      slot := tail;
      ghost var k := 0;
      while slots[slot].Full?
        invariant k <= CAPACITY && slot == Around(tail, k)
        invariant forall j :: 0 <= j < k && j < CAPACITY ==> slots[Around(tail, j)].Full?
        decreases CAPACITY - k
      {
        if k == CAPACITY {
          AllUsed(slots, tail);
        }
        AroundNext(tail, k);
        slot := (slot + 1) % CAPACITY;
        k := k + 1;
      }
    }
  }

  lemma NothingQueued(slots: Slots, n: nat)
    requires n <= CAPACITY && forall i :: 0 <= i < CAPACITY ==> slots[i].Empty?
    ensures Used(slots, n) == 0 && Queued(slots, n) == multiset{}
  {
  }

  lemma AllUsed(slots: Slots, start: nat)
    requires start < CAPACITY && forall j :: 0 <= j < CAPACITY ==> slots[Around(start, j)].Full?
    ensures Used(slots, CAPACITY) == CAPACITY
  {
    forall i | 0 <= i < CAPACITY
      ensures slots[i].Full?
    {
      var k := AroundAll(start, i);
    }
    FullWhenAllUsed(slots, CAPACITY);
  }

  lemma SpanFull(slots: Slots, head: nat, tail: nat, span: nat, next: nat, count: nat)
    requires if count == 0 then span == 0 else slots[head % CAPACITY].Full? && head < CAPACITY
    requires InOrder(slots, head, tail, span, next)
    ensures span == CAPACITY ==> head < CAPACITY && slots[head].Full?
  {
  }

  lemma RoomLeft(slots: Slots, count: nat, sent: seq<Message>, ds: seq<Delivery>)
    requires Books(slots, count, sent, ds) && count < CAPACITY
    ensures Used(slots, CAPACITY) < CAPACITY
  {
  }

  lemma AllEmpty(slots: Slots, start: nat)
    requires start < CAPACITY && forall j :: 0 <= j < CAPACITY ==> slots[Around(start, j)].Empty?
    ensures forall i :: 0 <= i < CAPACITY ==> slots[i].Empty?
  {
    forall i | 0 <= i < CAPACITY
      ensures slots[i].Empty?
    {
      var k := AroundAll(start, i);
    }
  }

  lemma NoneFor(slots: Slots, start: nat, pid: nat)
    requires start < CAPACITY && forall j :: 0 <= j < CAPACITY ==> !IsFor(slots[Around(start, j)], pid)
    ensures forall i :: 0 <= i < CAPACITY ==> !IsFor(slots[i], pid)
  {
    forall i | 0 <= i < CAPACITY
      ensures !IsFor(slots[i], pid)
    {
      var k := AroundAll(start, i);
    }
  }

  lemma OrderEmpty(slots: Slots, next: nat)
    requires forall i :: 0 <= i < CAPACITY ==> slots[i].Empty?
    ensures InOrder(slots, 0, 0, 0, next)
  {
  }

  /** A used slot that is not at the head lies inside the span. */
  lemma SpanLeft(slots: Slots, head: nat, tail: nat, span: nat, next: nat)
    requires head < CAPACITY && InOrder(slots, head, tail, span, next)
    requires exists i :: 0 <= i < CAPACITY && slots[i].Full?
    ensures span > 0
  {
    var i :| 0 <= i < CAPACITY && slots[i].Full?;
    var k := AroundAll(head, i);
  }

  /** Slot s is the first empty one from start on. */
  ghost predicate FirstEmpty(slots: Slots, start: nat, s: nat) {
    exists k :: 0 <= k < CAPACITY && Around(start, k) == s && slots[s].Empty?
                && forall j :: 0 <= j < k ==> slots[Around(start, j)].Full?
  }

  /** Slot s is the first used one from start on. */
  ghost predicate FirstUsed(slots: Slots, start: nat, s: nat) {
    exists k :: 0 <= k < CAPACITY && Around(start, k) == s && slots[s].Full?
                && forall j :: 0 <= j < k ==> slots[Around(start, j)].Empty?
  }

  lemma InBounds(slots: Slots, head: nat, tail: nat, count: nat, next: nat, lost: set<nat>, orderly: bool, span: nat)
    requires Indexed(slots, head, tail, count, next, lost, orderly, span)
    ensures head < CAPACITY && tail < CAPACITY
  {
  }

  lemma FoundEmpty(slots: Slots, tail: nat, s: nat)
    requires tail < CAPACITY && FirstEmpty(slots, tail, s)
    ensures s < CAPACITY && slots[s].Empty? && (slots[tail].Empty? ==> s == tail)
  {
    assert Around(tail, 0) == tail;
  }

  lemma UsedHead(slots: Slots, head: nat)
    requires head < CAPACITY && slots[head].Full?
    ensures FirstUsed(slots, head, head)
  {
    assert Around(head, 0) == head;
  }

  lemma FairMeans(slots: Slots, head: nat, next: nat, ds: seq<Delivery>, lost: set<nat>, since: map<nat, nat>, r: nat)
    requires Fair(slots, head, next, ds, lost, since)
    ensures r in lost <==> !OrderFor(slots, head, r)
  {
  }

  lemma NoneInOrder(slots: Slots, head: nat, r: nat)
    requires forall i :: 0 <= i < CAPACITY ==> !IsFor(slots[i], r)
    ensures OrderFor(slots, head, r)
  {
  }

  lemma FairEmpty(slots: Slots, head: nat, next: nat, ds: seq<Delivery>, lost: set<nat>, since: map<nat, nat>)
    requires Fair(slots, head, next, ds, lost, since) && forall i :: 0 <= i < CAPACITY ==> slots[i].Empty?
    ensures Fair(slots, 0, next, ds, lost, since)
  {
  }

  lemma QueuedMore(sent: seq<Message>, m: Message, ds: seq<Delivery>, q: multiset<Message>, q': multiset<Message>)
    requires multiset(sent) == Messages(ds) + q && q' + multiset{} == q + multiset{m}
    ensures multiset(sent + [m]) == Messages(ds) + q'
  {
    assert q' == q + multiset{m};
    assert multiset(sent + [m]) == multiset(sent) + multiset{m};
  }

  lemma EmptyOnce(slots: Slots, start: nat, s: nat, k: nat)
    requires FirstEmpty(slots, start, s) && k < CAPACITY && slots[Around(start, k)].Empty?
    requires forall j :: 0 <= j < k ==> slots[Around(start, j)].Full?
    ensures s == Around(start, k)
  {
  }

  lemma UsedOnce(slots: Slots, start: nat, s: nat, k: nat)
    requires FirstUsed(slots, start, s) && k < CAPACITY && slots[Around(start, k)].Full?
    requires forall j :: 0 <= j < k ==> slots[Around(start, j)].Empty?
    ensures s == Around(start, k)
  {
  }

  /** The receiver of the j-th message in the run below. */
  function To(j: nat): nat {
    if j == 1 then 2 else 1
  }

  /** A run that loses the order.  Of 32 messages the one numbered 1 is for receiver 2 and the others are
      for receiver 1.  Receiver 2 takes its message; the next one for receiver 1, number 32, goes into the
      hole and is received before number 2. */
  method HoleReuse() returns (box: Mailbox, ok: bool, ghost number: nat)
    ensures box.Valid() && ok && number == 32 && |box.received| == 3 && box.received[2].number == 32
    ensures box.received[2].message.receiver == 1 && IsFor(box.slots[2], 1) && box.slots[2].number == 2
  {
    hide Books, InOrder, Fair, OrderFor, LiesBehind, FirstEmpty, FirstUsed;
    box := FullBox();
    ghost var slot, k;
    var m;
    assert IsFor(box.slots[1], 2) && Around(0, 1) == 1 && Around(0, 0) == 0;
    ok, m, number, k := box.Receive(2);
    assert k == 1 && box.slots[1].Empty?;
    UsedOnce(box.slots, 0, box.head, 0);
    ghost var was := box.slots;
    ok, slot := box.Send(0, 1, []);
    EmptyOnce(was, 0, slot, 1);
    assert box.slots[1].number == 32 && IsFor(box.slots[0], 1);
    ok, m, number, k := box.Receive(1);
    assert k == 0 && box.slots[0].Empty?;
    UsedOnce(box.slots, 0, box.head, 1);
    ok, m, number, k := box.Receive(1);
    assert Around(1, 0) == 1;
  }

  method FullBox() returns (box: Mailbox)
    ensures fresh(box) && box.Valid() && box.received == [] && box.count == box.sends == CAPACITY
            && box.head == box.tail == 0
    ensures forall j :: 0 <= j < CAPACITY ==> IsFor(box.slots[j], To(j)) && box.slots[j].number == j
  {
    hide Books, InOrder, Fair, OrderFor, LiesBehind, FirstEmpty, FirstUsed;
    box := new Mailbox();
    for i := 0 to CAPACITY
      invariant fresh(box) && box.Valid() && box.received == [] && box.count == box.sends == i && box.head == 0
      invariant box.tail == i % CAPACITY
      invariant forall j :: 0 <= j < i ==> IsFor(box.slots[j], To(j)) && box.slots[j].number == j
      invariant forall j :: i <= j < CAPACITY ==> box.slots[j].Empty?
    {
      ghost var was := box.slots;
      assert Around(i, 0) == i;
      var ok, slot := box.Send(0, To(i), []);
      EmptyOnce(was, i, slot, 0);
    }
  }
}
