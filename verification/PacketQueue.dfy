/** The packet queue of ports/video/papp_player.c: a single-producer single-consumer ring with
    plain loads and stores, one step of this machine each, in sequentially consistent order (the
    code has SEQ_CST fences). Copying an item is two steps, so that a copy can be seen half done.

    The counters wrap at 2^32 as the source's do; `pushed` and `popped` record what went in and out. */
module PacketQueue {
  import opened Bytes
  import opened Division
  import opened Wrappers

  datatype Kind = Packet | Flush | Eof

  /** A queued item; `size` is its packet's, None without a packet. */
  datatype Item = Item(size: Option<nat>, serial: int, kind: Kind)

  datatype Cell = Unwritten | Torn | Holds(item: Item)

  function Size(it: Item): nat { if it.size.Some? then it.size.value else 0 }

  /** Where q_push is; `h` is its copy of head, `b` its copy of bytes_in. */
  datatype Producer =
    | Away
    | HeadLoaded(it: Item, h: nat)
    | RoomFound(it: Item, h: nat)
    | Writing(it: Item, h: nat)
    | Written(it: Item, h: nat)
    | BytesLoaded(it: Item, h: nat, b: nat)
    | Counted(it: Item, h: nat)

  /** Where q_pop is; `t` is its copy of tail, `out` the item it copied. */
  datatype Consumer =
    | Idle
    | TailLoaded(t: nat)
    | ItemFound(t: nat)
    | Reading(t: nat, first: Cell)
    | Read(t: nat, out: Cell)
    | OutLoaded(t: nat, out: Cell, b: nat)
    | OutCounted(t: nat, out: Cell)

  datatype Queue = Queue(
    cap: nat, items: seq<Cell>, head: nat, tail: nat, bytesIn: nat, bytesOut: nat,
    producer: Producer, consumer: Consumer, pushed: seq<Item>, popped: seq<Cell>)

  datatype Action = StartPush(it: Item) | StepPush | StartPop | StepPop

  function Init(cap: nat): Queue
  {
    Queue(cap, seq(cap, i => Unwritten), 0, 0, 0, 0, Away, Idle, [], [])
  }

  /** q_init's capacity: the source uses 512 and 1024. */
  predicate GoodCapacity(cap: nat) { 0 < cap < TWO_TO_32 && TWO_TO_32 % cap == 0 }

  /** The cell of a counter value. */
  function Slot(n: nat, cap: nat): nat
    requires cap > 0
    ensures Slot(n, cap) < cap
  {
    n % cap
  }

  predicate Enabled(q: Queue, a: Action)
  {
    match a
    case StartPush(_) => q.producer.Away?
    case StepPush => !q.producer.Away?
    case StartPop => q.consumer.Idle?
    case StepPop => !q.consumer.Idle?
  }

  function PushStep(q: Queue): Queue
    requires |q.items| == q.cap > 0
  {
    match q.producer
    case Away => q
    case HeadLoaded(it, h) =>
      if Word32(h - q.tail) >= q.cap then q.(producer := Away)
      else q.(producer := RoomFound(it, h))
    case RoomFound(it, h) => q.(items := q.items[Slot(h, q.cap) := Torn], producer := Writing(it, h))
    case Writing(it, h) => q.(items := q.items[Slot(h, q.cap) := Holds(it)], producer := Written(it, h))
    case Written(it, h) =>
      if it.size.Some? then q.(producer := BytesLoaded(it, h, q.bytesIn)) else q.(producer := Counted(it, h))
    case BytesLoaded(it, h, b) => q.(bytesIn := Word32(b + Size(it)), producer := Counted(it, h))
    case Counted(it, h) => q.(head := Word32(h + 1), pushed := q.pushed + [it], producer := Away)
  }

  function SizeOut(c: Cell): nat { if c.Holds? then Size(c.item) else 0 }

  function PopStep(q: Queue): Queue
    requires |q.items| == q.cap > 0
  {
    match q.consumer
    case Idle => q
    case TailLoaded(t) =>
      if t == q.head then q.(consumer := Idle) else q.(consumer := ItemFound(t))
    case ItemFound(t) => q.(consumer := Reading(t, q.items[Slot(t, q.cap)]))
    case Reading(t, first) =>
      q.(consumer := Read(t, if q.items[Slot(t, q.cap)] == first then first else Torn))
    case Read(t, out) =>
      if out.Holds? && out.item.size.Some? then q.(consumer := OutLoaded(t, out, q.bytesOut))
      else q.(consumer := OutCounted(t, out))
    case OutLoaded(t, out, b) => q.(bytesOut := Word32(b + SizeOut(out)), consumer := OutCounted(t, out))
    case OutCounted(t, out) => q.(tail := Word32(t + 1), popped := q.popped + [out], consumer := Idle)
  }

  function Next(q: Queue, a: Action): Queue
    requires |q.items| == q.cap > 0 && Enabled(q, a)
  {
    match a
    case StartPush(it) => q.(producer := HeadLoaded(it, q.head))
    case StepPush => PushStep(q)
    case StartPop => q.(consumer := TailLoaded(q.tail))
    case StepPop => PopStep(q)
  }

  // ---- The invariant ----

  function Total(items: seq<Item>): nat
  {
    if items == [] then 0 else Total(items[..|items| - 1]) + Size(items[|items| - 1])
  }

  /** Items on their way: in `pushed` but not yet counted out, or counted in but not yet pushed. */
  function BytesPushed(q: Queue): nat
  {
    Total(q.pushed) + (if q.producer.Counted? then Size(q.producer.it) else 0)
  }

  function BytesPopped(q: Queue): nat
    requires |q.popped| <= |q.pushed|
  {
    Total(q.pushed[..|q.popped|]) + (if q.consumer.OutCounted? then SizeOut(q.consumer.out) else 0)
  }

  /** A push under way has room, and once its item is written the cell keeps it. */
  ghost predicate ProducerOk(q: Queue)
    requires q.cap == |q.items| > 0
  {
    var p := q.producer;
    if p.Away? then true
    else if p.HeadLoaded? then p.h == Word32(|q.pushed|)
    else
      && p.h == Word32(|q.pushed|) && |q.pushed| < |q.popped| + q.cap
      && (p.RoomFound? || p.Writing? || q.items[Slot(|q.pushed|, q.cap)] == Holds(p.it))
      && (p.BytesLoaded? ==> p.b == q.bytesIn)
  }

  /** A pop under way has an item, and what it copied is that item, whole. */
  ghost predicate ConsumerOk(q: Queue)
  {
    var c := q.consumer;
    if c.Idle? then true
    else if c.TailLoaded? then c.t == Word32(|q.popped|)
    else
      && c.t == Word32(|q.popped|) && |q.popped| < |q.pushed|
      && (c.Reading? ==> c.first == Holds(q.pushed[|q.popped|]))
      && (c.ItemFound? || c.Reading? || c.out == Holds(q.pushed[|q.popped|]))
      && (c.OutLoaded? ==> c.b == q.bytesOut)
  }

  /** What came out is what went in, in order. */
  ghost predicate PoppedOk(popped: seq<Cell>, pushed: seq<Item>)
  {
    |popped| <= |pushed| && forall i | 0 <= i < |popped| :: popped[i] == Holds(pushed[i])
  }

  /** What is queued is in its cell. */
  ghost predicate CellsOk(items: seq<Cell>, pushed: seq<Item>, from: nat)
    requires |items| > 0
  {
    forall i | from <= i < |pushed| :: items[Slot(i, |items|)] == Holds(pushed[i])
  }

  ghost predicate Inv(q: Queue)
  {
    && GoodCapacity(q.cap) && |q.items| == q.cap
    && |q.popped| <= |q.pushed| <= |q.popped| + q.cap
    && q.head == Word32(|q.pushed|) && q.tail == Word32(|q.popped|)
    && PoppedOk(q.popped, q.pushed) && CellsOk(q.items, q.pushed, |q.popped|)
    && q.bytesIn == Word32(BytesPushed(q)) && q.bytesOut == Word32(BytesPopped(q))
    && ProducerOk(q) && ConsumerOk(q)
  }

  lemma {:induction false} ModMultiple(n: nat, cap: nat, k: nat)
    requires cap > 0
    ensures (n + k * cap) % cap == n % cap
    decreases k
  {
    if k > 0 {
      assert n + k * cap == n + (k - 1) * cap + cap;
      ModMultiple(n, cap, k - 1);
      AddOnce(n + (k - 1) * cap, cap);
    }
  }

  lemma AddOnce(x: nat, cap: nat)
    requires cap > 0
    ensures (x + cap) % cap == x % cap
  {
    var q, r := x / cap, x % cap;
    assert x + cap == (q + 1) * cap + r;
    RemainderIs(x + cap, q + 1, cap, r);
  }

  /** A counter's wrap at 2^32 does not change its cell. */
  lemma SlotOfWord(n: nat, cap: nat)
    requires GoodCapacity(cap)
    ensures Slot(Word32(n), cap) == Slot(n, cap)
  {
    var m := TWO_TO_32 / cap;
    assert TWO_TO_32 == m * cap;
    var k := n / TWO_TO_32;
    assert n == Word32(n) + (k * m) * cap by {
      assert n == Word32(n) + k * TWO_TO_32;
      assert k * TWO_TO_32 == k * (m * cap) == (k * m) * cap;
    }
    ModMultiple(Word32(n), cap, k * m);
  }

  /** Counter values less than a ring apart have different cells. */
  lemma SlotsDiffer(i: nat, j: nat, cap: nat)
    requires i < j < i + cap
    ensures Slot(i, cap) != Slot(j, cap)
  {
    var d: int := j / cap - i / cap;
    assert j == j / cap * cap + j % cap && i == i / cap * cap + i % cap;
    assert d * cap == j / cap * cap - i / cap * cap;
    NoMultipleBetween(d, cap);
  }

  lemma InitInv(cap: nat)
    requires GoodCapacity(cap)
    ensures Inv(Init(cap))
  {}

  lemma WordDifference(h: nat, t: nat)
    requires t <= h < t + TWO_TO_32
    ensures Word32(Word32(h) - Word32(t)) == h - t
    ensures Word32(h) == Word32(t) <==> h == t
    ensures Word32(Word32(h) + 1) == Word32(h + 1)
  {}

  lemma TotalNext(items: seq<Item>, it: Item)
    ensures Total(items + [it]) == Total(items) + Size(it)
  {
    assert (items + [it])[..|items|] == items;
  }

  /** The producer's cell is none of the queued ones. */
  lemma WriteCell(items: seq<Cell>, pushed: seq<Item>, from: nat, c: Cell)
    requires |items| > 0 && CellsOk(items, pushed, from) && from <= |pushed| < from + |items|
    ensures CellsOk(items[Slot(|pushed|, |items|) := c], pushed, from)
  {
    forall i | from <= i < |pushed| ensures Slot(i, |items|) != Slot(|pushed|, |items|) {
      SlotsDiffer(i, |pushed|, |items|);
    }
  }

  lemma Publish(items: seq<Cell>, pushed: seq<Item>, popped: seq<Cell>, it: Item)
    requires |items| > 0 && CellsOk(items, pushed, |popped|) && PoppedOk(popped, pushed)
    requires items[Slot(|pushed|, |items|)] == Holds(it)
    ensures CellsOk(items, pushed + [it], |popped|) && PoppedOk(popped, pushed + [it])
  {}

  lemma PushKeepsInv(q: Queue)
    requires Inv(q) && !q.producer.Away?
    ensures Inv(PushStep(q))
  {
    hide Slot, Total, Size, SizeOut, CellsOk, PoppedOk, Word32, GoodCapacity;
    CapacityBound(q.cap);
    WordDifference(|q.pushed|, |q.popped|);
    SlotOfWord(|q.pushed|, q.cap);
    var n := PushStep(q);
    match q.producer
    case HeadLoaded(it, h) =>
    case RoomFound(it, h) => WriteCell(q.items, q.pushed, |q.popped|, Torn);
    case Writing(it, h) => WriteCell(q.items, q.pushed, |q.popped|, Holds(it));
    case Written(it, h) => NoSize(it);
    case BytesLoaded(it, h, b) => WordSum(Total(q.pushed), Size(it));
    case Counted(it, h) =>
      Publish(q.items, q.pushed, q.popped, it);
      TotalNext(q.pushed, it);
      assert n.pushed[..|q.popped|] == q.pushed[..|q.popped|];
  }

  lemma CapacityBound(cap: nat)
    requires GoodCapacity(cap)
    ensures 0 < cap < TWO_TO_32
  {}

  lemma NoSize(it: Item)
    ensures it.size == None ==> Size(it) == 0
    ensures SizeOut(Holds(it)) == Size(it)
  {}

  lemma WordSum(a: nat, b: nat)
    ensures Word32(Word32(a) + b) == Word32(a + b)
  {}

  lemma Consume(items: seq<Cell>, pushed: seq<Item>, popped: seq<Cell>)
    requires |items| > 0 && CellsOk(items, pushed, |popped|) && PoppedOk(popped, pushed) && |popped| < |pushed|
    ensures items[Slot(|popped|, |items|)] == Holds(pushed[|popped|])
    ensures CellsOk(items, pushed, |popped| + 1) && PoppedOk(popped + [Holds(pushed[|popped|])], pushed)
  {}

  lemma PopKeepsInv(q: Queue)
    requires Inv(q) && !q.consumer.Idle?
    ensures Inv(PopStep(q))
  {
    hide Slot, Total, Size, SizeOut, CellsOk, PoppedOk, Word32, GoodCapacity;
    CapacityBound(q.cap);
    WordDifference(|q.pushed|, |q.popped|);
    WordDifference(|q.popped|, |q.popped|);
    SlotOfWord(|q.popped|, q.cap);
    if |q.popped| < |q.pushed| {
      var it := q.pushed[|q.popped|];
      Consume(q.items, q.pushed, q.popped);
      NoSize(it);
      WordSum(Total(q.pushed[..|q.popped|]), Size(it));
      TotalNext(q.pushed[..|q.popped|], it);
      assert q.pushed[..|q.popped| + 1] == q.pushed[..|q.popped|] + [it];
    }
  }

  lemma NextKeepsInv(q: Queue, a: Action)
    requires Inv(q) && Enabled(q, a)
    ensures Inv(Next(q, a))
  {
    match a
    case StepPush => PushKeepsInv(q);
    case StepPop => PopKeepsInv(q);
    case StartPush(it) =>
    case StartPop =>
  }

  // ---- Runs ----

  predicate IsRun(q: Queue, actions: seq<Action>)
    requires |q.items| == q.cap > 0
    decreases |actions|
  {
    actions == []
    || (Enabled(q, actions[0]) && |Next(q, actions[0]).items| == q.cap && IsRun(Next(q, actions[0]), actions[1..]))
  }

  function Run(q: Queue, actions: seq<Action>): Queue
    requires |q.items| == q.cap > 0 && IsRun(q, actions)
    decreases |actions|
  {
    if actions == [] then q else Run(Next(q, actions[0]), actions[1..])
  }

  lemma {:induction false} RunKeepsInv(q: Queue, actions: seq<Action>)
    requires Inv(q) && IsRun(q, actions)
    ensures Inv(Run(q, actions))
    decreases |actions|
  {
    hide Inv, Next, Enabled;
    if actions != [] {
      InvShape(q);
      NextKeepsInv(q, actions[0]);
      RunKeepsInv(Next(q, actions[0]), actions[1..]);
    }
  }

  lemma InvShape(q: Queue)
    requires Inv(q)
    ensures |q.items| == q.cap > 0
  {}

  // ---- What the queue promises ----

  /** The items in the queue, oldest first. */
  function Contents(q: Queue): seq<Item>
    requires |q.popped| <= |q.pushed|
  {
    q.pushed[|q.popped|..]
  }

  predicate Publishes(q: Queue, a: Action) { a.StepPush? && q.producer.Counted? }

  predicate Takes(q: Queue, a: Action) { a.StepPop? && q.consumer.OutCounted? }

  /** What a step does to a first-in first-out queue, whose oldest item the consumer must have copied whole. */
  ghost predicate FifoStep(q: Queue, a: Action, n: Queue)
    requires |q.popped| <= |q.pushed| && |n.popped| <= |n.pushed|
  {
    if Publishes(q, a) then Contents(n) == Contents(q) + [q.producer.it]
    else if Takes(q, a) then
      && Contents(q) != [] && Contents(n) == Contents(q)[1..]
      && q.consumer.out == Holds(Contents(q)[0]) && n.popped == q.popped + [Holds(Contents(q)[0])]
    else Contents(n) == Contents(q)
  }

  /** A push is refused only when the queue is full at that moment, a pop exactly when it is empty. */
  ghost predicate RefusalsRight(q: Queue, a: Action, n: Queue)
    requires |q.popped| <= |q.pushed|
  {
    && (a.StepPush? && q.producer.HeadLoaded? ==> (n.producer.Away? <==> |Contents(q)| == q.cap))
    && (a.StepPop? && q.consumer.TailLoaded? ==> (n.consumer.Idle? <==> Contents(q) == []))
  }

  lemma StepRefinesFifo(q: Queue, a: Action, n: Queue)
    requires Inv(q) && Enabled(q, a) && n == Next(q, a) && |n.popped| <= |n.pushed|
    ensures FifoStep(q, a, n)
  {
    hide Slot, Total, Size, SizeOut, CellsOk, PoppedOk, Word32, GoodCapacity, BytesPushed, BytesPopped, ProducerOk;
    if Publishes(q, a) {
      assert n.pushed == q.pushed + [q.producer.it] && n.popped == q.popped;
    } else if Takes(q, a) {
      hide Next;
      assert q.consumer.out == Holds(q.pushed[|q.popped|]);
      assert n.pushed == q.pushed && n.popped == q.popped + [q.consumer.out];
    } else {
      assert n.pushed == q.pushed && n.popped == q.popped;
    }
  }

  lemma RefusalsAreRight(q: Queue, a: Action)
    requires Inv(q) && Enabled(q, a)
    ensures RefusalsRight(q, a, Next(q, a))
  {
    hide Slot, Total, Size, SizeOut, CellsOk, PoppedOk, Word32, GoodCapacity, BytesPushed, BytesPopped;
    CapacityBound(q.cap);
    WordDifference(|q.pushed|, |q.popped|);
  }

  /** Every step of every run from an empty queue is a step of a first-in first-out queue. */
  lemma RefinesFifo(cap: nat, actions: seq<Action>, a: Action)
    requires GoodCapacity(cap) && IsRun(Init(cap), actions) && Enabled(Run(Init(cap), actions), a)
    ensures var q := Run(Init(cap), actions);
      && Inv(q) && |Next(q, a).popped| <= |Next(q, a).pushed|
      && FifoStep(q, a, Next(q, a)) && RefusalsRight(q, a, Next(q, a))
  {
    InitInv(cap);
    hide Inv, Next, FifoStep, RefusalsRight, Enabled;
    RunKeepsInv(Init(cap), actions);
    var q := Run(Init(cap), actions);
    NextKeepsInv(q, a);
    StepRefinesFifo(q, a, Next(q, a));
    RefusalsAreRight(q, a);
  }

  /** The consumer copies a written cell that nobody is writing: it is the oldest queued item, at both ends of the
      copy. */
  lemma ConsumerReadsWhole(cap: nat, actions: seq<Action>)
    requires GoodCapacity(cap) && IsRun(Init(cap), actions)
    ensures var q := Run(Init(cap), actions);
      q.consumer.ItemFound? || q.consumer.Reading? ==>
        |q.items| == q.cap > 0 && |q.popped| < |q.pushed|
        && q.items[Slot(q.consumer.t, q.cap)] == Holds(q.pushed[|q.popped|])
  {
    InitInv(cap);
    RunKeepsInv(Init(cap), actions);
    var q := Run(Init(cap), actions);
    SlotOfWord(|q.popped|, q.cap);
    hide BytesPushed, BytesPopped, Word32;
  }

  /** The sizes of items; the prefix's total is part of the whole. */
  lemma {:induction false} TotalSplit(items: seq<Item>, n: nat)
    requires n <= |items|
    ensures Total(items) == Total(items[..n]) + Total(items[n..])
    decreases |items|
  {
    if n < |items| {
      var m := |items| - 1;
      TotalSplit(items[..m], n);
      assert items[..m][..n] == items[..n] && items[..m][n..] == items[n..][..m - n];
    } else {
      assert items[..n] == items && items[n..] == [];
    }
  }

  lemma BytesOrdered(q: Queue)
    requires Inv(q)
    ensures BytesPopped(q) <= BytesPushed(q)
    ensures q.producer.Away? && q.consumer.Idle? ==> BytesPushed(q) - BytesPopped(q) == Total(Contents(q))
  {
    hide Total, Size, CellsOk, PoppedOk, GoodCapacity, Word32;
    TotalSplit(q.pushed, |q.popped|);
    if q.consumer.OutCounted? {
      var it := q.pushed[|q.popped|];
      NoSize(it);
      TotalNext(q.pushed[..|q.popped|], it);
      assert q.pushed[..|q.popped| + 1] == q.pushed[..|q.popped|] + [it];
      TotalSplit(q.pushed, |q.popped| + 1);
    }
  }

  /** bytes_in never falls behind bytes_out, and with neither side in the middle of an operation their
      32-bit difference is the size of what waits (as long as that is below 2^32). */
  lemma BytesWaiting(cap: nat, actions: seq<Action>)
    requires GoodCapacity(cap) && IsRun(Init(cap), actions)
    ensures var q := Run(Init(cap), actions);
      && |q.popped| <= |q.pushed| && BytesPopped(q) <= BytesPushed(q)
      && q.bytesIn == Word32(BytesPushed(q)) && q.bytesOut == Word32(BytesPopped(q))
      && (q.producer.Away? && q.consumer.Idle? && Total(Contents(q)) < TWO_TO_32 ==>
            Word32(q.bytesIn - q.bytesOut) == Total(Contents(q)))
  {
    InitInv(cap);
    RunKeepsInv(Init(cap), actions);
    var q := Run(Init(cap), actions);
    BytesOrdered(q);
    hide BytesPushed, BytesPopped, CellsOk, PoppedOk, GoodCapacity, Word32, Total;
    WordDifference2(BytesPushed(q), BytesPopped(q));
  }

  lemma WordDifference2(a: nat, b: nat)
    requires b <= a
    ensures a - b < TWO_TO_32 ==> Word32(Word32(a) - Word32(b)) == a - b
  {}
}
