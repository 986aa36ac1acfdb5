/** The heap of ports/video/papp_syscalls.c: every block taken from the loader carries a header just before
    its aligned payload, and the headers are linked into a list, so that all of them can be handed back. */
module Heap {
  import opened Bytes
  import opened Division

  const HEADER := 32
  const SIZE_MAX := TWO_TO_32 - 1
  const HEAD_MAGIC := 0x5649_4446
  const NULL: nat := 0

  predicate PowerOfTwo(n: nat)
  {
    n == 1 || (n % 2 == 0 && n > 0 && PowerOfTwo(n / 2))
  }

  /** x & ~m, bit by bit. */
  function AndNot(x: nat, m: nat): nat
    decreases x
  {
    if x == 0 then 0 else AndNot(x / 2, m / 2) * 2 + if x % 2 == 1 && m % 2 == 0 then 1 else 0
  }

  /** Clearing the bits of m takes away m at most. */
  lemma {:induction false} AndNotBounds(x: nat, m: nat)
    ensures x - m <= AndNot(x, m) <= x
    decreases x
  {
    if x > 0 {
      AndNotBounds(x / 2, m / 2);
    }
  }

  lemma HalfRemainder(x: nat, half: nat)
    requires half > 0
    ensures x % (half * 2) == x / 2 % half * 2 + x % 2
  {
    var q, r := x / 2 / half, x / 2 % half;
    assert x / 2 == q * half + r;
    assert x == q * (half * 2) + (r * 2 + x % 2);
    RemainderIs(x, q, half * 2, r * 2 + x % 2);
  }

  lemma NoRemainder(x: nat, align: nat)
    requires align > 0
    ensures x - x % align >= 0 && (x - x % align) % align == 0
  {
    assert x - x % align == x / align * align + 0;
    RemainderIs(x - x % align, x / align, align, 0);
  }

  lemma MaskStep(x: nat, half: nat)
    requires half > 0
    ensures AndNot(x, half * 2 - 1) == AndNot(x / 2, half - 1) * 2
  {
    assert (half * 2 - 1) / 2 == half - 1 && (half * 2 - 1) % 2 == 1;
  }

  /** For a power of two the mask clears exactly the remainder. */
  lemma {:induction false} MaskRounds(x: nat, align: nat)
    requires PowerOfTwo(align)
    ensures AndNot(x, align - 1) == x - x % align
    decreases align
  {
    if align == 1 {
      AndNotBounds(x, 0);
    } else {
      var half := align / 2;
      assert align == half * 2;
      MaskRounds(x / 2, half);
      HalfRemainder(x, half);
      MaskStep(x, half);
      hide AndNot;
      assert x == x / 2 * 2 + x % 2;
    }
  }

  /** Where the payload goes in a raw block. */
  function PayloadAt(raw: nat, align: nat): nat
    requires align > 0
  {
    AndNot(raw + HEADER + align - 1, align - 1)
  }

  /** The header and the payload lie inside the raw block, whatever the loader returned, and the payload is
      aligned to any power of two. */
  lemma Inside(raw: nat, size: nat, align: nat)
    requires align > 0
    ensures var p := PayloadAt(raw, align);
      && raw <= p - HEADER && p + size <= raw + HEADER + size + align
      && (PowerOfTwo(align) ==> p % align == 0)
  {
    hide AndNot, PowerOfTwo;
    var x: nat := raw + HEADER + align - 1;
    AndNotBounds(x, align - 1);
    if PowerOfTwo(align) {
      MaskRounds(x, align);
      NoRemainder(x, align);
    }
  }

  /** block_t, with its payload's address and bytes. */
  class Block {
    var prev: Block?
    var next: Block?
    const raw: nat
    const total: nat
    const payload: nat
    const size: nat
    var magic: nat
    var data: seq<byte>

    constructor (raw: nat, total: nat, payload: nat, size: nat, next: Block?, data: seq<byte>)
      ensures this.raw == raw && this.total == total && this.payload == payload && this.size == size
      ensures prev == null && this.next == next && magic == HEAD_MAGIC && this.data == data
    {
      this.raw, this.total, this.payload, this.size := raw, total, payload, size;
      prev, this.next, magic, this.data := null, next, HEAD_MAGIC, data;
    }
  }

  /** A raw block of the loader's. */
  datatype Raw = Raw(at: nat, total: nat)

  predicate Apart(a: Raw, b: Raw) { a.at + a.total <= b.at || b.at + b.total <= a.at }

  /** Header and payload inside the raw block. */
  predicate WellPlaced(b: Block)
  {
    b.raw + HEADER <= b.payload && b.payload + b.size <= b.raw + b.total && b.total > 0
  }

  /** Every payload is as long as it was asked for. */
  predicate Sized(live: seq<Block>)
    reads live`data
  {
    forall b <- live :: |b.data| == b.size
  }

  predicate Aligned(b: Block, align: nat)
    requires align > 0
  {
    b.payload % align == 0
  }

  function RawOf(b: Block): Raw { Raw(b.raw, b.total) }

  ghost predicate Distinct(live: seq<Block>) { forall i, j | 0 <= i < j < |live| :: live[i] != live[j] }

  lemma DistinctMore(live: seq<Block>, b: Block)
    requires Distinct(live) && b !in live
    ensures Distinct([b] + live)
  {}

  /** A doubly linked list of these blocks, in this order. */
  ghost predicate Linked(first: Block?, live: seq<Block>)
    reads live`prev, live`next
  {
    && first == (if live == [] then null else live[0]) && Distinct(live)
    && (forall i | 0 <= i < |live| :: live[i].prev == Before(live, i) && live[i].next == After(live, i))
  }

  function Before(live: seq<Block>, i: int): Block?
    requires 0 <= i < |live|
  {
    if i == 0 then null else live[i - 1]
  }

  function After(live: seq<Block>, i: int): Block?
    requires 0 <= i < |live|
  {
    if i + 1 == |live| then null else live[i + 1]
  }

  /** The marked blocks are exactly those in the list. */
  ghost predicate Marked(live: seq<Block>, all: set<Block>)
    reads all`magic
  {
    (forall b <- live :: b in all) && forall b <- all :: b.magic == HEAD_MAGIC <==> b in live
  }

  /** Each block lies in a raw block of its own, and these are all that the loader has given out. */
  ghost predicate Placed(live: seq<Block>, held: set<Raw>)
  {
    && (forall b <- live :: RawOf(b) in held && WellPlaced(b))
    && (forall i, j | 0 <= i < j < |live| :: Apart(RawOf(live[i]), RawOf(live[j])))
    && (forall r <- held :: exists b <- live :: r == RawOf(b))
  }

  /** Each live block's header lies before the address that was handed out for it. */
  ghost predicate Addressed(live: seq<Block>, all: set<Block>, at: map<nat, Block>)
  {
    && (forall b <- live :: b.payload in at && at[b.payload] == b)
    && (forall p <- at :: p >= HEADER && at[p] in all && at[p].payload == p)
  }

  /** Blocks in raw blocks apart have their payloads, and so their headers, at different addresses. */
  lemma PayloadsDiffer(b: Block, c: Block)
    requires WellPlaced(b) && WellPlaced(c) && Apart(RawOf(b), RawOf(c))
    ensures b.payload != c.payload
  {}

  lemma AddressedMore(live: seq<Block>, all: set<Block>, at: map<nat, Block>, held: set<Raw>, b: Block)
    requires Addressed(live, all, at) && Placed(live, held) && WellPlaced(b) && forall r <- held :: Apart(r, RawOf(b))
    ensures Addressed([b] + live, all + {b}, at[b.payload := b])
  {
    forall c | c in live ensures c.payload != b.payload {
      PayloadsDiffer(c, b);
    }
    hide WellPlaced, Apart;
  }

  lemma AddressedNone(live: seq<Block>, all: set<Block>, at: map<nat, Block>)
    requires Addressed(live, all, at)
    ensures Addressed([], all, at)
  {}

  lemma AddressedLess(live: seq<Block>, all: set<Block>, at: map<nat, Block>, k: nat)
    requires Addressed(live, all, at) && k < |live|
    ensures Addressed(Without(live, k), all, at)
  {}

  lemma MarkedMore(live: seq<Block>, all: set<Block>, b: Block)
    requires Marked(live, all) && b !in all && b.magic == HEAD_MAGIC
    ensures Marked([b] + live, all + {b}) && b !in live
  {}

  lemma PlacedMore(live: seq<Block>, held: set<Raw>, b: Block)
    requires Placed(live, held) && WellPlaced(b) && forall r <- held :: Apart(r, RawOf(b))
    ensures Placed([b] + live, held + {RawOf(b)})
  {
    var more := [b] + live;
    forall r | r in held + {RawOf(b)} ensures exists c <- more :: r == RawOf(c) {
      if r in held {
        var c :| c in live && r == RawOf(c);
        assert c in more;
      } else {
        assert b in more;
      }
    }
  }

  function Without(live: seq<Block>, k: nat): seq<Block>
    requires k < |live|
  {
    live[..k] + live[k + 1..]
  }

  /** A block leaves the list and loses its mark. */
  lemma MarkedLess(live: seq<Block>, all: set<Block>, k: nat)
    requires Marked(live, all) && k < |live| && Distinct(live)
    ensures live[k] !in Without(live, k) && MarkedBut(Without(live, k), all, live[k])
  {
    forall c | c in all - {live[k]} ensures c in live <==> c in Without(live, k) {
      if c in live {
        var i :| 0 <= i < |live| && live[i] == c;
        WithoutHas(live, k, i);
      }
    }
  }

  ghost predicate MarkedBut(live: seq<Block>, all: set<Block>, b: Block)
    reads (all - {b})`magic
  {
    (forall c <- live :: c in all) && forall c <- all - {b} :: c.magic == HEAD_MAGIC <==> c in live
  }

  lemma MarkedAgain(live: seq<Block>, all: set<Block>, b: Block)
    requires MarkedBut(live, all, b) && b.magic != HEAD_MAGIC && b !in live
    ensures Marked(live, all)
  {}

  /** Every block of the shorter list is one of the longer, at another place. */
  lemma WithoutAt(live: seq<Block>, k: nat, i: nat)
    requires k < |live| && i < |live| - 1
    ensures |Without(live, k)| == |live| - 1 && Without(live, k)[i] == live[if i < k then i else i + 1]
  {}

  /** Where the i-th block of the shorter list was. */
  function Was(k: nat, i: int): int { if i < k then i else i + 1 }

  lemma NeighboursWithout(live: seq<Block>, k: nat, i: nat)
    requires k < |live| && i < |live| - 1
    ensures |Without(live, k)| == |live| - 1
    ensures Before(Without(live, k), i) == if i == k then Before(live, k) else Before(live, Was(k, i))
    ensures After(Without(live, k), i) == if i + 1 == k then After(live, k) else After(live, Was(k, i))
  {
    if i > 0 { WithoutAt(live, k, i - 1); }
    if i + 1 < |live| - 1 { WithoutAt(live, k, i + 1); }
  }

  /** Block k's neighbours point past it. */
  ghost predicate Bypassed(live: seq<Block>, k: nat)
    requires k < |live|
    reads live`prev, live`next
  {
    && Distinct(live)
    && (forall i | 0 <= i < |live| && i != k ::
          && live[i].prev == (if i == k + 1 then Before(live, k) else Before(live, i))
          && live[i].next == (if i + 1 == k then After(live, k) else After(live, i)))
  }

  lemma BypassedIsLinked(live: seq<Block>, k: nat)
    requires k < |live| && Bypassed(live, k)
    ensures Linked(if k > 0 then live[0] else After(live, 0), Without(live, k))
  {
    var less := Without(live, k);
    forall i, j | 0 <= i < j < |less| ensures less[i] != less[j] {
      WithoutAt(live, k, i);
      WithoutAt(live, k, j);
    }
    forall i | 0 <= i < |less| ensures less[i].prev == Before(less, i) && less[i].next == After(less, i) {
      WithoutAt(live, k, i);
      NeighboursWithout(live, k, i);
    }
    hide Before, After;
  }

  lemma Neighbours(live: seq<Block>, k: nat)
    requires k < |live|
    ensures Before(live, k) == if k == 0 then null else live[k - 1]
    ensures After(live, k) == if k + 1 == |live| then null else live[k + 1]
  {}

  lemma SizedLess(live: seq<Block>, k: nat)
    requires Sized(live) && k < |live|
    ensures Sized(Without(live, k))
  {}

  lemma LinkedFacts(first: Block?, live: seq<Block>, k: nat)
    requires Linked(first, live) && k < |live|
    ensures Distinct(live) && live[k].next == After(live, k)
  {}

  lemma RestOf(live: seq<Block>, k: nat)
    requires k < |live|
    ensures Without(live[k..], 0) == live[k + 1..] && live[k..][0] == live[k]
    ensures Distinct(live) ==> Distinct(live[k..])
  {
    forall i, j | Distinct(live) && 0 <= i < j < |live[k..]| ensures live[k..][i] != live[k..][j] {
      assert live[k + i] != live[k + j];
    }
  }

  lemma StaysIn(live: seq<Block>, k: nat, b: Block)
    requires k < |live| && b in live && live[k] != b
    ensures b in Without(live, k)
  {
    var i :| 0 <= i < |live| && live[i] == b;
    WithoutHas(live, k, i);
  }

  lemma SmallPowers()
    ensures PowerOfTwo(16)
  {
    assert PowerOfTwo(1) && PowerOfTwo(2) && PowerOfTwo(4) && PowerOfTwo(8);
  }

  lemma WithoutHas(live: seq<Block>, k: nat, i: nat)
    requires k < |live| && i < |live| && i != k
    ensures live[i] in Without(live, k)
  {
    assert Without(live, k)[if i < k then i else i - 1] == live[i];
  }

  lemma PlacedLess(live: seq<Block>, held: set<Raw>, k: nat)
    requires Placed(live, held) && k < |live|
    ensures RawOf(live[k]) in held && Placed(Without(live, k), held - {RawOf(live[k])})
  {
    var less, gone := Without(live, k), RawOf(live[k]);
    assert live[k] in live;
    forall b | b in less ensures RawOf(b) in held - {gone} && WellPlaced(b) {
      var i :| 0 <= i < |less| && less[i] == b;
      WithoutAt(live, k, i);
      ApartDiffer(live, held, k, if i < k then i else i + 1);
    }
    forall r | r in held - {gone} ensures exists c <- less :: r == RawOf(c) {
      var c :| c in live && r == RawOf(c);
      var i :| 0 <= i < |live| && live[i] == c;
      WithoutHas(live, k, i);
    }
    forall i, j | 0 <= i < j < |less| ensures Apart(RawOf(less[i]), RawOf(less[j])) {
      WithoutAt(live, k, i);
      WithoutAt(live, k, j);
    }
    hide Without, Apart;
  }

  lemma ApartDiffer(live: seq<Block>, held: set<Raw>, k: nat, i: nat)
    requires Placed(live, held) && k < |live| && i < |live| && i != k
    ensures RawOf(live[i]) in held && RawOf(live[i]) != RawOf(live[k]) && WellPlaced(live[i])
  {
    assert live[i] in live && live[k] in live;
    if i < k { assert Apart(RawOf(live[i]), RawOf(live[k])); } else { assert Apart(RawOf(live[k]), RawOf(live[i])); }
  }

  /** The dead addresses whose headers are not in a raw block given out. */
  function Still(intact: set<nat>, r: Raw): set<nat>
  {
    set p <- intact | p >= HEADER && Apart(r, Raw(p - HEADER, HEADER))
  }

  ghost function Payloads(live: seq<Block>): set<nat>
  {
    set b <- live :: b.payload
  }

  lemma PayloadsNone()
    ensures Payloads([]) == {}
  {}

  lemma PayloadsMore(live: seq<Block>, k: nat)
    requires k < |live|
    ensures Payloads(live[..k + 1]) == Payloads(live[..k]) + {live[k].payload}
  {
    assert live[..k + 1] == live[..k] + [live[k]];
  }

  class Heap {
    var blocks: Block?
    var badFrees: nat
    /** The raw blocks the loader has given out. */
    var held: set<Raw>
    /** Memory: the header last written before each address that was ever handed out. */
    var at: map<nat, Block>
    /** Dead addresses before which the header is still as it was left: the loader has not given out its bytes
        again. */
    var intact: set<nat>
    /** The list, in order, and every block there ever was. */
    ghost var live: seq<Block>
    ghost var all: set<Block>
    /** Other bytes have been taken for a header. */
    ghost var wild: bool

    ghost predicate Valid()
      reads this, all, live
    {
      && !wild && Linked(blocks, live) && Marked(live, all) && Placed(live, held) && Sized(live)
      && Addressed(live, all, at)
    }

    constructor ()
      ensures Valid() && live == [] && held == {} && all == {} && at == map[] && intact == {}
    {
      blocks, badFrees, live, all, held, at, intact, wild := null, 0, [], {}, {}, map[], {}, false;
    }

    /** A block lives at this address. */
    predicate Lives(p: nat)
      reads this, at.Values
    {
      p in at && at[p].magic == HEAD_MAGIC
    }

    /** None does, and any bytes may be where its header would be: none ever lived here, or the heap has got its
        memory again for other blocks. */
    predicate Unknown(p: nat)
      reads this, at.Values
    {
      p !in at || (!Lives(p) && p !in intact)
    }

    /** The magic number before an address. */
    method LoadMagic(p: nat) returns (m: nat)
      ensures !Unknown(p) ==> m == at[p].magic
    {
      m := *;
      if !Unknown(p) {
        m := at[p].magic;
      }
    }

    /** The loader's mem_alloc: a raw block apart from all it has given out, or none. */
    method RawAlloc(total: nat) returns (ok: bool, raw: nat, data: seq<byte>)
      requires total > 0
      modifies `held, `intact
      ensures intact == if ok then Still(old(intact), Raw(raw, total)) else old(intact)
      ensures ok ==> held == old(held) + {Raw(raw, total)} && forall r <- old(held) :: Apart(r, Raw(raw, total))
      ensures !ok ==> held == old(held)
      ensures ok ==> |data| == total
    {
      ok, raw, data := *, *, *;
      ok := ok && |data| == total && forall r <- held :: Apart(r, Raw(raw, total));
      if ok {
        held, intact := held + {Raw(raw, total)}, Still(intact, Raw(raw, total));
      }
    }

    /** The loader's mem_free: of a raw block that it has given out, and not got back yet. */
    method RawFree(b: Block)
      requires RawOf(b) in held
      modifies `held, `intact
      ensures held == old(held) - {RawOf(b)} && intact == old(intact) + {b.payload}
    {
      held, intact := held - {RawOf(b)}, intact + {b.payload};
    }

    /** The list gets a new first block. */
    method PushFront(b: Block)
      requires Linked(blocks, live) && b !in live && b.prev == null && b.next == blocks
      modifies `blocks, `live, live`prev
      ensures Linked(blocks, live) && live == [b] + old(live)
    {
      hide Distinct;
      DistinctMore(live, b);
      if blocks != null {
        blocks.prev := b;
      }
      blocks := b;
      live := [b] + live;
      assert forall i | 0 < i < |live| :: live[i] == old(live)[i - 1];
    }

    /** A block in a raw block of its own, with a payload aligned as asked. */
    method NewBlock(size: nat, align: nat) returns (b: Block?)
      requires PowerOfTwo(align)
      modifies `held, `intact
      ensures intact == if b == null then old(intact) else Still(old(intact), RawOf(b))
      ensures b == null ==> held == old(held)
      ensures b != null ==> fresh(b) && b.prev == null && b.next == blocks && b.magic == HEAD_MAGIC
      ensures b != null ==> b.size == size && |b.data| == size && Aligned(b, align) && WellPlaced(b)
      ensures b != null ==> held == old(held) + {RawOf(b)} && forall r <- old(held) :: Apart(r, RawOf(b))
    {
      var ok, raw, data := RawAlloc(HEADER + size + align);
      if !ok {
        return null;
      }
      Inside(raw, size, align);
      b := new Block(raw, HEADER + size + align, PayloadAt(raw, align), size, blocks, data[..size]);
      hide PayloadAt, PowerOfTwo;
    }

    /** A new block at the front of the list. */
    method Register(b: Block, ghost before: set<Raw>)
      requires Linked(blocks, live) && Marked(live, all) && Placed(live, before) && Sized([b] + live) && !wild
      requires b !in all && b.prev == null && b.next == blocks && b.magic == HEAD_MAGIC && WellPlaced(b)
      requires held == before + {RawOf(b)} && (forall r <- before :: Apart(r, RawOf(b))) && Addressed(live, all, at)
      modifies `blocks, `live, `all, `at, live`prev
      ensures Valid() && live == [b] + old(live) && all == old(all) + {b} && at == old(at)[b.payload := b]
    {
      hide Linked, Marked, Placed, WellPlaced, Apart, Addressed;
      MarkedMore(live, all, b);
      PlacedMore(live, before, b);
      AddressedMore(live, all, at, before, b);
      PushFront(b);
      all := all + {b};
      at := at[b.payload := b];
    }

    /** A new block at the front of the list, or none. */
    method Take(size: nat, align: nat) returns (b: Block?)
      requires Valid() && PowerOfTwo(align) && align <= SIZE_MAX
      modifies this, live`prev
      ensures Valid() && badFrees == old(badFrees)
      ensures intact == if b == null then old(intact) else Still(old(intact), RawOf(b))
      ensures b == null ==> live == old(live) && held == old(held) && all == old(all) && at == old(at)
      ensures b != null ==> fresh(b) && at == old(at)[b.payload := b] && b.payload != NULL && b.magic == HEAD_MAGIC
      ensures b != null ==> live == [b] + old(live) && all == old(all) + {b} && held == old(held) + {RawOf(b)}
      ensures b != null ==> b.size == size && |b.data| == size && Aligned(b, if align < 16 then 16 else align)
    {
      SmallPowers();
      hide Linked, Marked, Placed, PowerOfTwo, Aligned, Apart, Addressed;
      var a := if align < 16 then 16 else align;
      if size + HEADER + a > SIZE_MAX {
        return null;
      }
      b := NewBlock(size, a);
      if b != null {
        Register(b, old(held));
      }
    }

    /** block_alloc: the address of a new block's payload, or null. */
    method Alloc(size: nat, align: nat) returns (p: nat)
      requires Valid() && PowerOfTwo(align) && align <= SIZE_MAX
      modifies this, live`prev
      ensures Valid() && badFrees == old(badFrees)
      ensures p == NULL ==> live == old(live) && held == old(held) && all == old(all) && at == old(at)
      ensures p != NULL ==> Lives(p) && fresh(at[p]) && at == old(at)[p := at[p]] && at[p].payload == p
      ensures p != NULL ==> live == [at[p]] + old(live) && all == old(all) + {at[p]}
      ensures p == NULL ==> intact == old(intact)
      ensures p != NULL ==> held == old(held) + {RawOf(at[p])} && intact == Still(old(intact), RawOf(at[p]))
      ensures p != NULL ==> at[p].size == size && Aligned(at[p], if align < 16 then 16 else align)
    {
      hide Valid, PowerOfTwo, Aligned;
      var b := Take(size, align);
      p := if b == null then NULL else b.payload;
    }

    /** The list loses its block k. */
    method Unlink(b: Block, ghost k: nat)
      requires Linked(blocks, live) && k < |live| && live[k] == b
      modifies `blocks, `live, live`prev, live`next
      ensures Linked(blocks, live) && live == Without(old(live), k)
    {
      hide Without, Before, After;
      Neighbours(live, k);
      if b.prev != null {
        b.prev.next := b.next;
      } else {
        blocks := b.next;
      }
      if b.next != null {
        b.next.prev := b.prev;
      }
      assert Bypassed(live, k);
      hide Linked, Bypassed;
      BypassedIsLinked(live, k);
      Neighbours(live, 0);
      live := Without(live, k);
    }

    /** What an address stands for. */
    lemma LiveAt(p: nat)
      requires Valid() && p in at
      ensures (Lives(p) <==> at[p] in live) && at[p] in all && at[p].payload == p >= HEADER
      ensures Lives(p) ==> |at[p].data| == at[p].size
    {}

    lemma LiveHere(b: Block)
      requires Valid() && b in live
      ensures b.payload in at && at[b.payload] == b && b in all && b.magic == HEAD_MAGIC && |b.data| == b.size
    {}

    /** block_free: of null; of the block that lives at this address, if one does, be it another than at first; or
        of an address where none does. */
    method Free(p: nat)
      requires Valid()
      modifies this, live`prev, live`next, live`magic
      ensures p == NULL || old(!Unknown(p)) ==> !wild
      ensures !wild ==> Valid() && all == old(all) && at == old(at)
      ensures !wild && p != NULL && old(Lives(p)) ==>
        Removed(old(live), live, at[p]) && at[p] !in live && held == old(held) - {RawOf(at[p])}
      ensures !wild && (p == NULL || !old(Lives(p))) ==> live == old(live) && held == old(held)
      ensures !wild ==> intact == old(intact) + if p != NULL && old(Lives(p)) then {p} else {}
      ensures !wild && p != NULL && old(Lives(p)) ==> !Lives(p) && !Unknown(p)
      ensures !wild ==> badFrees == old(badFrees) + if p != NULL && !old(Lives(p)) then 1 else 0
    {
      hide Linked, Placed, Marked, Addressed, Removed;
      if p == NULL {
        return;
      }
      var m := LoadMagic(p);
      if m != HEAD_MAGIC {
        badFrees := badFrees + 1;
        return;
      }
      if Unknown(p) {
        wild := true;
        blocks := *;
        return;
      }
      LiveAt(p);
      Drop(at[p]);
    }

    method Drop(b: Block)
      requires Valid() && b in all && b in live
      modifies this, live`prev, live`next, live`magic
      ensures Valid() && all == old(all) && badFrees == old(badFrees) && at == old(at)
      ensures b !in live && held == old(held) - {RawOf(b)} && Removed(old(live), live, b)
      ensures b.magic != HEAD_MAGIC && intact == old(intact) + {b.payload}
    {
      hide Linked, Marked, Placed, MarkedBut, Without, Distinct, Addressed;
      ghost var k: nat :| k < |live| && live[k] == b;
      LinkedFacts(blocks, live, k);
      MarkedLess(live, all, k);
      SizedLess(live, k);
      AddressedLess(live, all, at, k);
      b.magic := 0;
      MarkedAgain(Without(live, k), all, b);
      Unlink(b, k);
      PlacedLess(old(live), held, k);
      RawFree(b);
      assert RemovedAt(old(live), live, k, b);
    }

    /** A bigger block with the bytes of another, aligned like any. */
    ghost predicate Moved(b: Block, r: Block, size: nat, bytes: seq<byte>)
      reads r
    {
      && r.size == size && Aligned(r, 16)
      && |bytes| == b.size <= size && |r.data| == size && r.data[..b.size] == bytes
    }

    /** block_realloc: the block that lives at this address stays if it is big enough, or its bytes move to a new
        one; where none lives nothing happens. */
    method Realloc(p: nat, size: nat) returns (r: nat)
      requires Valid()
      modifies this, live`prev, live`next, live`magic
      ensures p == NULL || old(!Unknown(p)) ==> !wild
      ensures !wild ==> Valid() && (r != NULL ==> Lives(r))
      ensures !wild ==> at == if r == NULL || (p != NULL && r == p) then old(at) else old(at)[r := at[r]]
      ensures !wild ==>
        && (r != NULL ==> r in at)
        && intact == (if r == NULL || r == p then old(intact) else Still(old(intact), RawOf(at[r])))
            + if p != NULL && old(Lives(p)) && r != p && (r != NULL || size == 0) then {p} else {}
      ensures !wild ==> badFrees == old(badFrees) + if p != NULL && size == 0 && !old(Lives(p)) then 1 else 0
      ensures !wild && p == NULL && r == NULL ==> live == old(live) && held == old(held)
      ensures !wild && p == NULL && r != NULL ==>
        fresh(at[r]) && live == [at[r]] + old(live) && at[r].size == size && Aligned(at[r], 16)
      ensures !wild && p != NULL && !old(Lives(p)) ==> r == NULL && live == old(live) && held == old(held)
      ensures !wild && p != NULL && old(Lives(p)) && 0 < size <= old(at[p].size) ==>
        r == p && live == old(live) && held == old(held)
      ensures !wild && p != NULL && old(Lives(p)) && size > old(at[p].size) && r == NULL ==>
        live == old(live) && held == old(held)
      ensures !wild && p != NULL && old(Lives(p)) && size > old(at[p].size) && r != NULL ==>
        Grown(p, old(at[p]), r, size, old(at[p].data), old(live), old(held)) && fresh(at[r])
      ensures !wild && p != NULL && old(Lives(p)) && size == 0 ==>
        r == NULL && Removed(old(live), live, at[p]) && at[p] !in live && held == old(held) - {RawOf(at[p])}
    {
      hide Linked, Placed, PowerOfTwo, Removed, Replaced, Marked, Addressed;
      SmallPowers();
      if p == NULL {
        r := Alloc(size, 16);
        return;
      }
      if size == 0 {
        Free(p);
        return NULL;
      }
      var m := LoadMagic(p);
      if m != HEAD_MAGIC {
        return NULL;
      }
      if Unknown(p) {
        wild := true;
        blocks := *;
        return NULL;
      }
      LiveAt(p);
      if size <= at[p].size {
        return p;
      }
      var c := Grow(at[p], size);
      r := if c == null then NULL else c.payload;
    }

    /** The block b at address p has given way to a bigger one at address r, and the others are as they were. */
    ghost predicate Grown(p: nat, b: Block, r: nat, size: nat, bytes: seq<byte>, before: seq<Block>, had: set<Raw>)
      reads this, at.Values
    {
      && r in at && r != p && at[r].payload == r && Moved(b, at[r], size, bytes)
      && b !in live && Replaced(before, live, at[r], b) && held == had + {RawOf(at[r])} - {RawOf(b)}
    }

    /** A bigger block in this one's place, if there is one. */
    method Grow(b: Block, size: nat) returns (c: Block?)
      requires Valid() && b in live && size > b.size
      modifies this, live`prev, live`next, live`magic
      ensures Valid() && badFrees == old(badFrees)
      ensures c == null ==> live == old(live) && held == old(held) && all == old(all) && at == old(at)
      ensures c != null ==> fresh(c) && c.magic == HEAD_MAGIC && c.payload != NULL && c.payload != b.payload
      ensures c != null ==> at == old(at)[c.payload := c] && all == old(all) + {c}
      ensures c != null ==> Moved(b, c, size, old(b.data)) && b !in live && Replaced(old(live), live, c, b)
      ensures c != null ==> held == old(held) + {RawOf(c)} - {RawOf(b)}
      ensures intact == if c == null then old(intact) else Still(old(intact), RawOf(c)) + {b.payload}
    {
      hide Valid, PowerOfTwo, Removed;
      SmallPowers();
      LiveHere(b);
      c := Take(size, 16);
      if c == null {
        return;
      }
      LiveHere(b);
      LiveHere(c);
      Replace(b, c, old(live));
      LiveHere(c);
    }

    /** memcpy to the new block and block_free of the old one. */
    method Replace(b: Block, c: Block, ghost was: seq<Block>)
      requires Valid() && live == [c] + was && b in was && c != b && b.size <= c.size
      modifies this, was`prev, was`next, was`magic, c
      ensures Valid() && all == old(all) && badFrees == old(badFrees) && at == old(at) && c in live
      ensures b !in live && held == old(held) - {RawOf(b)} && Removed(old(live), live, b)
      ensures intact == old(intact) + {b.payload}
      ensures |c.data| == c.size && |old(b.data)| == b.size && c.data[..b.size] == old(b.data)
    {
      hide Linked, Marked, Placed, Without, Addressed;
      assert b in live && c in live;
      LiveHere(b);
      LiveHere(c);
      c.data := b.data + c.data[b.size..];
      Drop(b);
      ghost var k: nat :| RemovedAt(old(live), live, k, b);
      StaysIn(old(live), k, c);
    }

    /** papp_free_all_memory: every raw block goes back, each once, in the list's order. */
    method FreeAll() returns (ghost back: seq<Raw>)
      requires Valid()
      modifies this, live`magic
      ensures Valid() && live == [] && held == {}
      ensures intact == old(intact) + Payloads(old(live))
      ensures |back| == |old(live)| && forall i | 0 <= i < |back| :: back[i] == RawOf(old(live)[i])
      ensures forall r :: r in back <==> r in old(held)
      ensures forall i, j | 0 <= i < j < |back| :: back[i] != back[j]
    {
      hide Linked, Marked, Placed, MarkedBut, Without, Distinct, Sized, Addressed, Payloads;
      PayloadsNone();
      ghost var was, first, k: nat := live, blocks, 0;
      LinkedBegins(blocks, live);
      AddressedNone(live, all, at);
      back := [];
      assert was[0..] == was;
      while blocks != null
        invariant k <= |was| && blocks == (if k == |was| then null else was[k]) && live == was
        invariant all == old(all) && at == old(at) && !wild
        invariant intact == old(intact) + Payloads(was[..k])
        invariant Linked(first, was) && Placed(was[k..], held) && Marked(was[k..], all)
        invariant |back| == k && forall i | 0 <= i < k :: back[i] == RawOf(was[i])
        decreases |was| - k
      {
        var b := blocks;
        LinkedFacts(first, was, k);
        RestOf(was, k);
        MarkedLess(was[k..], all, 0);
        PlacedLess(was[k..], held, 0);
        blocks := b.next;
        b.magic := 0;
        MarkedAgain(was[k + 1..], all, b);
        RawFree(b);
        back := back + [RawOf(b)];
        PayloadsMore(was, k);
        k := k + 1;
      }
      assert was[k..] == [] && was[..k] == was;
      live := [];
      NoneLeft(all, held);
      EachOnce(was, old(held), back);
    }
  }

  lemma LinkedBegins(first: Block?, live: seq<Block>)
    requires Linked(first, live)
    ensures first == if live == [] then null else live[0]
  {}

  lemma NoneLeft(all: set<Block>, held: set<Raw>)
    requires Marked([], all) && Placed([], held)
    ensures Linked(null, []) && Sized([]) && held == {}
  {}

  lemma EachOnce(live: seq<Block>, held: set<Raw>, back: seq<Raw>)
    requires Placed(live, held) && |back| == |live| && forall i | 0 <= i < |back| :: back[i] == RawOf(live[i])
    ensures (forall r :: r in back <==> r in held) && forall i, j | 0 <= i < j < |back| :: back[i] != back[j]
  {
    forall r | r in held ensures r in back {
      var b :| b in live && r == RawOf(b);
      var i :| 0 <= i < |live| && live[i] == b;
      assert back[i] == r;
    }
    forall r | r in back ensures r in held {
      var i :| 0 <= i < |back| && back[i] == r;
      assert live[i] in live;
    }
    forall i, j | 0 <= i < j < |back| ensures back[i] != back[j] { ApartDiffer(live, held, j, i); }
  }

  predicate RemovedAt(before: seq<Block>, after: seq<Block>, k: nat, b: Block)
  {
    k < |before| && before[k] == b && after == Without(before, k)
  }

  /** `after` is `before` without b. */
  ghost predicate Removed(before: seq<Block>, after: seq<Block>, b: Block)
  {
    exists k: nat :: RemovedAt(before, after, k, b)
  }

  /** `after` is `before` with r in front and without b. */
  ghost predicate Replaced(before: seq<Block>, after: seq<Block>, r: Block, b: Block)
  {
    Removed([r] + before, after, b)
  }

  /** No two live blocks overlap, header or payload. */
  lemma NoOverlap(live: seq<Block>, held: set<Raw>, i: nat, j: nat)
    requires Placed(live, held) && i < |live| && j < |live| && i != j
    ensures live[i].payload + live[i].size <= live[j].payload - HEADER
      || live[j].payload + live[j].size <= live[i].payload - HEADER
  {
    assert live[i] in live && live[j] in live;
    if i < j {
      assert Apart(RawOf(live[i]), RawOf(live[j]));
    } else {
      assert Apart(RawOf(live[j]), RawOf(live[i]));
    }
  }
}
