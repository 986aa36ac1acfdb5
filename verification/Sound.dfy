/** A voice of ports/redalert/papp_sound.cpp: the game queues chunks of sound, and the mixer plays them
    resampled, one source frame for every output frame, at a position counted in 1/65536 of a frame.

    `log` records every chunk queued since the voice was last stopped, `mixed` the frames mixed since. */
module Sound {
  import opened Bytes
  import opened Wrappers

  const QUEUE_LEN := 3
  const CHUNK_MAX := 8192 + 128

  /** A queued chunk in its format. */
  datatype Chunk = Chunk(data: seq<byte>, bits: nat, channels: nat, rate: nat)
  {
    predicate Valid() { |data| <= CHUNK_MAX && (bits == 8 || bits == 16) && (channels == 1 || channels == 2) }

    function FrameBytes(): nat { bits / 8 * channels }

    /** Whole frames only. */
    function Count(): (n: nat)
      requires Valid()
      ensures n <= CHUNK_MAX && n * FrameBytes() <= |data|
    {
      |data| / FrameBytes()
    }
  }

  function Signed16(low: byte, high: byte): int
  {
    var v := high * 256 + low;
    if v < 0x8000 then v else v - 0x10000
  }

  /** sample_at */
  function Sample(c: Chunk, frame: nat, channel: nat): (v: int)
    requires c.Valid() && frame < c.Count() && channel < 2
    ensures -0x8000 <= v < 0x8000
  {
    var index := frame * c.channels + (if c.channels > 1 then channel else 0);
    if c.bits == 16 then Signed16(c.data[2 * index], c.data[2 * index + 1])
    else
      var b: int := c.data[index];
      (b - 128) * 256
  }

  datatype Frame = Frame(left: int, right: int)

  function Frames(c: Chunk): seq<Frame>
    requires c.Valid()
  {
    seq(c.Count(), i requires 0 <= i < c.Count() => Frame(Sample(c, i, 0), Sample(c, i, 1)))
  }

  predicate AllValid(log: seq<Chunk>) { forall c <- log :: c.Valid() }

  /** The sound that was queued, format changes and all. */
  function Fed(log: seq<Chunk>): seq<Frame>
    requires AllValid(log)
  {
    if log == [] then [] else Fed(log[..|log| - 1]) + Frames(log[|log| - 1])
  }

  /** How far a chunk's rate moves the position per output frame. */
  function Step(rate: nat, outRate: nat): (s: nat)
    requires outRate > 0
    ensures s < TWO_TO_32
  {
    Word32(rate * 65536) / outRate
  }

  /** What a sample adds to the mix at a volume: shifted right by 16. */
  function Level(sample: int, volume: nat): int { sample * volume / 65536 }

  /** The product that the code shifts stays an int. */
  lemma LevelFits(c: Chunk, frame: nat, channel: nat, volume: nat)
    requires c.Valid() && frame < c.Count() && channel < 2 && volume <= 65536
    ensures -0x8000_0000 <= Sample(c, frame, channel) * volume <= 0x7fff_ffff
    ensures -0x8000 <= Level(Sample(c, frame, channel), volume) <= 0x7fff
  {
    hide Sample;
    ProductFits(Sample(c, frame, channel), volume);
  }

  lemma ProductFits(v: int, volume: nat)
    requires -0x8000 <= v < 0x8000 && volume <= 65536
    ensures -0x8000_0000 <= v * volume <= 0x7fff_ffff
  {
    if v >= 0 { Larger(v, volume); } else { Larger(-v, volume); assert v * volume == -(-v * volume); }
  }

  lemma {:induction false} Larger(v: nat, volume: nat)
    requires volume <= 65536
    ensures 0 <= v * volume <= v * 65536
    decreases v
  {
    if v > 0 {
      Larger(v - 1, volume);
      assert v * volume == (v - 1) * volume + volume;
    }
  }

  // ---- Positions ----

  lemma {:induction false} FedPrefix(log: seq<Chunk>, k: nat)
    requires AllValid(log) && k <= |log|
    ensures AllValid(log[..k]) && Fed(log[..k]) <= Fed(log)
    decreases |log|
  {
    if k == |log| {
      assert log[..k] == log;
    } else {
      assert log[..|log| - 1][..k] == log[..k];
      assert AllValid(log[..|log| - 1]);
      FedPrefix(log[..|log| - 1], k);
    }
  }

  /** A chunk's frames, where the chunks before it end. */
  lemma FedAt(log: seq<Chunk>, k: nat, frame: nat)
    requires AllValid(log) && k < |log| && log[k] in log && frame < log[k].Count()
    ensures AllValid(log[..k]) && |Fed(log[..k])| + frame < |Fed(log)|
    ensures Fed(log)[|Fed(log[..k])| + frame] == Frame(Sample(log[k], frame, 0), Sample(log[k], frame, 1))
  {
    FedPrefix(log, k);
    FedPrefix(log, k + 1);
    assert log[..k + 1][..k] == log[..k];
    assert Fed(log[..k + 1]) == Fed(log[..k]) + Frames(log[k]);
    assert Fed(log[..k + 1])[|Fed(log[..k])| + frame] == Frames(log[k])[frame];
    hide Sample;
  }

  lemma FedNext(log: seq<Chunk>, k: nat)
    requires AllValid(log) && k < |log|
    ensures AllValid(log[..k]) && AllValid(log[..k + 1]) && log[k] in log
    ensures |Fed(log[..k + 1])| == |Fed(log[..k])| + log[k].Count()
  {
    assert log[..k + 1][..k] == log[..k];
  }

  /** The source frame of output frame k. */
  function Source(k: nat, step: nat): nat { k * step / 65536 }

  /** The position is that of output frame k: `done` frames are behind. */
  predicate At(pos: nat, done: nat, k: nat, step: nat) { pos + 65536 * done == k * step }

  lemma AtNext(pos: nat, done: nat, k: nat, step: nat)
    requires At(pos, done, k, step)
    ensures At(pos + step, done, k + 1, step)
  {
    assert (k + 1) * step == k * step + step;
  }

  // ---- The ring's slots ----

  lemma SlotsDiffer(i: nat, tail: nat)
    requires i < tail < i + QUEUE_LEN
    ensures i % QUEUE_LEN != tail % QUEUE_LEN
  {}

  /** The counters are 32 bits wide, and 3 does not divide 2^32: with counters that wrapped, the next free slot
      would be a queued one's exactly when the wrap lies between them and they are neighbours. */
  lemma WrappedSlots(i: nat, tail: nat)
    requires i < tail < i + QUEUE_LEN
    ensures Word32(i) % QUEUE_LEN == Word32(tail) % QUEUE_LEN
      <==> i / TWO_TO_32 != tail / TWO_TO_32 && tail == i + 1
  {}

  /** So it is with the chunk just before the wrap: the next one is written over it while it waits. */
  lemma WrapOverwrites(slots: seq<Chunk>, waiting: Chunk, c: Chunk)
    requires |slots| == QUEUE_LEN && slots[Word32(TWO_TO_32 - 1) % QUEUE_LEN] == waiting != c
    ensures slots[Word32(TWO_TO_32) % QUEUE_LEN := c][Word32(TWO_TO_32 - 1) % QUEUE_LEN] == c
  {
    WrappedSlots(TWO_TO_32 - 1, TWO_TO_32);
  }

  // ---- The voice ----

  /** The queued chunks are the last ones of the log, each in its slot. */
  predicate Queued(slots: seq<Chunk>, head: nat, tail: nat, base: nat, log: seq<Chunk>)
  {
    && |slots| == QUEUE_LEN && base <= head <= tail <= head + QUEUE_LEN && tail == base + |log| && AllValid(log)
    && forall n: nat | head <= n < tail :: slots[n % QUEUE_LEN] == log[n - base]
  }

  /** All chunks since the last stop move the position alike. */
  predicate Even(log: seq<Chunk>, outRate: nat, step: nat)
  {
    outRate > 0 && forall c <- log :: Step(c.rate, outRate) == step
  }

  /** The frames of the chunks that are no longer queued. */
  function Behind(log: seq<Chunk>, k: nat): nat
    requires AllValid(log) && k <= |log|
  {
    assert AllValid(log[..k]);
    |Fed(log[..k])|
  }

  /** The position is that of the next output frame, whatever the chunks' common step. */
  ghost predicate Placed(pos: nat, log: seq<Chunk>, k: nat, mixed: nat, outRate: nat)
  {
    AllValid(log) && k <= |log| && forall step: nat | Even(log, outRate, step) :: At(pos, Behind(log, k), mixed, step)
  }

  /** The game writes only the slot after the queued ones, and only while there is one. */
  predicate Writing(slots: seq<Chunk>, head: nat, tail: nat, room: bool, filled: Option<Chunk>)
  {
    && |slots| == QUEUE_LEN && head <= tail && (room ==> tail - head < QUEUE_LEN)
    && (filled.Some? ==> room && filled.value.Valid() && slots[tail % QUEUE_LEN] == filled.value)
  }

  lemma FillKeeps(slots: seq<Chunk>, head: nat, tail: nat, base: nat, log: seq<Chunk>, c: Chunk)
    requires Queued(slots, head, tail, base, log) && tail - head < QUEUE_LEN
    ensures Queued(slots[tail % QUEUE_LEN := c], head, tail, base, log)
  {
    forall n: nat | head <= n < tail ensures n % QUEUE_LEN != tail % QUEUE_LEN { SlotsDiffer(n, tail); }
  }

  lemma PublishKeeps(slots: seq<Chunk>, head: nat, tail: nat, base: nat, log: seq<Chunk>, c: Chunk)
    requires Queued(slots, head, tail, base, log) && Writing(slots, head, tail, true, Some(c))
    ensures Queued(slots, head, tail + 1, base, log + [c])
  {}

  lemma FedMore(log: seq<Chunk>, c: Chunk, k: nat)
    requires AllValid(log) && c.Valid() && k <= |log|
    ensures AllValid(log + [c]) && Behind(log + [c], k) == Behind(log, k)
  {
    assert (log + [c])[..k] == log[..k];
  }

  lemma PublishPlaced(pos: nat, log: seq<Chunk>, c: Chunk, k: nat, mixed: nat, outRate: nat)
    requires Placed(pos, log, k, mixed, outRate) && c.Valid()
    ensures Placed(pos, log + [c], k, mixed, outRate)
  {
    FedMore(log, c, k);
    hide At, Behind, Step;
    forall step: nat | Even(log + [c], outRate, step) ensures At(pos, Behind(log + [c], k), mixed, step) {
      assert forall d <- log :: d in log + [c];
      assert Even(log, outRate, step);
    }
  }

  /** The next output frame. */
  lemma PlacedNext(pos: nat, log: seq<Chunk>, k: nat, mixed: nat, outRate: nat)
    requires Placed(pos, log, k, mixed, outRate) && k < |log| && outRate > 0
    ensures Placed(pos + Step(log[k].rate, outRate), log, k, mixed + 1, outRate)
  {
    hide At, Behind, Step;
    forall step: nat | Even(log, outRate, step)
      ensures At(pos + Step(log[k].rate, outRate), Behind(log, k), mixed + 1, step)
    {
      assert log[k] in log;
      AtNext(pos, Behind(log, k), mixed, step);
    }
  }

  /** The next chunk: the position never goes below its start. */
  lemma PlacedAhead(pos: nat, log: seq<Chunk>, k: nat, mixed: nat, outRate: nat)
    requires Placed(pos, log, k, mixed, outRate) && k < |log| && log[k].Valid() && pos / 65536 >= log[k].Count()
    ensures pos >= log[k].Count() * 65536 && Placed(pos - log[k].Count() * 65536, log, k + 1, mixed, outRate)
  {
    FedNext(log, k);
    hide Step;
  }

  /** Before the end of a chunk the position is far from its 32 bits' end. */
  lemma PosFits(pos: nat, c: Chunk, outRate: nat)
    requires c.Valid() && pos / 65536 < c.Count() && outRate > 1
    ensures pos + Step(c.rate, outRate) < TWO_TO_32
  {
    assert Word32(c.rate * 65536) / outRate <= Word32(c.rate * 65536) / 2 by {
      HalfAtMost(Word32(c.rate * 65536), outRate);
    }
  }

  lemma HalfAtMost(x: nat, n: nat)
    requires n > 1
    ensures x / n <= x / 2
  {
    var q := x / n;
    assert q * n <= x;
    AtLeastTwice(q, n);
  }

  lemma {:induction false} AtLeastTwice(q: nat, n: nat)
    requires n > 1
    ensures q * n >= q * 2
    decreases n
  {
    if n > 2 {
      AtLeastTwice(q, n - 1);
      assert q * n == q * (n - 1) + q;
    }
  }

  /** The frame that is mixed next. */
  lemma SourceHere(pos: nat, log: seq<Chunk>, k: nat, mixed: nat, outRate: nat, step: nat)
    requires Placed(pos, log, k, mixed, outRate) && k < |log| && log[k].Valid() && pos / 65536 < log[k].Count()
    requires Even(log, outRate, step)
    ensures var f, c := pos / 65536, log[k]; var fed := Fed(log);
      && Source(mixed, step) < |fed|
      && fed[Source(mixed, step)] == Frame(Sample(c, f, 0), Sample(c, f, 1))
  {
    assert log[k] in log;
    FedAt(log, k, pos / 65536);
    hide At, Sample, Step, Source;
  }

  /** A block of which the first `out` frames have got their source frames added, frame k being its first. */
  predicate Heard(acc: seq<int>, was: seq<int>, out: nat, fed: seq<Frame>, k: nat, step: nat, volume: nat)
  {
    && |acc| == |was| >= 2 * out
    && forall j: nat | j < out :: Added(acc, was, j, fed, k, step, volume)
  }

  predicate Added(acc: seq<int>, was: seq<int>, j: nat, fed: seq<Frame>, k: nat, step: nat, volume: nat)
    requires |acc| == |was| && 2 * j + 1 < |acc|
  {
    var source := Source(k + j, step);
    && source < |fed|
    && acc[2 * j] == was[2 * j] + Level(fed[source].left, volume)
    && acc[2 * j + 1] == was[2 * j + 1] + Level(fed[source].right, volume)
  }

  predicate Untouched(acc: seq<int>, was: seq<int>, from: nat)
  {
    |acc| == |was| && forall i | from <= i < |acc| :: acc[i] == was[i]
  }

  lemma HeardMore(now: seq<int>, acc: seq<int>, was: seq<int>, out: nat, fed: seq<Frame>, k: nat,
                  step: nat, volume: nat,
                  left: int, right: int)
    requires Heard(acc, was, out, fed, k, step, volume) && Untouched(acc, was, 2 * out) && 2 * out + 1 < |acc|
    requires Source(k + out, step) < |fed| && fed[Source(k + out, step)] == Frame(left, right)
    requires now ==
      acc[2 * out := acc[2 * out] + Level(left, volume)][2 * out + 1 := acc[2 * out + 1] + Level(right, volume)]
    ensures Heard(now, was, out + 1, fed, k, step, volume)
  {
    hide Level, Source;
    forall j: nat | j < out + 1 ensures Added(now, was, j, fed, k, step, volume) {
      if j < out { assert Added(acc, was, j, fed, k, step, volume); }
    }
  }

  class Voice {
    const outRate: nat
    const chunks: array<Chunk>
    var head: nat
    var tail: nat
    var pos: nat
    var playing: bool
    var volume: nat
    var bits: nat
    var channels: nat
    var rate: nat
    /** What was queued since the last stop, at which counter that began, and the frames mixed since. */
    ghost var log: seq<Chunk>
    ghost var base: nat
    ghost var mixed: nat
    /** The game has seen a free slot, and has filled it. */
    ghost var room: bool
    ghost var filled: Option<Chunk>

    ghost predicate Valid()
      reads this, chunks
    {
      && outRate > 1 && pos < TWO_TO_32 && volume <= 65536
      && (bits == 8 || bits == 16) && (channels == 1 || channels == 2)
      && Queued(chunks[..], head, tail, base, log) && Writing(chunks[..], head, tail, room, filled)
      && Placed(pos, log, head - base, mixed, outRate)
    }

    /** SoundImp_Init_Sample and SoundImp_Set_Sample_Attributes */
    constructor (outRate: nat, bits: nat, stereo: bool, rate: nat)
      requires outRate > 1
      ensures Valid() && log == [] && mixed == 0 && fresh(chunks)
    {
      this.outRate := outRate;
      chunks := new Chunk[QUEUE_LEN](_ => Chunk([], 8, 1, 1));
      head, tail, pos, playing, volume := 0, 0, 0, false, 65536;
      this.bits, channels := if bits == 8 then 8 else 16, if stereo then 2 else 1;
      this.rate := if rate > 0 then rate else outRate;
      log, base, mixed, room, filled := [], 0, 0, false, None;
    }

    /** SoundImp_Get_Sample_Free_Buffer_Count */
    method FreeCount() returns (free: nat)
      requires Valid()
      modifies `room
      ensures Valid() && free == QUEUE_LEN - (tail - head) && (free > 0 ==> room)
    {
      hide Placed;
      free := QUEUE_LEN - (tail - head);
      room := room || free > 0;
    }

    /** ... and hands it to the mixer. */
    method Publish()
      requires Valid() && filled.Some?
      modifies `tail, `log, `room, `filled
      ensures Valid() && filled == None && log == old(log) + [old(filled).value] && tail == old(tail) + 1
    {
      hide Placed, Queued;
      ghost var c := filled.value;
      PublishKeeps(chunks[..], head, tail, base, log, c);
      HeadInLog(chunks[..], head, tail, base, log);
      PublishPlaced(pos, log, c, head - base, mixed, outRate);
      tail := tail + 1;
      log := log + [c];
      room, filled := false, None;
    }

    /** The inner loop of mix_voice, with the lock held: frames of the head chunk, at most to its end. */
    method MixChunk(acc: array<int>, ghost was: seq<int>, start: nat, frames: nat, vol: nat,
                    ghost k: nat, ghost step: nat)
      returns (out: nat)
      requires Valid() && head < tail && start <= frames && 2 * frames <= acc.Length && vol <= 65536
      requires k + start == mixed
      requires Untouched(acc[..], was, 2 * start)
      requires Even(log, outRate, step) ==> Heard(acc[..], was, start, Fed(log), k, step, vol)
      modifies `pos, `mixed, acc
      ensures Valid() && start <= out <= frames && k + out == mixed
      ensures Untouched(acc[..], was, 2 * out)
      ensures Even(log, outRate, step) ==> Heard(acc[..], was, out, Fed(log), k, step, vol)
      ensures out == frames || pos / 65536 >= log[head - base].Count()
    {
      hide Placed, Heard, Queued, Writing, Step, Fed, Even, Sample, Level;
      HeadChunk(chunks[..], head, tail, base, log);
      var c := chunks[head % QUEUE_LEN];
      var count := c.Count();
      var rateStep := Step(c.rate, outRate);
      out := start;
      while out < frames && pos / 65536 < count
        invariant Valid() && start <= out <= frames && k + out == mixed
        invariant Untouched(acc[..], was, 2 * out)
        invariant Even(log, outRate, step) ==> Heard(acc[..], was, out, Fed(log), k, step, vol)
      {
        var frame := pos / 65536;
        ghost var now := acc[..];
        if Even(log, outRate, step) {
          SourceHere(pos, log, head - base, mixed, outRate, step);
          HeardMore(now[2 * out := now[2 * out] + Level(Sample(c, frame, 0), vol)]
                       [2 * out + 1 := now[2 * out + 1] + Level(Sample(c, frame, 1), vol)],
                    now, was, out, Fed(log), k, step, vol, Sample(c, frame, 0), Sample(c, frame, 1));
        }
        acc[out * 2] := acc[out * 2] + Level(Sample(c, frame, 0), vol);
        acc[out * 2 + 1] := acc[out * 2 + 1] + Level(Sample(c, frame, 1), vol);
        assert acc[..] == now[2 * out := acc[2 * out]][2 * out + 1 := acc[2 * out + 1]];
        PosFits(pos, c, outRate);
        PlacedNext(pos, log, head - base, mixed, outRate);
        pos := Word32(pos + rateStep);
        mixed := mixed + 1;
        out := out + 1;
      }
    }

    /** mix_voice: up to `frames` frames of this voice are added to the block, or all there are. */
    method MixVoice(acc: array<int>, frames: nat, ghost step: nat) returns (ghost out: nat)
      requires Valid() && 2 * frames <= acc.Length
      modifies `pos, `head, `playing, `mixed, acc
      ensures Valid() && out <= frames && mixed == old(mixed) + out && head >= old(head)
      ensures Untouched(acc[..], old(acc[..]), 2 * out)
      ensures Even(log, outRate, step) ==> Heard(acc[..], old(acc[..]), out, Fed(log), old(mixed), step, volume)
      ensures out < frames ==> !playing && head == tail
      ensures out < frames && Even(log, outRate, step) ==> Source(mixed, step) >= |Fed(log)|
      ensures out == frames ==> playing == old(playing)
    {
      hide Placed, Heard, Queued, Writing, Step, Fed, Even, Untouched, Source;
      var vol := volume;
      var n := 0;
      out := 0;
      HeadInLog(chunks[..], head, tail, base, log);
      NothingYet(acc[..], Fed(log), mixed, step, vol);
      while n < frames
        invariant Valid() && n <= frames && mixed == old(mixed) + n && out == n && playing == old(playing)
        invariant head >= old(head)
        invariant Untouched(acc[..], old(acc[..]), 2 * n)
        invariant Even(log, outRate, step) ==> Heard(acc[..], old(acc[..]), n, Fed(log), old(mixed), step, vol)
        decreases frames - n, tail - head
      {
        HeadInLog(chunks[..], head, tail, base, log);
        if head == tail {
          playing := false;
          RanDry(chunks[..], head, tail, base, log, pos, mixed, outRate, step);
          return;
        }
        n := MixChunk(acc, old(acc[..]), n, frames, vol, old(mixed), step);
        out := n;
        HeadChunk(chunks[..], head, tail, base, log);
        var count := chunks[head % QUEUE_LEN].Count();
        if pos / 65536 >= count {
          PlacedAhead(pos, log, head - base, mixed, outRate);
          AdvanceKeeps(chunks[..], head, tail, base, log, room, filled);
          pos := pos - count * 65536;
          head := head + 1;
        }
      }
    }

    /** What the mixer may do between two steps of the game: mix blocks of any size. */
    method Elsewhere(acc: array<int>)
      requires Valid()
      modifies `pos, `head, `playing, `mixed, acc
      ensures Valid() && head >= old(head)
    {
      hide Queued, Placed, Writing, Heard, Untouched, Even, Fed, Source;
      var times: nat := *;
      while times > 0
        invariant Valid() && head >= old(head)
      {
        var frames: nat := *;
        if 2 * frames <= acc.Length {
          ghost var out := MixVoice(acc, frames, 0);
        }
        times := times - 1;
      }
    }

    /** A store into the slot at tail, without the lock. */
    method Put(c: Chunk)
      requires Valid() && room && filled == None
      modifies chunks
      ensures Valid() && chunks[tail % QUEUE_LEN] == c
      ensures forall i | 0 <= i < QUEUE_LEN && i != tail % QUEUE_LEN :: chunks[i] == old(chunks[i])
    {
      hide Placed, Queued;
      ghost var was := chunks[..];
      FillKeeps(was, head, tail, base, log, c);
      chunks[tail % QUEUE_LEN] := c;
      assert chunks[..] == was[tail % QUEUE_LEN := c];
    }

    /** The length, and memcpy's bytes one after the other, with the mixer at work between any two stores. */
    method CopyIn(data: seq<byte>, len: nat, acc: array<int>)
      requires Valid() && room && filled == None && len <= |data|
      modifies `pos, `head, `playing, `mixed, acc, chunks
      ensures Valid() && head >= old(head) && chunks[tail % QUEUE_LEN].data == data[..len]
    {
      hide Placed, Queued, Writing;
      SlotThere(chunks[..], head, tail, base, log);
      var slot := tail % QUEUE_LEN;
      var stale: seq<byte> := *;
      Put(chunks[slot].(data := if |stale| == len then stale else data[..len]));
      Elsewhere(acc);
      var i := 0;
      while i < len
        invariant 0 <= i <= len && Valid() && head >= old(head)
        invariant |chunks[slot].data| == len && chunks[slot].data[..i] == data[..i]
      {
        var before := chunks[slot].data;
        Put(chunks[slot].(data := before[i := data[i]]));
        assert chunks[slot].data[..i + 1] == before[..i] + [data[i]] == data[..i + 1];
        Elsewhere(acc);
        i := i + 1;
      }
      assert chunks[slot].data == chunks[slot].data[..len];
    }

    /** The stores of SoundImp_Buffer_Sample_Data into the slot: its bytes and its format. */
    method Fill(data: seq<byte>, acc: array<int>)
      requires Valid() && room && filled == None
      modifies `pos, `head, `playing, `mixed, acc, chunks, `filled
      ensures Valid() && head >= old(head)
      ensures filled == Some(Chunk(if |data| < CHUNK_MAX then data else data[..CHUNK_MAX], bits, channels, rate))
    {
      hide Placed, Queued, Writing;
      SlotThere(chunks[..], head, tail, base, log);
      var slot, len := tail % QUEUE_LEN, if |data| < CHUNK_MAX then |data| else CHUNK_MAX;
      CopyIn(data, len, acc);
      Put(chunks[slot].(bits := bits));
      Elsewhere(acc);
      Put(chunks[slot].(channels := channels));
      Elsewhere(acc);
      Put(chunks[slot].(rate := rate));
      assert |data| == len ==> data[..len] == data;
      FilledWell(chunks[..], head, tail, room, Some(chunks[slot]));
      filled := Some(chunks[slot]);
    }

    /** SoundImp_Buffer_Sample_Data: with a free slot the chunk is queued whole, whatever the mixer does meanwhile,
        and without one nothing is. */
    method Buffer(data: seq<byte>, acc: array<int>) returns (queued: bool)
      requires Valid() && filled == None
      modifies `pos, `head, `playing, `mixed, acc, `room, `filled, `tail, `log, chunks
      ensures Valid() && filled == None && queued == old(tail - head < QUEUE_LEN)
      ensures queued ==>
        log == old(log) +
          [Chunk(if |data| < CHUNK_MAX then data else data[..CHUNK_MAX], old(bits), old(channels), old(rate))]
      ensures !queued ==> log == old(log) && chunks[..] == old(chunks[..])
    {
      hide Queued, Placed, Writing;
      var free := FreeCount();
      if free <= 0 {
        return false;
      }
      Elsewhere(acc);
      Fill(data, acc);
      Elsewhere(acc);
      Publish();
      return true;
    }

    /** SoundImp_Start_Sample */
    method Start()
      requires Valid()
      modifies `playing
      ensures Valid() && playing == (log != [] && head < tail)
    {
      hide Placed, Writing;
      playing := head != tail;
    }

    /** SoundImp_Stop_Sample, by the game, which is not filling a slot meanwhile */
    method Stop()
      requires Valid() && filled == None
      modifies `playing, `head, `pos, `log, `base, `mixed
      ensures Valid() && !playing && log == [] && mixed == 0 && head == tail
    {
      StoppedPlaced(outRate);
      hide Placed, At, Step;
      playing := false;
      head := tail;
      pos := 0;
      log, base, mixed := [], tail, 0;
    }
  }

  lemma SlotThere(slots: seq<Chunk>, head: nat, tail: nat, base: nat, log: seq<Chunk>)
    requires Queued(slots, head, tail, base, log)
    ensures |slots| == QUEUE_LEN
  {}

  lemma FilledWell(slots: seq<Chunk>, head: nat, tail: nat, room: bool, filled: Option<Chunk>)
    requires Writing(slots, head, tail, room, None) && room && |slots| == QUEUE_LEN
    requires filled == Some(slots[tail % QUEUE_LEN]) && filled.value.Valid()
    ensures Writing(slots, head, tail, room, filled)
  {}

  lemma HeadChunk(slots: seq<Chunk>, head: nat, tail: nat, base: nat, log: seq<Chunk>)
    requires Queued(slots, head, tail, base, log) && head < tail
    ensures base <= head && head - base < |log| && |slots| == QUEUE_LEN
    ensures slots[head % QUEUE_LEN] == log[head - base] && log[head - base].Valid() && AllValid(log)
  {
    assert log[head - base] in log;
  }

  lemma StoppedPlaced(outRate: nat)
    ensures Placed(0, [], 0, 0, outRate)
  {}

  lemma NothingYet(acc: seq<int>, fed: seq<Frame>, k: nat, step: nat, volume: nat)
    ensures Heard(acc, acc, 0, fed, k, step, volume) && Untouched(acc, acc, 0)
  {}

  lemma AdvanceKeeps(slots: seq<Chunk>, head: nat, tail: nat, base: nat, log: seq<Chunk>,
                     room: bool, filled: Option<Chunk>)
    requires Queued(slots, head, tail, base, log) && Writing(slots, head, tail, room, filled) && head < tail
    ensures Queued(slots, head + 1, tail, base, log) && Writing(slots, head + 1, tail, room, filled)
  {}

  /** A voice that ran dry has played all that was queued. */
  lemma RanDry(slots: seq<Chunk>, head: nat, tail: nat, base: nat, log: seq<Chunk>, pos: nat, mixed: nat,
               outRate: nat, step: nat)
    requires Queued(slots, head, tail, base, log) && head == tail && Placed(pos, log, head - base, mixed, outRate)
    ensures AllValid(log) && (Even(log, outRate, step) ==> Source(mixed, step) >= |Fed(log)|)
  {
    assert log[..head - base] == log;
    if Even(log, outRate, step) {
    }
    hide At, Source, Step, Fed;
  }

  lemma HeadInLog(slots: seq<Chunk>, head: nat, tail: nat, base: nat, log: seq<Chunk>)
    requires Queued(slots, head, tail, base, log)
    ensures base <= head <= tail && head - base <= |log| && AllValid(log)
  {}
}
