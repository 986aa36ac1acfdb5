/** The PNG row decoder of ports/netsurf/gen_netsurf.py: the filters of sections 9.2 to 9.4 of the PNG
    specification (ISO/IEC 15948) taken off in place, and packed samples unpacked. */
module Png {
  import opened Bytes
  import opened Division

  function Abs(x: int): nat { if x < 0 then -x else x }

  /** The Paeth predictor. */
  function Paeth(a: byte, b: byte, c: byte): byte
  {
    var p: int := (a as int) + (b as int) - (c as int);
    var pa, pb, pc := Abs(p - a as int), Abs(p - b as int), Abs(p - c as int);
    if pa <= pb && pa <= pc then a else if pb <= pc then b else c
  }

  /** What a filter type predicts from the bytes to the left, above, and above to the left. */
  function Predicted(kind: byte, a: byte, b: byte, c: byte): byte
  {
    if kind == 1 then a
    else if kind == 2 then b
    else if kind == 3 then
      var sum: int := (a as int) + (b as int);
      sum / 2
    else if kind == 4 then Paeth(a, b, c)
    else 0
  }

  function Wrap(x: int): byte { x % 256 }

  lemma WrapOnce(x: int)
    requires -256 <= x < 512
    ensures Wrap(x) == if x < 0 then x + 256 else if x < 256 then x else x - 256
  {}

  lemma WrapBack(x: byte, p: byte)
    ensures Wrap(Wrap(x as int - p as int) as int + p as int) == x
    ensures Wrap(Wrap(x as int + p as int) as int - p as int) == x
  {
    WrapOnce(x as int - p as int);
    WrapOnce(x as int + p as int);
    WrapOnce(Wrap(x as int - p as int) as int + p as int);
    WrapOnce(Wrap(x as int + p as int) as int - p as int);
    hide Wrap;
  }

  /** The byte bpp places before the i-th. */
  function Left(row: seq<byte>, i: nat, bpp: nat): byte
    requires i <= |row| && bpp > 0
  {
    if i >= bpp then row[i - bpp] else 0
  }

  /** A row as it is stored: every byte less its prediction from the row itself and the one before. */
  function Filtered(kind: byte, prior: seq<byte>, row: seq<byte>, bpp: nat): seq<byte>
    requires |prior| == |row| && bpp > 0
  {
    seq(|row|, i requires 0 <= i < |row| =>
      Wrap(row[i] as int - Predicted(kind, Left(row, i, bpp), prior[i], Left(prior, i, bpp)) as int))
  }

  /** The first n bytes with the filter taken off, each from those already done. */
  function Unfiltered(kind: byte, prior: seq<byte>, line: seq<byte>, bpp: nat, n: nat): (r: seq<byte>)
    requires |prior| == |line| && bpp > 0 && n <= |line|
    ensures |r| == n
  {
    if n == 0 then []
    else
      var done := Unfiltered(kind, prior, line, bpp, n - 1);
      done + [Wrap(line[n - 1] as int
                   + Predicted(kind, Left(done, n - 1, bpp), prior[n - 1], Left(prior, n - 1, bpp)) as int)]
  }

  /** Taking the filter off gives the row back ... */
  lemma {:induction false} UnfilterFiltered(kind: byte, prior: seq<byte>, row: seq<byte>, bpp: nat, n: nat)
    requires |prior| == |row| && bpp > 0 && n <= |row|
    ensures Unfiltered(kind, prior, Filtered(kind, prior, row, bpp), bpp, n) == row[..n]
  {
    hide Predicted, Wrap;
    if n > 0 {
      UnfilterFiltered(kind, prior, row, bpp, n - 1);
      assert Left(row[..n - 1], n - 1, bpp) == Left(row, n - 1, bpp);
      WrapBack(row[n - 1], Predicted(kind, Left(row, n - 1, bpp), prior[n - 1], Left(prior, n - 1, bpp)));
      assert row[..n] == row[..n - 1] + [row[n - 1]];
    }
  }

  lemma {:induction false} UnfilteredPrefix(kind: byte, prior: seq<byte>, line: seq<byte>, bpp: nat, n: nat, m: nat)
    requires |prior| == |line| && bpp > 0 && n <= m <= |line|
    ensures Unfiltered(kind, prior, line, bpp, m)[..n] == Unfiltered(kind, prior, line, bpp, n)
    decreases m
  {
    hide Predicted, Wrap;
    if n < m { UnfilteredPrefix(kind, prior, line, bpp, n, m - 1); }
  }

  /** ... and what is left is the row of which the line is the filtered form. */
  lemma FilterUnfiltered(kind: byte, prior: seq<byte>, line: seq<byte>, bpp: nat)
    requires |prior| == |line| && bpp > 0
    ensures Filtered(kind, prior, Unfiltered(kind, prior, line, bpp, |line|), bpp) == line
  {
    hide Predicted, Wrap;
    var row := Unfiltered(kind, prior, line, bpp, |line|);
    forall i | 0 <= i < |line| ensures Filtered(kind, prior, row, bpp)[i] == line[i] {
      UnfilteredPrefix(kind, prior, line, bpp, i + 1, |line|);
      UnfilteredPrefix(kind, prior, line, bpp, i, |line|);
      var done := Unfiltered(kind, prior, line, bpp, i);
      assert row[i] == row[..i + 1][i] && Left(done, i, bpp) == Left(row, i, bpp);
      WrapBack(line[i], Predicted(kind, Left(done, i, bpp), prior[i], Left(prior, i, bpp)));
    }
  }

  /** The loop over a row, in place. */
  method UnfilterRow(kind: byte, prev: seq<byte>, line: array<byte>, bpp: nat)
    requires |prev| == line.Length && bpp > 0
    modifies line
    ensures line[..] == Unfiltered(kind, prev, old(line[..]), bpp, line.Length)
  {
    hide Predicted, Wrap;
    ghost var was := line[..];
    var i := 0;
    while i < line.Length
      invariant 0 <= i <= line.Length
      invariant line[..i] == Unfiltered(kind, prev, was, bpp, i) && line[i..] == was[i..]
    {
      var a := if i >= bpp then line[i - bpp] else 0;
      var b := prev[i];
      var c := if i >= bpp then prev[i - bpp] else 0;
      assert a == Left(line[..i], i, bpp) && line[i] == was[i];
      line[i] := Wrap(line[i] as int + Predicted(kind, a, b, c) as int);
      i := i + 1;
    }
    assert line[..i] == line[..];
  }

  // ---- The image ----

  datatype Row = Row(kind: byte, bytes: seq<byte>)

  predicate Strides(rows: seq<Row>, stride: nat) { forall r <- rows :: |r.bytes| == stride }

  /** An image as it is stored, with any filter type for each row. */
  function Stored(rows: seq<Row>, prior: seq<byte>, bpp: nat): seq<byte>
    requires Strides(rows, |prior|) && bpp > 0
  {
    if rows == [] then []
    else [rows[0].kind] + Filtered(rows[0].kind, prior, rows[0].bytes, bpp) + Stored(rows[1..], rows[0].bytes, bpp)
  }

  lemma FilteredLength(kind: byte, prior: seq<byte>, row: seq<byte>, bpp: nat)
    requires |prior| == |row| && bpp > 0
    ensures |Filtered(kind, prior, row, bpp)| == |row|
  {}

  lemma OneFewer(n: nat, s: nat)
    requires n > 0
    ensures n * s == (n - 1) * s + s
  {}

  lemma {:induction false} StoredLength(rows: seq<Row>, prior: seq<byte>, bpp: nat)
    requires Strides(rows, |prior|) && bpp > 0
    ensures |Stored(rows, prior, bpp)| == |rows| * (1 + |prior|)
    decreases |rows|
  {
    hide Filtered;
    if rows != [] {
      assert |rows[0].bytes| == |prior|;
      FilteredLength(rows[0].kind, prior, rows[0].bytes, bpp);
      StoredLength(rows[1..], rows[0].bytes, bpp);
      OneFewer(|rows|, 1 + |prior|);
      hide Strides;
    }
  }

  /** The rows found in the stored bytes. */
  function Decoded(raw: seq<byte>, prior: seq<byte>, height: nat, bpp: nat): seq<Row>
    requires bpp > 0 && |raw| >= height * (1 + |prior|)
    decreases height
  {
    if height == 0 then []
    else
      RowFits(|raw|, height, |prior|);
      var bytes := Unfiltered(raw[0], prior, raw[1..1 + |prior|], bpp, |prior|);
      [Row(raw[0], bytes)] + Decoded(raw[1 + |prior|..], bytes, height - 1, bpp)
  }

  lemma RowFits(length: nat, height: nat, stride: nat)
    requires height > 0 && length >= height * (1 + stride)
    ensures length >= 1 + stride && length - (1 + stride) >= (height - 1) * (1 + stride)
  {
    assert height * (1 + stride) == (height - 1) * (1 + stride) + (1 + stride);
  }

  /** Every image comes back from its stored form, whatever filter its rows have. */
  lemma {:induction false} DecodeStored(rows: seq<Row>, prior: seq<byte>, bpp: nat, rest: seq<byte>)
    requires Strides(rows, |prior|) && bpp > 0
    ensures var raw := Stored(rows, prior, bpp) + rest;
      |raw| >= |rows| * (1 + |prior|) && Decoded(raw, prior, |rows|, bpp) == rows
    decreases |rows|
  {
    hide Filtered, Unfiltered;
    StoredLength(rows, prior, bpp);
    if rows != [] {
      var r := rows[0];
      assert r in rows && forall q <- rows[1..] :: q in rows;
      var line, more := Filtered(r.kind, prior, r.bytes, bpp), Stored(rows[1..], r.bytes, bpp) + rest;
      FilteredLength(r.kind, prior, r.bytes, bpp);
      var raw := Stored(rows, prior, bpp) + rest;
      assert raw == [r.kind] + line + more by { hide Decoded, Strides; }
      assert raw[1..1 + |prior|] == line && raw[1 + |prior|..] == more;
      UnfilterFiltered(r.kind, prior, r.bytes, bpp, |prior|);
      assert r.bytes[..|prior|] == r.bytes;
      DecodeStored(rows[1..], r.bytes, bpp, rest);
    }
  }

  /** And stored bytes are read as the only image of which they are the stored form. */
  lemma {:induction false} StoreDecoded(raw: seq<byte>, prior: seq<byte>, height: nat, bpp: nat)
    requires bpp > 0 && |raw| == height * (1 + |prior|)
    ensures var rows := Decoded(raw, prior, height, bpp);
      Strides(rows, |prior|) && |rows| == height && Stored(rows, prior, bpp) == raw
    decreases height
  {
    hide Filtered, Unfiltered;
    if height > 0 {
      RowFits(|raw|, height, |prior|);
      var line := raw[1..1 + |prior|];
      var bytes := Unfiltered(raw[0], prior, line, bpp, |prior|);
      FilterUnfiltered(raw[0], prior, line, bpp);
      RowFits(height * (1 + |prior|), height, |prior|);
      assert |raw[1 + |prior|..]| == (height - 1) * (1 + |prior|);
      StoreDecoded(raw[1 + |prior|..], bytes, height - 1, bpp);
      assert raw == [raw[0]] + line + raw[1 + |prior|..];
    }
  }

  /** The loop over the rows of png_rgba. */
  method ReadRows(raw: seq<byte>, height: nat, stride: nat, bpp: nat) returns (rows: seq<Row>)
    requires bpp > 0 && |raw| >= height * (1 + stride)
    ensures rows == Decoded(raw, seq(stride, i => 0), height, bpp)
  {
    hide Unfiltered, Decoded;
    rows := [];
    var prev := seq(stride, i => 0);
    var at, n := 0, 0;
    while n < height
      invariant 0 <= n <= height && |prev| == stride && at <= |raw| && |raw| - at >= (height - n) * (1 + stride)
      invariant rows + Decoded(raw[at..], prev, height - n, bpp) == Decoded(raw, seq(stride, i => 0), height, bpp)
    {
      RowFits(|raw| - at, height - n, stride);
      DecodedNext(raw[at..], prev, height - n, bpp);
      var kind := raw[at];
      var line := new byte[stride](i requires 0 <= i < stride => raw[at + 1 + i]);
      assert line[..] == raw[at..][1..1 + stride] && raw[at..][1 + stride..] == raw[at + 1 + stride..];
      at := at + 1 + stride;
      UnfilterRow(kind, prev, line, bpp);
      prev := line[..];
      rows := rows + [Row(kind, prev)];
      n := n + 1;
    }
    DecodedNone(raw[at..], prev, bpp);
  }

  lemma DecodedNone(raw: seq<byte>, prior: seq<byte>, bpp: nat)
    requires bpp > 0
    ensures Decoded(raw, prior, 0, bpp) == []
  {}

  lemma DecodedNext(raw: seq<byte>, prior: seq<byte>, height: nat, bpp: nat)
    requires bpp > 0 && height > 0 && |raw| >= height * (1 + |prior|)
    ensures |raw| >= 1 + |prior| && |raw| - (1 + |prior|) >= (height - 1) * (1 + |prior|)
    ensures var bytes := Unfiltered(raw[0], prior, raw[1..1 + |prior|], bpp, |prior|);
      Decoded(raw, prior, height, bpp) == [Row(raw[0], bytes)] + Decoded(raw[1 + |prior|..], bytes, height - 1, bpp)
  {
    RowFits(|raw|, height, |prior|);
    hide Unfiltered;
  }

  // ---- Samples ----

  predicate Packs(depth: nat) { depth == 1 || depth == 2 || depth == 4 || depth == 8 }

  /** 1 << depth */
  function Levels(depth: nat): nat
    requires Packs(depth)
  {
    if depth == 1 then 2 else if depth == 2 then 4 else if depth == 4 then 16 else 256
  }

  function Pow(base: nat, n: nat): (p: nat)
    ensures base > 0 ==> p > 0
  {
    if n == 0 then 1
    else
      var q := Pow(base, n - 1);
      assert base > 0 ==> base * q > 0;
      base * q
  }

  /** (byte >> (8 - depth * (k + 1))) & mask */
  function SampleOf(b: nat, depth: nat, k: nat): (v: nat)
    requires Packs(depth) && depth * (k + 1) <= 8
    ensures v < Levels(depth)
  {
    b / Pow(2, 8 - depth * (k + 1)) % Levels(depth)
  }

  /** The first k samples of a byte, the first of all in its high bits; samples that are not there are zero. */
  function PackByte(samples: seq<nat>, depth: nat, k: nat): (b: nat)
    requires Packs(depth)
    decreases k
  {
    if k == 0 then 0
    else PackByte(samples, depth, k - 1) * Levels(depth)
         + (if k <= |samples| then samples[k - 1] % Levels(depth) else 0)
  }

  function PerByte(depth: nat): nat
    requires Packs(depth)
  {
    8 / depth
  }

  lemma {:induction false} PackFits(samples: seq<nat>, depth: nat, k: nat)
    requires Packs(depth)
    ensures PackByte(samples, depth, k) < Pow(Levels(depth), k)
    decreases k
  {
    if k > 0 {
      PackFits(samples, depth, k - 1);
      var x, p, l := PackByte(samples, depth, k - 1), Pow(Levels(depth), k - 1), Levels(depth);
      assert x * l + (l - 1) < p * l by { assert x + 1 <= p; }
    }
  }

  lemma DivideTwice(x: nat, l: nat, p: nat)
    requires l > 0 && p > 0
    ensures l * p > 0 && x / (l * p) == x / l / p
  {
    var y, s := x / l, x % l;
    var q, t := y / p, y % p;
    Rest(t, p, s, l);
    Twice(x, l, p, y, s, q, t);
  }

  lemma Rest(t: nat, p: nat, s: nat, l: nat)
    requires t < p && s < l
    ensures 0 <= t * l + s < l * p
  {
    assert (p - 1) * l + l == l * p;
  }

  lemma Twice(x: nat, l: nat, p: nat, y: nat, s: nat, q: nat, t: nat)
    requires l > 0 && p > 0 && x == y * l + s && y == q * p + t
    requires (q * p + t) * l == q * (l * p) + t * l && 0 <= t * l + s < l * p
    ensures x / (l * p) == q
  {
    var m, r := l * p, t * l + s;
    RemainderIs(x, q, m, r);
  }

  /** The samples of a byte are its digits. */
  lemma {:induction false} Digit(samples: seq<nat>, depth: nat, m: nat, k: nat)
    requires Packs(depth) && k < m
    ensures PackByte(samples, depth, m) / Pow(Levels(depth), m - 1 - k) % Levels(depth)
      == if k < |samples| then samples[k] % Levels(depth) else 0
    decreases m
  {
    var l := Levels(depth);
    var x, s := PackByte(samples, depth, m - 1), if m <= |samples| then samples[m - 1] % l else 0;
    RemainderIs(x * l + s, x, l, s);
    if k == m - 1 {
      assert Pow(l, 0) == 1;
    } else {
      Digit(samples, depth, m - 1, k);
      DivideTwice(x * l + s, l, Pow(l, m - 2 - k));
    }
    hide Levels, Packs;
  }

  lemma Shift(depth: nat, k: nat)
    requires Packs(depth) && k < PerByte(depth)
    ensures depth * (k + 1) <= 8 && Pow(2, 8 - depth * (k + 1)) == Pow(Levels(depth), PerByte(depth) - 1 - k)
  {
    Powers(depth, PerByte(depth) - 1 - k);
    assert depth * (PerByte(depth) - 1 - k) == 8 - depth * (k + 1);
    hide Pow, Levels;
  }

  lemma {:induction false} Powers(depth: nat, n: nat)
    requires Packs(depth)
    ensures Pow(2, depth * n) == Pow(Levels(depth), n)
    decreases n
  {
    if n > 0 {
      Powers(depth, n - 1);
      var e := depth * (n - 1);
      assert depth * n == e + depth;
      assert Pow(2, e + 1) == 2 * Pow(2, e);
      if depth >= 2 { assert Pow(2, e + 2) == 2 * Pow(2, e + 1); }
      if depth >= 4 { assert Pow(2, e + 3) == 2 * Pow(2, e + 2) && Pow(2, e + 4) == 2 * Pow(2, e + 3); }
      if depth == 8 {
        assert Pow(2, e + 5) == 2 * Pow(2, e + 4) && Pow(2, e + 6) == 2 * Pow(2, e + 5);
        assert Pow(2, e + 7) == 2 * Pow(2, e + 6) && Pow(2, e + 8) == 2 * Pow(2, e + 7);
      }
    }
  }

  lemma SamplePacked(samples: seq<nat>, depth: nat, k: nat)
    requires Packs(depth) && k < PerByte(depth)
    ensures depth * (k + 1) <= 8
    ensures SampleOf(PackByte(samples, depth, PerByte(depth)), depth, k)
      == if k < |samples| then samples[k] % Levels(depth) else 0
  {
    hide PackByte, Pow, Levels, PerByte, Packs;
    Shift(depth, k);
    Digit(samples, depth, PerByte(depth), k);
  }

  // ---- Rows of samples ----

  function Min(a: nat, b: nat): nat { if a < b then a else b }

  /** Samples packed into bytes. */
  function Packed(samples: seq<nat>, depth: nat): seq<nat>
    requires Packs(depth)
    decreases |samples|
  {
    if samples == [] then []
    else
      var per := PerByte(depth);
      [PackByte(samples, depth, per)] + Packed(samples[Min(per, |samples|)..], depth)
  }

  /** The samples of one byte, and of a row. */
  function Unpacked(b: nat, depth: nat, k: nat): (r: seq<nat>)
    requires Packs(depth) && depth * k <= 8
    ensures |r| == k
  {
    if k == 0 then [] else Unpacked(b, depth, k - 1) + [SampleOf(b, depth, k - 1)]
  }

  function AllUnpacked(line: seq<nat>, depth: nat): seq<nat>
    requires Packs(depth)
  {
    if line == [] then [] else Unpacked(line[0], depth, PerByte(depth)) + AllUnpacked(line[1..], depth)
  }

  lemma {:induction false} UnpackedAt(b: nat, depth: nat, k: nat, i: nat)
    requires Packs(depth) && depth * k <= 8 && i < k
    ensures depth * (i + 1) <= 8 && Unpacked(b, depth, k)[i] == SampleOf(b, depth, i)
    decreases k
  {
    hide SampleOf, Packs;
    if i < k - 1 { UnpackedAt(b, depth, k - 1, i); }
  }

  /** Every row of samples of 1, 2, 4 or 8 bits comes back from its packed form, zeros behind it. */
  lemma {:induction false} UnpackPacked(samples: seq<nat>, depth: nat)
    requires Packs(depth) && forall v <- samples :: v < Levels(depth)
    ensures samples <= AllUnpacked(Packed(samples, depth), depth)
    decreases |samples|
  {
    hide PackByte, SampleOf, Levels, Unpacked, Packs;
    if samples != [] {
      var per := PerByte(depth);
      hide PerByte;
      var n := Min(per, |samples|);
      var b := PackByte(samples, depth, per);
      var first, more := Unpacked(b, depth, per), AllUnpacked(Packed(samples[n..], depth), depth);
      assert Packed(samples, depth)[0] == b && Packed(samples, depth)[1..] == Packed(samples[n..], depth);
      forall i | 0 <= i < n ensures first[i] == samples[i] {
        UnpackedAt(b, depth, per, i);
        SamplePacked(samples, depth, i);
        Reduced(samples, depth, i);
      }
      assert forall v <- samples[n..] :: v in samples;
      UnpackPacked(samples[n..], depth);
    }
  }

  lemma Reduced(samples: seq<nat>, depth: nat, i: nat)
    requires Packs(depth) && (forall v <- samples :: v < Levels(depth)) && i < |samples|
    ensures samples[i] % Levels(depth) == samples[i]
  {
    assert samples[i] in samples;
  }

  /** `samples`: 16-bit samples keep their high byte. */
  function HighBytes(line: seq<nat>): seq<nat>
  {
    if |line| < 2 then line else [line[0]] + HighBytes(line[2..])
  }

  method Samples16(line: seq<nat>) returns (out: seq<nat>)
    ensures out == HighBytes(line)
  {
    out := [];
    var i := 0;
    assert line[0..] == line;
    while i < |line|
      invariant 0 <= i <= |line| + 1
      invariant out + (if i <= |line| then HighBytes(line[i..]) else []) == HighBytes(line)
      decreases |line| - i
    {
      if i + 2 <= |line| { assert line[i..][2..] == line[i + 2..]; }
      out := out + [line[i]];
      i := i + 2;
    }
  }

  /** The inner loop, over one byte. */
  method SamplesOf(b: nat, depth: nat, before: seq<nat>) returns (out: seq<nat>)
    requires Packs(depth)
    ensures out == before + Unpacked(b, depth, PerByte(depth))
  {
    hide SampleOf, Levels;
    out := before;
    var per := 8 / depth;
    var k := 0;
    assert before + [] == before;
    while k < per
      invariant 0 <= k <= per && depth * k <= 8 && out == before + Unpacked(b, depth, k)
    {
      Shift(depth, k);
      out := out + [SampleOf(b, depth, k)];
      k := k + 1;
    }
  }

  method Samples(line: seq<nat>, depth: nat) returns (out: seq<nat>)
    requires Packs(depth) || depth == 16
    requires forall b <- line :: b < 256
    ensures depth == 16 ==> out == HighBytes(line)
    ensures depth != 16 ==> out == AllUnpacked(line, depth)
  {
    hide Unpacked, HighBytes, PerByte;
    if depth == 8 {
      WholeBytes(line);
      return line;
    }
    if depth == 16 {
      out := Samples16(line);
      return;
    }
    out := [];
    var n := 0;
    assert line[0..] == line;
    while n < |line|
      invariant 0 <= n <= |line| && out + AllUnpacked(line[n..], depth) == AllUnpacked(line, depth)
    {
      assert line[n..][1..] == line[n + 1..];
      out := SamplesOf(line[n], depth, out);
      n := n + 1;
    }
  }

  /** What is packed is bytes. */
  lemma {:induction false} PackedBytes(samples: seq<nat>, depth: nat)
    requires Packs(depth)
    ensures forall b <- Packed(samples, depth) :: b < 256
    decreases |samples|
  {
    hide PackByte, Levels;
    if samples != [] {
      PackFits(samples, depth, PerByte(depth));
      Powers(depth, PerByte(depth));
      assert depth * PerByte(depth) == 8;
      PackedBytes(samples[Min(PerByte(depth), |samples|)..], depth);
    }
    hide Pow;
  }

  lemma {:induction false} WholeBytes(line: seq<nat>)
    requires forall b <- line :: b < 256
    ensures AllUnpacked(line, 8) == line
    decreases |line|
  {
    if line != [] {
      assert line[0] in line && forall b <- line[1..] :: b in line;
      assert Pow(2, 0) == 1;
      assert SampleOf(line[0], 8, 0) == line[0];
      assert Unpacked(line[0], 8, 1) == [line[0]] by { assert Unpacked(line[0], 8, 0) == []; }
      WholeBytes(line[1..]);
    }
  }
}
