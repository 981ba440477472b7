/** The W5100's socket buffers: circular windows in chip memory, written and read either in two
    straight pieces (wiz_send_data, wiz_recv_data) or byte by byte under a mask. */
module W5100 {
  import opened Machine

  const TX_MEMORY := 0x4000
  const RX_MEMORY := 0x6000
  const SPACE_SIZE := 0x1_0000
  const SOCKETS := 4

  // ------------------------------------------------------------------- windows

  /** The size code of socket sn: two bits of the memory size register. */
  function SizeCode(sizes: byte, sn: nat): (c: nat)
    requires sn < SOCKETS
    ensures c < 4
  {
    (if sn == 0 then sizes else if sn == 1 then sizes / 4 else if sn == 2 then sizes / 16 else sizes / 64) % 4
  }

  /** getSn_TxMAX and getSn_RxMAX: 1, 2, 4 or 8 KB. */
  function Max(sizes: byte, sn: nat): (n: nat)
    requires sn < SOCKETS
    ensures n in {1024, 2048, 4096, 8192}
  {
    var c := SizeCode(sizes, sn);
    if c == 0 then 1024 else if c == 1 then 2048 else if c == 2 then 4096 else 8192
  }

  /** getSn_TxBASE and getSn_RxBASE: the windows follow each other. */
  function Base(memory: nat, sizes: byte, sn: nat): (b: nat)
    requires sn <= SOCKETS
    ensures memory + 1024 * sn <= b <= memory + 8192 * sn
  {
    if sn == 0 then memory else Base(memory, sizes, sn - 1) + Max(sizes, sn - 1)
  }

  method BaseLoop(memory: nat, sizes: byte, sn: nat) returns (b: nat)
    requires sn <= SOCKETS
    ensures b == Base(memory, sizes, sn)
  {
    b := memory;
    var i := 0;
    while i < sn
      invariant 0 <= i <= sn && b == Base(memory, sizes, i)
    {
      b := b + Max(sizes, i);
      i := i + 1;
    }
  }

  predicate InWindow(memory: nat, sizes: byte, sn: nat, a: nat)
    requires sn < SOCKETS
  {
    Base(memory, sizes, sn) <= a < Base(memory, sizes, sn) + Max(sizes, sn)
  }

  lemma {:induction false} BaseGrows(memory: nat, sizes: byte, i: nat, j: nat)
    requires i < j <= SOCKETS
    ensures Base(memory, sizes, i) + Max(sizes, i) <= Base(memory, sizes, j)
    decreases j
  {
    if i < j - 1 {
      BaseGrows(memory, sizes, i, j - 1);
    }
  }

  /** Windows never overlap, and when the four sizes sum to at most 8 KB all of them lie inside the 8 KB block. */
  lemma WindowsApart(memory: nat, sizes: byte, i: nat, j: nat, a: nat)
    requires i < SOCKETS && j < SOCKETS && InWindow(memory, sizes, i, a)
    ensures InWindow(memory, sizes, j, a) ==> i == j
    ensures Base(memory, sizes, SOCKETS) <= memory + 0x2000 ==> memory <= a < memory + 0x2000
  {
    if i < j {
      BaseGrows(memory, sizes, i, j);
    } else if j < i {
      BaseGrows(memory, sizes, j, i);
    }
    BaseGrows(memory, sizes, i, SOCKETS);
  }

  /** A register of four two-bit codes gives socket i a window of 1 KB doubled as often as its code says, and the
      windows follow each other. */
  lemma WindowsOfCodes(memory: nat, c0: nat, c1: nat, c2: nat, c3: nat)
    requires c0 < 4 && c1 < 4 && c2 < 4 && c3 < 4
    ensures var r := c0 + 4 * c1 + 16 * c2 + 64 * c3;
            && r < 256
            && Max(r, 0) == Doubled(1024, c0) && Max(r, 1) == Doubled(1024, c1)
            && Max(r, 2) == Doubled(1024, c2) && Max(r, 3) == Doubled(1024, c3)
            && Base(memory, r, 0) == memory && Base(memory, r, 1) == memory + Doubled(1024, c0)
            && Base(memory, r, 2) == memory + Doubled(1024, c0) + Doubled(1024, c1)
            && Base(memory, r, 3) == memory + Doubled(1024, c0) + Doubled(1024, c1) + Doubled(1024, c2)
  {
    hide Base;
    var r := c0 + 4 * c1 + 16 * c2 + 64 * c3;
    assert r / 4 == c1 + 4 * c2 + 16 * c3 && r / 16 == c2 + 4 * c3 && r / 64 == c3;
    SizeDoubles(c0);
    SizeDoubles(c1);
    SizeDoubles(c2);
    SizeDoubles(c3);
    assert SizeCode(r, 0) == c0 && SizeCode(r, 1) == c1 && SizeCode(r, 2) == c2 && SizeCode(r, 3) == c3;
    BaseSteps(memory, r);
  }

  function Doubled(n: nat, c: nat): nat { if c == 0 then n else 2 * Doubled(n, c - 1) }

  lemma SizeDoubles(c: nat)
    requires c < 4
    ensures (if c == 0 then 1024 else if c == 1 then 2048 else if c == 2 then 4096 else 8192) == Doubled(1024, c)
  {
    assert Doubled(1024, 1) == 2048;
  }

  lemma BaseSteps(memory: nat, r: byte)
    ensures Base(memory, r, 0) == memory && Base(memory, r, 1) == memory + Max(r, 0)
    ensures Base(memory, r, 2) == memory + Max(r, 0) + Max(r, 1)
    ensures Base(memory, r, 3) == memory + Max(r, 0) + Max(r, 1) + Max(r, 2)
  {
    hide Max;
  }

  /** The board's own setting, 0x55: four windows of 2 KB one after the other. */
  lemma BoardWindows(memory: nat, i: nat, a: nat)
    requires i < 4
    ensures Max(0x55, i) == 0x800 && Base(memory, 0x55, i) == memory + 0x800 * i
    ensures InWindow(memory, 0x55, i, a) <==> memory + 0x800 * i <= a < memory + 0x800 * i + 0x800
  {
    hide Max, Base;
    WindowsOfCodes(memory, 1, 1, 1, 1);
    assert Doubled(1024, 1) == 2048;
    assert i == 0 || i == 1 || i == 2 || i == 3;
  }

  // ------------------------------------------------------------ masked, bytewise

  /** Where byte number n of the stream lives. */
  function Cell(base: nat, max: nat, n: nat): (a: nat)
    requires max > 0
    ensures base <= a < base + max
  {
    base + n % max
  }

  /** The memory after data has been put in byte by byte from stream position ptr on. */
  function MaskedWrite(m: seq<byte>, base: nat, max: nat, ptr: nat, data: seq<byte>): (r: seq<byte>)
    requires max > 0 && base + max <= |m|
    ensures |r| == |m|
    decreases |data|
  {
    if data == [] then m
    else
      var n := |data| - 1;
      MaskedWrite(m, base, max, ptr, data[..n])[Cell(base, max, ptr + n) := data[n]]
  }

  function MaskedRead(m: seq<byte>, base: nat, max: nat, ptr: nat, len: nat): (r: seq<byte>)
    requires max > 0 && base + max <= |m|
    ensures |r| == len
  {
    seq(len, i requires 0 <= i < len => m[Cell(base, max, ptr + i)])
  }

  // ------------------------------------------------------------------ two pieces

  /** WIZCHIP_WRITE_BUF: consecutive addresses, which wrap at the end of the address space. */
  function WriteAt(m: seq<byte>, a: nat, data: seq<byte>): (r: seq<byte>)
    requires |m| > 0
    ensures |r| == |m|
  {
    MaskedWrite(m, 0, |m|, a, data)
  }

  /** WIZCHIP_READ_BUF. */
  function ReadAt(m: seq<byte>, a: nat, len: nat): (r: seq<byte>)
    requires |m| > 0
    ensures |r| == len
  {
    MaskedRead(m, 0, |m|, a, len)
  }

  /** wiz_send_data's copy: up to the end of the window, then the rest from its start. */
  function SplitWrite(m: seq<byte>, base: nat, max: nat, ptr: nat, data: seq<byte>): (r: seq<byte>)
    requires max > 0 && |m| > 0
    ensures |r| == |m|
  {
    var off := ptr % max;
    if off + |data| > max then WriteAt(WriteAt(m, base + off, data[..max - off]), base, data[max - off..])
    else WriteAt(m, base + off, data)
  }

  function SplitRead(m: seq<byte>, base: nat, max: nat, ptr: nat, len: nat): (r: seq<byte>)
    requires max > 0 && |m| > 0
    ensures |r| == len
  {
    var off := ptr % max;
    if off + len > max then ReadAt(m, base + off, max - off) + ReadAt(m, base, len - (max - off))
    else ReadAt(m, base + off, len)
  }

  /** Bytes put in at consecutive addresses that do not wrap. */
  function Put(m: seq<byte>, a: nat, data: seq<byte>): (r: seq<byte>)
    requires a + |data| <= |m|
    ensures |r| == |m|
  {
    m[..a] + data + m[a + |data|..]
  }

  lemma CellInPiece(base: nat, max: nat, ptr: nat, i: nat)
    requires max > 0 && ptr % max + i < 2 * max
    ensures Cell(base, max, ptr + i) == if ptr % max + i < max then base + ptr % max + i else base + ptr % max + i - max
  {
    var off := ptr % max;
    var q := ptr / max;
    assert ptr == q * max + off;
    if off + i < max {
      ModIs(ptr + i, max, q, off + i);
    } else {
      assert ptr + i == (q + 1) * max + (off + i - max);
      ModIs(ptr + i, max, q + 1, off + i - max);
    }
  }

  lemma ProductGrows(a: nat, b: nat, m: nat)
    requires a < b
    ensures a * m + m <= b * m
  {
    var d := b - a;
    assert b * m == a * m + d * m;
    assert d * m == (d - 1) * m + m;
    ProductNatural(d - 1, m);
  }

  lemma ProductNatural(a: nat, b: nat)
    ensures a * b >= 0
  {
  }

  lemma ModIs(x: nat, m: nat, q: nat, r: nat)
    requires m > 0 && x == q * m + r && r < m
    ensures x % m == r
  {
    var a, b := x / m, x % m;
    assert x == a * m + b && b < m;
    if a < q {
      ProductGrows(a, q, m);
    } else if a > q {
      ProductGrows(q, a, m);
    }
  }

  // -------------------------------------------------------------- the two agree

  /** For any pointer, while a transfer does not run twice round the window, the two-piece read
      is the bytewise masked read. */
  lemma SplitReadIsMasked(m: seq<byte>, base: nat, max: nat, ptr: nat, len: nat)
    requires max > 0 && base + max <= |m| && ptr % max + len <= 2 * max
    ensures SplitRead(m, base, max, ptr, len) == MaskedRead(m, base, max, ptr, len)
  {
    hide Cell, ReadAt;
    var r := SplitRead(m, base, max, ptr, len);
    var off := ptr % max;
    if off + len > max {
      ReadAtIs(m, base + off, max - off);
      ReadAtIs(m, base, len - (max - off));
    } else {
      ReadAtIs(m, base + off, len);
    }
    forall i | 0 <= i < len ensures r[i] == m[Cell(base, max, ptr + i)] {
      CellInPiece(base, max, ptr, i);
    }
  }

  lemma ReadAtIs(m: seq<byte>, a: nat, len: nat)
    requires |m| > 0 && a + len <= |m|
    ensures ReadAt(m, a, len) == m[a..a + len]
  {
    hide Cell;
    var r := ReadAt(m, a, len);
    forall i | 0 <= i < len ensures r[i] == m[a..a + len][i] {
      SmallCell(|m|, a + i);
    }
  }

  lemma SmallCell(n: nat, a: nat)
    requires a < n
    ensures a % n == a && Cell(0, n, a) == a
  {
    ModIs(a, n, 0, a);
  }

  lemma {:induction false} MaskedStraight(m: seq<byte>, base: nat, max: nat, ptr: nat, data: seq<byte>)
    requires max > 0 && base + max <= |m| && ptr % max + |data| <= max
    ensures MaskedWrite(m, base, max, ptr, data) == Put(m, base + ptr % max, data)
    decreases |data|
  {
    hide Cell;
    if data == [] {
      PutNothing(m, base + ptr % max);
    } else {
      var n := |data| - 1;
      MaskedStraight(m, base, max, ptr, data[..n]);
      CellInPiece(base, max, ptr, n);
      PutSnoc(m, base + ptr % max, data[..n], data[n]);
      assert data[..n] + [data[n]] == data;
    }
  }

  lemma PutNothing(m: seq<byte>, a: nat)
    requires a <= |m|
    ensures Put(m, a, []) == m
  {
  }

  lemma PutSnoc(m: seq<byte>, a: nat, d: seq<byte>, x: byte)
    requires a + |d| < |m|
    ensures Put(m, a, d)[a + |d| := x] == Put(m, a, d + [x])
  {
  }

  lemma {:induction false} MaskedConcat(m: seq<byte>, base: nat, max: nat, ptr: nat, a: seq<byte>, b: seq<byte>)
    requires max > 0 && base + max <= |m|
    ensures MaskedWrite(m, base, max, ptr, a + b) ==
            MaskedWrite(MaskedWrite(m, base, max, ptr, a), base, max, ptr + |a|, b)
    decreases |b|
  {
    hide Cell;
    if b == [] {
      assert a + b == a;
    } else {
      var n := |b| - 1;
      assert (a + b)[..|a| + n] == a + b[..n];
      MaskedConcat(m, base, max, ptr, a, b[..n]);
    }
  }

  lemma ModSum(q: nat, m: nat, x: nat)
    requires m > 0
    ensures (q * m + x) % m == x % m
  {
    ProductNatural(q, m);
    var c, d := x / m, x % m;
    assert x == c * m + d;
    assert q * m + x == (q + c) * m + d;
    ModIs(q * m + x, m, q + c, d);
  }

  lemma CellCongruent(base: nat, max: nat, p: nat, q: nat, i: nat)
    requires max > 0 && p % max == q % max
    ensures Cell(base, max, p + i) == Cell(base, max, q + i)
  {
    var r := p % max;
    assert p == p / max * max + r && q == q / max * max + r;
    ModSum(p / max, max, r + i);
    ModSum(q / max, max, r + i);
  }

  /** Positions that name the same cell can stand for each other. */
  lemma {:induction false} MaskedShift(m: seq<byte>, base: nat, max: nat, p: nat, q: nat, data: seq<byte>)
    requires max > 0 && base + max <= |m| && p % max == q % max
    ensures MaskedWrite(m, base, max, p, data) == MaskedWrite(m, base, max, q, data)
    decreases |data|
  {
    hide Cell;
    if data != [] {
      var n := |data| - 1;
      MaskedShift(m, base, max, p, q, data[..n]);
      CellCongruent(base, max, p, q, n);
    }
  }

  lemma WrapsToZero(ptr: nat, max: nat)
    requires max > 0
    ensures (ptr + (max - ptr % max)) % max == 0 && 0 % max == 0
  {
    var q := ptr / max;
    assert ptr == q * max + ptr % max;
    assert ptr + (max - ptr % max) == (q + 1) * max + 0;
    ModIs(ptr + (max - ptr % max), max, q + 1, 0);
  }

  lemma WriteAtIs(m: seq<byte>, a: nat, data: seq<byte>)
    requires 0 < |m| && a < |m| && a + |data| <= |m|
    ensures WriteAt(m, a, data) == Put(m, a, data)
  {
    hide MaskedWrite, Put;
    SmallCell(|m|, a);
    MaskedStraight(m, 0, |m|, a, data);
  }

  /** The same for writing: the two pieces land exactly where the bytes would one by one. */
  lemma SplitWriteIsMasked(m: seq<byte>, base: nat, max: nat, ptr: nat, data: seq<byte>)
    requires max > 0 && base + max <= |m| && ptr % max + |data| <= 2 * max
    ensures SplitWrite(m, base, max, ptr, data) == MaskedWrite(m, base, max, ptr, data)
  {
    hide Cell, MaskedWrite, Put, WriteAt;
    var off := ptr % max;
    if off + |data| > max {
      var k := max - off;
      var a, b := data[..k], data[k..];
      assert a + b == data;
      MaskedConcat(m, base, max, ptr, a, b);
      MaskedStraight(m, base, max, ptr, a);
      WrapsToZero(ptr, max);
      var m' := Put(m, base + off, a);
      WriteAtIs(m, base + off, a);
      WriteAtIs(m', base, b);
      MaskedShift(m', base, max, ptr + k, 0, b);
      MaskedStraight(m', base, max, 0, b);
    } else {
      MaskedStraight(m, base, max, ptr, data);
      WriteAtIs(m, base + off, data);
    }
  }

  /** The masked form never leaves the window. */
  lemma {:induction false} MaskedStaysInside(m: seq<byte>, base: nat, max: nat, ptr: nat, data: seq<byte>, a: nat)
    requires max > 0 && base + max <= |m| && a < |m| && !(base <= a < base + max)
    ensures MaskedWrite(m, base, max, ptr, data)[a] == m[a]
    decreases |data|
  {
    hide Cell;
    if data != [] {
      MaskedStaysInside(m, base, max, ptr, data[..|data| - 1], a);
    }
  }

  /** Once a transfer runs more than twice round, the two-piece form writes past the window: the
      byte just behind it gets data, whatever it held. */
  lemma SplitEscapes(m: seq<byte>, base: nat, max: nat, ptr: nat, data: seq<byte>)
    requires max > 0 && base + max < |m| && |data| <= |m| && ptr % max + |data| > 2 * max
    ensures SplitWrite(m, base, max, ptr, data)[base + max] == data[2 * max - ptr % max]
  {
    hide MaskedWrite;
    var k := max - ptr % max;
    var m' := WriteAt(m, base + ptr % max, data[..k]);
    LandsAt(m', |m|, base, data[k..], max);
    SmallCell(|m|, base + max);
  }

  /** A write that does not run round the whole space leaves each of its bytes where it put it. */
  lemma {:induction false} LandsAt(m: seq<byte>, n: nat, ptr: nat, data: seq<byte>, i: nat)
    requires 0 < n == |m| && i < |data| <= n
    ensures MaskedWrite(m, 0, n, ptr, data)[Cell(0, n, ptr + i)] == data[i]
    decreases |data|
  {
    hide Cell;
    var last := |data| - 1;
    if i < last {
      LandsAt(m, n, ptr, data[..last], i);
      CellsApart(0, n, ptr + i, ptr + last);
    }
  }

  // -------------------------------------------------------------------- streams

  predicate WindowSize(max: nat) { max in {1024, 2048, 4096, 8192} }

  /** A 16-bit pointer keeps its place in the window when it wraps. */
  lemma PointerWraps(x: nat, max: nat)
    requires WindowSize(max)
    ensures x % 0x1_0000 % max == x % max
  {
    var q, r := x / 0x1_0000, x % 0x1_0000;
    assert x == q * 0x1_0000 + r;
    if max == 1024 {
      assert x == (q * 64) * max + r;
      ModSum(q * 64, max, r);
    } else if max == 2048 {
      assert x == (q * 32) * max + r;
      ModSum(q * 32, max, r);
    } else if max == 4096 {
      assert x == (q * 16) * max + r;
      ModSum(q * 16, max, r);
    } else {
      assert x == (q * 8) * max + r;
      ModSum(q * 8, max, r);
    }
  }

  lemma CellsApart(base: nat, max: nat, i: nat, j: nat)
    requires max > 0 && i < j < i + max
    ensures Cell(base, max, i) != Cell(base, max, j)
  {
    var r := i % max;
    assert i == i / max * max + r;
    if j % max == r {
      assert j == j / max * max + r;
      if i / max < j / max {
        ProductGrows(i / max, j / max, max);
      } else if j / max < i / max {
        ProductGrows(j / max, i / max, max);
      }
    }
  }

  /** A window in use: everything put in so far and how much of it has been taken out. The two
      pointers are 16-bit registers that started at `start`. */
  datatype Fifo = Fifo(mem: seq<byte>, wr: u16, rd: u16, put: seq<byte>, got: nat)

  /** The bytes put in but not yet taken are in their cells, and the pointers are where they should be. */
  ghost predicate Inv(f: Fifo, base: nat, max: nat, start: nat) {
    && WindowSize(max) && base + 2 * max <= |f.mem|
    && f.got <= |f.put| <= f.got + max
    && f.wr == (start + |f.put|) % 0x1_0000 && f.rd == (start + f.got) % 0x1_0000
    && forall k :: f.got <= k < |f.put| ==> InCell(f, base, max, start, k)
  }

  ghost predicate InCell(f: Fifo, base: nat, max: nat, start: nat, k: nat)
    requires max > 0 && base + max <= |f.mem| && k < |f.put|
  {
    f.mem[Cell(base, max, start + k)] == f.put[k]
  }

  /** Putting bytes in or taking them out, in two pieces (split) or byte by byte. */
  datatype Op = Put1(data: seq<byte>, split: bool) | Get1(n: nat, split: bool)

  predicate Fits(f: Fifo, max: nat, op: Op) {
    match op
    case Put1(data, _) => |f.put| - f.got + |data| <= max
    case Get1(n, _) => f.got + n <= |f.put|
  }

  function WriteForm(split: bool, m: seq<byte>, base: nat, max: nat, ptr: nat, data: seq<byte>): (r: seq<byte>)
    requires max > 0 && base + max + |data| <= |m|
    ensures |r| == |m|
  {
    if split then SplitWrite(m, base, max, ptr, data) else MaskedWrite(m, base, max, ptr, data)
  }

  function ReadForm(split: bool, m: seq<byte>, base: nat, max: nat, ptr: nat, len: nat): (r: seq<byte>)
    requires max > 0 && base + max + len <= |m|
    ensures |r| == len
  {
    if split then SplitRead(m, base, max, ptr, len) else MaskedRead(m, base, max, ptr, len)
  }

  /** One transfer: the new state and the bytes that came out. */
  function Do(f: Fifo, base: nat, max: nat, op: Op): (r: (Fifo, seq<byte>))
    requires max > 0 && base + 2 * max <= |f.mem| && |f.put| >= f.got && Fits(f, max, op) && |f.put| <= f.got + max
    ensures |r.0.mem| == |f.mem|
  {
    match op
    case Put1(data, split) =>
      var m := WriteForm(split, f.mem, base, max, f.wr, data);
      (f.(mem := m, wr := (f.wr + |data|) % 0x1_0000, put := f.put + data), [])
    case Get1(n, split) =>
      (f.(rd := (f.rd + n) % 0x1_0000, got := f.got + n), ReadForm(split, f.mem, base, max, f.rd, n))
  }

  lemma {:induction false} PutKeepsCells(f: Fifo, base: nat, max: nat, start: nat, data: seq<byte>, k: nat)
    requires Inv(f, base, max, start) && |f.put| - f.got + |data| <= max && f.got <= k < |f.put| + |data|
    ensures MaskedWrite(f.mem, base, max, start + |f.put|, data)[Cell(base, max, start + k)] == (f.put + data)[k]
    decreases |data|
  {
    hide Cell, WindowSize;
    if data == [] {
      assert InCell(f, base, max, start, k);
    } else {
      var n := |data| - 1;
      var at := start + |f.put| + n;
      if k < |f.put| + n {
        PutKeepsCells(f, base, max, start, data[..n], k);
        assert (f.put + data)[k] == (f.put + data[..n])[k];
        CellsApart(base, max, start + k, at);
      }
    }
  }

  lemma PutIsMasked(f: Fifo, base: nat, max: nat, start: nat, data: seq<byte>, split: bool)
    requires Inv(f, base, max, start) && |f.put| - f.got + |data| <= max
    ensures WriteForm(split, f.mem, base, max, f.wr, data) == MaskedWrite(f.mem, base, max, start + |f.put|, data)
  {
    hide MaskedWrite, SplitWrite, InCell, Cell;
    PointerWraps(start + |f.put|, max);
    SplitWriteIsMasked(f.mem, base, max, f.wr, data);
    MaskedShift(f.mem, base, max, f.wr, start + |f.put|, data);
  }

  lemma WrapAdds(x: nat, n: nat)
    ensures (x % 0x1_0000 + n) % 0x1_0000 == (x + n) % 0x1_0000
  {
  }

  lemma PutKeepsInv(f: Fifo, base: nat, max: nat, start: nat, data: seq<byte>, split: bool)
    requires Inv(f, base, max, start) && |f.put| - f.got + |data| <= max
    ensures Inv(Do(f, base, max, Put1(data, split)).0, base, max, start)
  {
    hide MaskedWrite, WriteForm, Cell;
    var g := Do(f, base, max, Put1(data, split)).0;
    PutIsMasked(f, base, max, start, data, split);
    WrapAdds(start + |f.put|, |data|);
    forall k | g.got <= k < |g.put| ensures InCell(g, base, max, start, k) {
      PutKeepsCells(f, base, max, start, data, k);
    }
  }

  /** What comes out is the next bytes that went in. */
  lemma GetIsNext(f: Fifo, base: nat, max: nat, start: nat, n: nat, split: bool)
    requires Inv(f, base, max, start) && f.got + n <= |f.put|
    ensures Inv(Do(f, base, max, Get1(n, split)).0, base, max, start)
    ensures Do(f, base, max, Get1(n, split)).1 == f.put[f.got..f.got + n]
  {
    hide SplitRead, Cell;
    WrapAdds(start + f.got, n);
    PointerWraps(start + f.got, max);
    SplitReadIsMasked(f.mem, base, max, f.rd, n);
    var r := MaskedRead(f.mem, base, max, f.rd, n);
    forall i | 0 <= i < n ensures r[i] == f.put[f.got..f.got + n][i] {
      CellCongruent(base, max, f.rd, start + f.got, i);
      assert InCell(f, base, max, start, f.got + i);
      assert start + f.got + i == start + (f.got + i);
    }
    var g := Do(f, base, max, Get1(n, split)).0;
    forall k | g.got <= k < |g.put| ensures InCell(g, base, max, start, k) {
      assert InCell(f, base, max, start, k);
    }
  }

  /** A whole run of transfers, each of which fits when it happens. */
  datatype Run = Run(f: Fifo, out: seq<byte>)

  ghost predicate Admissible(f: Fifo, base: nat, max: nat, start: nat, ops: seq<Op>)
    requires Inv(f, base, max, start)
    decreases |ops|
  {
    ops == [] ||
    (Fits(f, max, ops[0]) &&
     (DoKeepsInv(f, base, max, start, ops[0]);
      Admissible(Do(f, base, max, ops[0]).0, base, max, start, ops[1..])))
  }

  lemma DoKeepsInv(f: Fifo, base: nat, max: nat, start: nat, op: Op)
    requires Inv(f, base, max, start) && Fits(f, max, op)
    ensures Inv(Do(f, base, max, op).0, base, max, start)
  {
    hide Do, Inv;
    match op
    case Put1(data, split) => PutKeepsInv(f, base, max, start, data, split);
    case Get1(n, split) => GetIsNext(f, base, max, start, n, split);
  }

  ghost function DoAll(f: Fifo, base: nat, max: nat, start: nat, ops: seq<Op>): (r: Run)
    requires Inv(f, base, max, start) && Admissible(f, base, max, start, ops)
    decreases |ops|
  {
    if ops == [] then Run(f, [])
    else
      DoKeepsInv(f, base, max, start, ops[0]);
      var d := Do(f, base, max, ops[0]);
      var rest := DoAll(d.0, base, max, start, ops[1..]);
      Run(rest.f, d.1 + rest.out)
  }

  function AllPut(ops: seq<Op>): seq<byte> {
    if ops == [] then [] else (if ops[0].Put1? then ops[0].data else []) + AllPut(ops[1..])
  }

  /** Over any run of split or bytewise transfers, with pointers wrapping as often as they like, the
      bytes that come out are the bytes that went in, in order. */
  lemma {:induction false} StreamIsExact(f: Fifo, base: nat, max: nat, start: nat, ops: seq<Op>)
    requires Inv(f, base, max, start) && Admissible(f, base, max, start, ops)
    ensures var r := DoAll(f, base, max, start, ops);
            && r.f.put == f.put + AllPut(ops)
            && f.got <= r.f.got <= |r.f.put|
            && r.out == r.f.put[f.got..r.f.got]
            && Inv(r.f, base, max, start)
    decreases |ops|
  {
    hide Do, Inv, Fits;
    InvFacts(f, base, max, start);
    if ops == [] {
      assert f.put + [] == f.put;
    } else {
      var op := ops[0];
      DoKeepsInv(f, base, max, start, op);
      StepFacts(f, base, max, start, op);
      var d := Do(f, base, max, op);
      StreamIsExact(d.0, base, max, start, ops[1..]);
      var rest := DoAll(d.0, base, max, start, ops[1..]);
      StreamJoin(f, d, rest, op, ops[1..]);
    }
  }

  lemma InvFacts(f: Fifo, base: nat, max: nat, start: nat)
    requires Inv(f, base, max, start)
    ensures max > 0 && base + 2 * max <= |f.mem| && f.got <= |f.put| <= f.got + max
  {
  }

  lemma StepFacts(f: Fifo, base: nat, max: nat, start: nat, op: Op)
    requires Inv(f, base, max, start) && Fits(f, max, op)
    ensures var d := Do(f, base, max, op);
            && d.0.put == f.put + (if op.Put1? then op.data else [])
            && f.got <= d.0.got <= |f.put|
            && d.1 == f.put[f.got..d.0.got]
  {
    if op.Get1? {
      GetIsNext(f, base, max, start, op.n, op.split);
      assert f.put + [] == f.put;
    } else {
      assert f.put[f.got..f.got] == [];
    }
  }

  lemma StreamJoin(f: Fifo, d: (Fifo, seq<byte>), rest: Run, op: Op, ops: seq<Op>)
    requires f.got <= d.0.got <= |f.put| && d.0.put == f.put + (if op.Put1? then op.data else [])
    requires d.1 == f.put[f.got..d.0.got]
    requires rest.f.put == d.0.put + AllPut(ops) && d.0.got <= rest.f.got <= |rest.f.put|
    requires rest.out == rest.f.put[d.0.got..rest.f.got]
    ensures rest.f.put == f.put + AllPut([op] + ops)
    ensures d.1 + rest.out == rest.f.put[f.got..rest.f.got]
  {
    assert ([op] + ops)[1..] == ops;
    assert f.put[f.got..d.0.got] == rest.f.put[f.got..d.0.got];
  }

  /** Over the same runs no byte outside the window changes. */
  lemma {:induction false} StreamStaysInside(f: Fifo, base: nat, max: nat, start: nat, ops: seq<Op>, a: nat)
    requires Inv(f, base, max, start) && Admissible(f, base, max, start, ops)
    requires a < |f.mem| && !(base <= a < base + max)
    ensures var m := DoAll(f, base, max, start, ops).f.mem; |m| == |f.mem| && m[a] == f.mem[a]
    decreases |ops|
  {
    hide Do, Inv, Fits;
    InvFacts(f, base, max, start);
    if ops != [] {
      DoKeepsInv(f, base, max, start, ops[0]);
      StepStaysInside(f, base, max, start, ops[0], a);
      StreamStaysInside(Do(f, base, max, ops[0]).0, base, max, start, ops[1..], a);
    }
  }

  lemma StepStaysInside(f: Fifo, base: nat, max: nat, start: nat, op: Op, a: nat)
    requires Inv(f, base, max, start) && Fits(f, max, op) && a < |f.mem| && !(base <= a < base + max)
    ensures Do(f, base, max, op).0.mem[a] == f.mem[a]
  {
    hide WriteForm, ReadForm, MaskedWrite, InCell;
    if op.Put1? {
      PutIsMasked(f, base, max, start, op.data, op.split);
      MaskedStaysInside(f.mem, base, max, start + |f.put|, op.data, a);
    }
  }

  // ------------------------------------------------------------------- the driver

  /** Sending at most a window's worth of bytes, in two pieces, leaves every other socket's window alone,
      in this block and (when the sizes sum to 8 KB) outside the block. */
  lemma SendStaysInside(m: seq<byte>, memory: nat, sizes: byte, sn: nat, ptr: nat, data: seq<byte>, a: nat)
    requires sn < SOCKETS && a < |m|
    requires Base(memory, sizes, sn) + Max(sizes, sn) <= |m| && |data| <= Max(sizes, sn)
    requires (exists j: nat :: j < SOCKETS && j != sn && InWindow(memory, sizes, j, a)) ||
             (Base(memory, sizes, SOCKETS) <= memory + 0x2000 && !(memory <= a < memory + 0x2000))
    ensures SplitWrite(m, Base(memory, sizes, sn), Max(sizes, sn), ptr, data)[a] == m[a]
  {
    hide SplitWrite, MaskedWrite;
    if InWindow(memory, sizes, sn, a) {
      if j: nat :| j < SOCKETS && j != sn && InWindow(memory, sizes, j, a) {
        WindowsApart(memory, sizes, sn, j, a);
      }
      WindowsApart(memory, sizes, sn, sn, a);
    } else {
      var base, max := Base(memory, sizes, sn), Max(sizes, sn);
      SplitWriteIsMasked(m, base, max, ptr, data);
      MaskedStaysInside(m, base, max, ptr, data, a);
    }
  }

  /** WIZCHIP_WRITE_BUF: one byte after the other, at 16-bit addresses. */
  method WriteBuf(mem: array<byte>, a: nat, data: seq<byte>)
    requires mem.Length == SPACE_SIZE
    modifies mem
    ensures mem[..] == WriteAt(old(mem[..]), a, data)
  {
    ghost var m := mem[..];
    var i := 0;
    while i < |data|
      invariant 0 <= i <= |data| && mem[..] == WriteAt(m, a, data[..i])
    {
      assert data[..i + 1][..i] == data[..i];
      mem[(a + i) % SPACE_SIZE] := data[i];
      i := i + 1;
    }
    assert data[..i] == data;
  }

  /** WIZCHIP_READ_BUF, into buf from position at on. */
  method ReadBuf(mem: array<byte>, a: nat, buf: array<byte>, at: nat, len: nat)
    requires buf != mem && mem.Length == SPACE_SIZE && at + len <= buf.Length
    modifies buf
    ensures buf[at..at + len] == ReadAt(mem[..], a, len)
    ensures buf[..at] == old(buf[..at]) && buf[at + len..] == old(buf[at + len..])
  {
    ghost var all := ReadAt(mem[..], a, len);
    var i := 0;
    while i < len
      invariant 0 <= i <= len
      invariant buf[at..at + i] == all[..i]
      invariant buf[..at] == old(buf[..at]) && buf[at + i..] == old(buf[at + i..])
    {
      buf[at + i] := mem[(a + i) % SPACE_SIZE];
      assert all[..i + 1] == all[..i] + [all[i]];
      assert buf[at..at + i + 1] == buf[at..at + i] + [buf[at + i]];
      i := i + 1;
    }
  }

  lemma SplitReadPieces(m: seq<byte>, base: nat, max: nat, ptr: nat, len: nat)
    requires max > 0 && |m| > 0
    ensures var off := ptr % max;
            SplitRead(m, base, max, ptr, len) ==
            if off + len > max then ReadAt(m, base + off, max - off) + ReadAt(m, base, len - (max - off))
            else ReadAt(m, base + off, len)
  {
  }

  /** The copy of wiz_recv_data. */
  method ReadPieces(mem: array<byte>, base: nat, max: nat, ptr: nat, buf: array<byte>, at: nat, len: nat)
    requires buf != mem && max > 0 && mem.Length == SPACE_SIZE && at + len <= buf.Length
    modifies buf
    ensures buf[at..at + len] == SplitRead(mem[..], base, max, ptr, len)
    ensures buf[..at] == old(buf[..at]) && buf[at + len..] == old(buf[at + len..])
  {
    hide SplitRead, ReadAt;
    SplitReadPieces(mem[..], base, max, ptr, len);
    var off := ptr % max;
    if off + len > max {
      var size := max - off;
      ReadBuf(mem, base + off, buf, at, size);
      ghost var one := buf[at..at + size];
      label second:
      ReadBuf(mem, base, buf, at + size, len - size);
      ghost var two := buf[at + size..at + len];
      ghost var low := buf[..at + size];
      assert low == old@second(buf[..at + size]);
      assert one == low[at..];
      assert buf[at..at + len] == one + two;
      assert buf[..at] == low[..at];
      assert buf[at + len..] == old@second(buf[at + size..])[len - size..];
    } else {
      ReadBuf(mem, base + off, buf, at, len);
    }
  }

  /** The chip as the driver sees it: its address space, the two size registers, and each socket's
      transmit write pointer and receive read pointer. */
  class Chip {
    const mem: array<byte>
    var tmsr: byte
    var rmsr: byte
    const txWr: array<u16>
    const rxRd: array<u16>

    ghost predicate Valid()
      reads this
    {
      mem.Length == 0x1_0000 && txWr.Length == 4 && rxRd.Length == 4 && txWr != rxRd
    }

    constructor (tmsr: byte, rmsr: byte)
      ensures Valid() && fresh(mem) && fresh(txWr) && fresh(rxRd)
      ensures this.tmsr == tmsr && this.rmsr == rmsr
    {
      mem := new byte[SPACE_SIZE](i => 0);
      txWr := new u16[SOCKETS](i => 0);
      rxRd := new u16[SOCKETS](i => 0);
      this.tmsr, this.rmsr := tmsr, rmsr;
    }

    ghost predicate Sent(was: seq<byte>, ptrs: seq<u16>, sn: nat, data: seq<byte>)
      requires Valid() && sn < 4 && |was| == 0x1_0000 && |ptrs| == 4
      reads this, mem, txWr
    {
      var base, max := Base(0x4000, tmsr, sn), Max(tmsr, sn);
      && mem[..] == SplitWrite(was, base, max, ptrs[sn], data)
      && txWr[..] == ptrs[sn := (ptrs[sn] + |data|) % 0x1_0000]
      && (ptrs[sn] % max + |data| <= 2 * max ==> mem[..] == MaskedWrite(was, base, max, ptrs[sn], data))
    }

    /** wiz_send_data. */
    method SendData(sn: nat, data: seq<byte>)
      requires Valid() && sn < 4 && |data| < 0x1_0000
      modifies mem, txWr
      ensures Valid() && Sent(old(mem[..]), old(txWr[..]), sn, data)
    {
      hide WriteAt, MaskedWrite, Base;
      ghost var was, ptrs := mem[..], txWr[..];
      var ptr: u16 := txWr[sn];
      var max := Max(tmsr, sn);
      var off := ptr % max;
      var base := BaseLoop(TX_MEMORY, tmsr, sn);
      if off + |data| > max {
        var size := max - off;
        WriteBuf(mem, base + off, data[..size]);
        WriteBuf(mem, base, data[size..]);
      } else {
        WriteBuf(mem, base + off, data);
      }
      txWr[sn] := (ptr + |data|) % 0x1_0000;
      if off + |data| <= 2 * max {
        SplitWriteIsMasked(was, base, max, ptr, data);
      }
    }

    ghost predicate Received(ptrs: seq<u16>, sn: nat, got: seq<byte>)
      requires Valid() && sn < 4 && |ptrs| == 4
      reads this, mem, rxRd
    {
      var base, max := Base(0x6000, rmsr, sn), Max(rmsr, sn);
      && got == SplitRead(mem[..], base, max, ptrs[sn], |got|)
      && rxRd[..] == ptrs[sn := (ptrs[sn] + |got|) % 0x1_0000]
      && (ptrs[sn] % max + |got| <= 2 * max ==> got == MaskedRead(mem[..], base, max, ptrs[sn], |got|))
    }

    /** wiz_recv_data, into buf from position at on. */
    method RecvData(sn: nat, buf: array<byte>, at: nat, len: nat)
      requires Valid() && sn < 4 && len < 0x1_0000
      requires buf != mem && at + len <= buf.Length
      modifies buf, rxRd
      ensures Valid() && Received(old(rxRd[..]), sn, buf[at..at + len])
      ensures buf[..at] == old(buf[..at]) && buf[at + len..] == old(buf[at + len..])
    {
      hide MaskedRead, SplitRead, Base, Max;
      ghost var ptrs := rxRd[..];
      var ptr: u16 := rxRd[sn];
      var max := Max(rmsr, sn);
      var off := ptr % max;
      var base := BaseLoop(RX_MEMORY, rmsr, sn);
      ReadPieces(mem, base, max, ptr, buf, at, len);
      rxRd[sn] := (ptr + len) % 0x1_0000;
      if off + len <= 2 * max {
        SplitReadIsMasked(mem[..], base, max, ptr, len);
      }
    }
  }
}
