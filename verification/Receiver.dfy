/** The file receiver: the double read of the received-size register, the masked copies of socket 0,
    and the header/payload state machine that collects a file from a TCP stream. */
module Receiver {
  import opened Machine
  import opened W5100

  const RX_BASE := 0x6000
  const TX_BASE := 0x4000
  const WINDOW := 0x800
  const HEADER_LEN := 21

  // ---------------------------------------------------------------- the double read

  function Hi(x: nat): nat { x / 256 }
  function Lo(x: nat): nat { x % 256 }

  /** A 16-bit read is two byte reads, in the order the compiler chose; the register holds `a` at the first
      and `b` at the second. */
  function Torn(loFirst: bool, a: nat, b: nat): nat {
    if loFirst then 256 * Hi(b) + Lo(a) else 256 * Hi(a) + Lo(b)
  }

  /** What one round of the loop accepts: a zero first read, or two equal reads. */
  predicate Accepted(v1: nat, v2: nat) { v1 == 0 || v1 == v2 }

  /** While the register only grows, by however many steps and wherever they fall between the four byte
      reads, an accepted size never exceeds what is there; and when both reads take their bytes in the same
      order, an accepted size is zero or at least what was there when the pair began. */
  lemma DoubleReadNeverOverReports(f: bool, g: bool, r0: nat, r1: nat, r2: nat, r3: nat)
    requires r0 <= r1 <= r2 <= r3
    requires Accepted(Torn(f, r0, r1), Torn(g, r2, r3))
    ensures Torn(f, r0, r1) <= r3
    ensures f == g && Torn(f, r0, r1) != 0 ==> Torn(f, r0, r1) >= r0
  {
    HiGrows(r0, r1);
    HiGrows(r1, r2);
    HiGrows(r2, r3);
    var h0, h1, h2, h3 := Hi(r0), Hi(r1), Hi(r2), Hi(r3);
    var l0, l1, l2, l3 := Lo(r0), Lo(r1), Lo(r2), Lo(r3);
    var v := Torn(f, r0, r1);
    if v != 0 {
      if f && g {
        SameBytes(h1, l0, h3, l2);
        assert v == 256 * h2 + l2 == r2;
      } else if !f && !g {
        SameBytes(h0, l1, h2, l3);
        assert v == 256 * h1 + l1 == r1;
      } else if !f && g {
        SameBytes(h0, l1, h3, l2);
      } else {
        SameBytes(h1, l0, h2, l3);
      }
    }
  }

  lemma HiGrows(a: nat, b: nat)
    requires a <= b
    ensures Hi(a) <= Hi(b) && a == 256 * Hi(a) + Lo(a) && b == 256 * Hi(b) + Lo(b) && Lo(a) < 256 && Lo(b) < 256
  {
  }

  lemma SameBytes(h: nat, l: nat, h': nat, l': nat)
    requires l < 256 && l' < 256
    ensures 256 * h + l == 256 * h' + l' ==> h == h' && l == l'
  {
  }

  /** Without growth the first round is accepted, so a refused round means the register moved. */
  lemma RefusedMeansMoved(f: bool, g: bool, r0: nat, r1: nat, r2: nat, r3: nat)
    requires r0 <= r1 <= r2 <= r3
    requires !Accepted(Torn(f, r0, r1), Torn(g, r2, r3))
    ensures r0 < r3
  {
  }

  /** Growth is needed: with a register that may also fall, two equal torn reads can claim 511 bytes when
      the register never held more than 256. */
  lemma FallingRegisterOverReports()
    ensures Accepted(Torn(false, 256, 255), Torn(false, 256, 255))
    ensures Torn(false, 256, 255) == 511
  {
  }

  // --------------------------------------------------------------- the state machine

  datatype Phase = Header | Payload

  /** The statics of the loop, and the bytes of the file buffer filled so far. */
  datatype Rx = Rx(phase: Phase, received: u32, total: u32, file: seq<byte>)

  /** One poll of an established connection. */
  datatype Polled = Polled(rx: Rx, consumed: nat, done: bool)

  /** The four little-endian bytes at the front of the header. */
  function Declared(h: seq<byte>): (n: u32)
    requires |h| >= 4
  {
    h[3] as int * 0x100_0000 + h[2] as int * 0x1_0000 + h[1] as int * 0x100 + h[0] as int
  }

  function Chunk(avail: u16, received: u32, total: u32): (n: nat)
    ensures n <= avail
  {
    var left := (total - received) % 0x1_0000_0000;
    if avail < left then avail else left
  }

  /** The established branch: `rest` is the unread part of the stream, of which at least `avail` bytes are here. */
  function Poll(s: Rx, avail: u16, rest: seq<byte>): (p: Polled)
    requires avail <= |rest|
    ensures p.consumed <= avail
  {
    if s.phase == Header then
      if avail >= 21 then
        Polled(Rx(Payload, 21, Declared(rest), rest[..21]), 21, false)
      else Polled(s, 0, false)
    else if avail > 0 then
      var n := Chunk(avail, s.received, s.total);
      var r := (s.received + n) % 0x1_0000_0000;
      var t := s.(received := r, file := s.file + rest[..n]);
      if r >= s.total then Polled(t.(phase := Header), n, true) else Polled(t, n, false)
    else Polled(s, 0, false)
  }

  /** Where a connection stands, relative to the stream it has been sent since the last file ended. */
  predicate OnTrack(s: Rx, stream: seq<byte>, consumed: nat) {
    && consumed <= |stream|
    && (s.phase == Header ==> consumed == 0)
    && (s.phase == Payload ==>
          && s.received == consumed && s.file == stream[..consumed]
          && 21 <= consumed && s.total == Declared(stream)
          && (s.total > 21 ==> s.received < s.total)
          && (s.total <= 21 ==> s.received == 21))
  }

  /** What a finished file is: exactly the declared bytes, if the declared size covers the header; otherwise
      too many, because the remaining count wraps round to nearly 2^32. */
  predicate Finished(s: Rx, stream: seq<byte>, consumed: nat) {
    && s.phase == Header && 21 <= consumed <= |stream|
    && s.total == Declared(stream) && s.received == consumed && s.file == stream[..consumed]
    && (if s.total >= 21 then consumed == s.total else consumed > 21 > s.total)
  }

  lemma PollKeepsTrack(s: Rx, avail: u16, stream: seq<byte>, consumed: nat)
    requires OnTrack(s, stream, consumed) && consumed + avail <= |stream|
    ensures var p := Poll(s, avail, stream[consumed..]);
            var c := consumed + p.consumed;
            if p.done then Finished(p.rx, stream, c) else OnTrack(p.rx, stream, c)
  {
    var rest := stream[consumed..];
    var p := Poll(s, avail, rest);
    if s.phase == Header {
      assert rest == stream;
    } else if avail > 0 {
      ChunkFits(avail, s.received, s.total);
      assert stream[..consumed] + rest[..p.consumed] == stream[..consumed + p.consumed];
    }
  }

  lemma ChunkFits(avail: u16, received: u32, total: u32)
    requires avail > 0
    requires total > HEADER_LEN ==> received < total
    requires total <= HEADER_LEN ==> received == HEADER_LEN
    ensures var n := Chunk(avail, received, total);
            && (total > HEADER_LEN ==> 0 < n <= total - received && (n == avail || received + n == total))
            && (total == HEADER_LEN ==> n == 0)
            && (total < HEADER_LEN ==> n == avail && received + n < 0x1_0000_0000)
  {
  }

  /** A whole run: polls until one ends the file, whatever sizes they see. */
  datatype Outcome = Outcome(rx: Rx, consumed: nat, done: bool)

  /** The sizes the polls see never exceed what the stream has left; `avails` is the fragmentation. */
  predicate Honest(s: Rx, rest: seq<byte>, avails: seq<u16>)
    decreases |avails|
  {
    avails == [] ||
    (avails[0] <= |rest| &&
     var p := Poll(s, avails[0], rest);
     p.done || Honest(p.rx, rest[p.consumed..], avails[1..]))
  }

  function Polls(s: Rx, rest: seq<byte>, avails: seq<u16>): (o: Outcome)
    requires Honest(s, rest, avails)
    ensures o.consumed <= |rest|
    decreases |avails|
  {
    if avails == [] then Outcome(s, 0, false)
    else
      var p := Poll(s, avails[0], rest);
      if p.done then Outcome(p.rx, p.consumed, true)
      else
        var o := Polls(p.rx, rest[p.consumed..], avails[1..]);
        Outcome(o.rx, p.consumed + o.consumed, o.done)
  }

  /** For every stream and every fragmentation of its arrival: while the file is unfinished the buffer holds
      exactly the stream's first bytes_recebidos bytes, and a finished buffer is what Finished says. */
  lemma {:induction false} ReceiverHoldsPrefix(s: Rx, stream: seq<byte>, consumed: nat, avails: seq<u16>)
    requires OnTrack(s, stream, consumed) && Honest(s, stream[consumed..], avails)
    ensures var o := Polls(s, stream[consumed..], avails);
            var c := consumed + o.consumed;
            if o.done then Finished(o.rx, stream, c) else OnTrack(o.rx, stream, c)
    decreases |avails|
  {
    hide Poll, OnTrack, Finished;
    TrackFacts(s, stream, consumed);
    if avails != [] {
      var rest := stream[consumed..];
      PollKeepsTrack(s, avails[0], stream, consumed);
      var p := Poll(s, avails[0], rest);
      if !p.done {
        assert rest[p.consumed..] == stream[consumed + p.consumed..];
        ReceiverHoldsPrefix(p.rx, stream, consumed + p.consumed, avails[1..]);
      }
    }
  }

  lemma TrackFacts(s: Rx, stream: seq<byte>, consumed: nat)
    requires OnTrack(s, stream, consumed)
    ensures consumed <= |stream|
  {
  }

  /** From a fresh connection, a run that ends the file leaves exactly the first tamanho_total bytes of the
      stream in the buffer if and only if the declared size is at least the header's own 21 bytes. */
  lemma CompletesExactlyIff(s: Rx, stream: seq<byte>, avails: seq<u16>)
    requires s.phase == Header && Honest(s, stream, avails) && Polls(s, stream, avails).done
    ensures var r := Polls(s, stream, avails).rx;
            && |stream| >= HEADER_LEN && r.total == Declared(stream)
            && r.received <= |stream| && r.total <= |stream| && r.file == stream[..r.received]
            && (r.file == stream[..r.total] <==> Declared(stream) >= HEADER_LEN)
  {
    hide Polls, Honest;
    assert stream[0..] == stream;
    ReceiverHoldsPrefix(s, stream, 0, avails);
    var r := Polls(s, stream, avails).rx;
    assert |r.file| == r.received;
  }

  /** The stream starts with n, least significant byte first. */
  predicate SizeInFront(stream: seq<byte>, n: u32) {
    && |stream| >= 4 && stream[0] == n % 256 && stream[1] == n / 256 % 256
    && stream[2] == n / 65536 % 256 && stream[3] == n / 16777216
  }

  lemma SizeIsRead(stream: seq<byte>, n: u32)
    requires SizeInFront(stream, n)
    ensures Declared(stream) == n
  {
    var h := n / 65536;
    assert n == 65536 * h + 256 * (n / 256 % 256) + n % 256;
    assert h == 256 * (h / 256) + h % 256 && h / 256 == n / 16777216;
  }

  /** A run over a file whose header gives its size n, when it ends, has taken exactly its n bytes if n is at least
      21, and more than 21 bytes otherwise. */
  lemma DeclaredSizeIsReceived(s: Rx, stream: seq<byte>, n: u32, avails: seq<u16>)
    requires s.phase == Header && SizeInFront(stream, n) && Honest(s, stream, avails) && Polls(s, stream, avails).done
    ensures var o := Polls(s, stream, avails);
            && o.rx.file == stream[..o.consumed] && o.rx.received == o.consumed
            && (if n >= 21 then o.consumed == n else o.consumed > 21)
  {
    hide Polls, Honest, Declared;
    SizeIsRead(stream, n);
    assert stream[0..] == stream;
    ReceiverHoldsPrefix(s, stream, 0, avails);
  }

  /** Such runs exist: the header in one piece and the rest in another. */
  lemma TwoPollsEnd(s: Rx, stream: seq<byte>, n: u32)
    requires s.phase == Header && SizeInFront(stream, n) && 21 < n <= |stream| && n - 21 < 65536
    ensures Honest(s, stream, [21, n - 21]) && Polls(s, stream, [21, n - 21]).done
  {
    hide Declared;
    SizeIsRead(stream, n);
    assert [21, n - 21][1..] == [n - 21] && [n - 21][1..] == [];
    var p := Poll(s, 21, stream);
    assert Poll(p.rx, n - 21, stream[21..]).done;
  }

  /** Every payload poll that sees data advances, so once the header is in, as many data-carrying polls as
      there are bytes left (one more for a header-only file) end the file. */
  lemma {:induction false} RunEnds(s: Rx, stream: seq<byte>, consumed: nat, avails: seq<u16>)
    requires OnTrack(s, stream, consumed) && Honest(s, stream[consumed..], avails) && s.phase == Payload
    requires forall i :: 0 <= i < |avails| ==> avails[i] > 0
    requires |avails| > 0 && |avails| >= s.total - s.received
    ensures Polls(s, stream[consumed..], avails).done
    decreases |avails|
  {
    var rest := stream[consumed..];
    var p := Poll(s, avails[0], rest);
    ChunkFits(avails[0], s.received, s.total);
    PollKeepsTrack(s, avails[0], stream, consumed);
    if !p.done {
      assert rest[p.consumed..] == stream[consumed + p.consumed..];
      RunEnds(p.rx, stream, consumed + p.consumed, avails[1..]);
    }
  }

  // ------------------------------------------------------------------- socket 0

  /** Time passes: more of the stream may arrive, nothing else changes. */
  predicate Grew(a: Fifo, b: Fifo) {
    b.got == a.got && b.rd == a.rd && a.put <= b.put
  }

  ghost predicate Held(f: Fifo, start: nat, stream: seq<byte>) {
    Inv(f, 0x6000, 0x800, start) && f.put <= stream
  }

  function Level(f: Fifo): int { |f.put| - f.got }

  lemma HeldFacts(f: Fifo, start: nat, stream: seq<byte>)
    requires Held(f, start, stream)
    ensures 0 <= Level(f) <= WINDOW && |f.put| <= |stream| && RX_BASE + 2 * WINDOW <= |f.mem|
    ensures f.put == stream[..|f.put|]
  {
  }

  function Arrive(f: Fifo, n: nat, stream: seq<byte>): (g: Fifo)
    requires 0 <= Level(f) && Level(f) + n <= WINDOW && RX_BASE + 2 * WINDOW <= |f.mem| && |f.put| + n <= |stream|
  {
    Do(f, RX_BASE, WINDOW, Put1(stream[|f.put|..|f.put| + n], false)).0
  }

  lemma ArriveHolds(f: Fifo, n: nat, start: nat, stream: seq<byte>)
    requires Held(f, start, stream) && Level(f) + n <= WINDOW && |f.put| + n <= |stream|
    ensures Held(Arrive(f, n, stream), start, stream) && Grew(f, Arrive(f, n, stream))
  {
    hide Inv, WriteForm;
    HeldFacts(f, start, stream);
    var data := stream[|f.put|..|f.put| + n];
    PutKeepsInv(f, RX_BASE, WINDOW, start, data, false);
    assert f.put + data == stream[..|f.put| + n];
  }

  /** Byte i past the read pointer, found under the mask, is byte i of what is unread. */
  lemma UnreadByte(f: Fifo, start: nat, stream: seq<byte>, i: nat)
    requires Held(f, start, stream) && i < Level(f)
    ensures |f.mem| >= RX_BASE + WINDOW
    ensures f.mem[RX_BASE + (f.rd + i) % WINDOW] == f.put[f.got + i]
  {
    HeldFacts(f, start, stream);
    PointerWraps(start + f.got, WINDOW);
    CellCongruent(RX_BASE, WINDOW, f.rd, start + f.got, i);
    assert InCell(f, RX_BASE, WINDOW, start, f.got + i);
    assert start + (f.got + i) == start + f.got + i;
  }

  function Drop(f: Fifo, n: nat): (g: Fifo)
    requires n <= Level(f)
  {
    f.(rd := (f.rd + n) % 0x1_0000, got := f.got + n)
  }

  lemma DropHolds(f: Fifo, n: nat, start: nat, stream: seq<byte>)
    requires Held(f, start, stream) && n <= Level(f)
    ensures Held(Drop(f, n), start, stream)
  {
    hide Inv, ReadForm;
    HeldFacts(f, start, stream);
    GetIsNext(f, RX_BASE, WINDOW, start, n, false);
  }

  const CR_OPEN: byte := 0x01
  const CR_LISTEN: byte := 0x02
  const CR_DISCON: byte := 0x08
  const CR_SEND: byte := 0x20
  const CR_RECV: byte := 0x40

  lemma TakesNext(d: seq<byte>, d': seq<byte>, at: nat, i: nat, put: seq<byte>, got: nat)
    requires at + i < |d| && got + i < |put| && d' == d[at + i := put[got + i]]
    requires d[at..at + i] == put[got..got + i]
    ensures d'[at..at + i + 1] == put[got..got + i + 1]
    ensures d'[..at] == d[..at] && d'[at + i + 1..] == d[at + i..][1..]
  {
    assert d'[at..at + i + 1] == d[at..at + i] + [put[got + i]];
    assert put[got..got + i + 1] == put[got..got + i] + [put[got + i]];
  }

  /** The chip side of socket 0. At every register or buffer read, some more of what the peer sends may have
      arrived: as much as `pace` says for that moment, and no more than the window has room for. */
  class Socket {
    var f: Fifo
    var stream: seq<byte>
    var start: nat
    var now: nat
    const pace: nat -> nat
    const loFirst: bool
    const txMem: array<byte>
    var txWr: u16
    var log: seq<byte>

    constructor (stream: seq<byte>, start: nat, pace: nat -> nat, loFirst: bool)
      ensures Valid() && f.got == 0 && this.stream == stream && fresh(txMem)
    {
      var mem := seq(SPACE_SIZE, i => 0);
      f, this.stream, this.start, now := Opened(mem, start), stream, start, 0;
      this.pace, this.loFirst := pace, loFirst;
      txMem, txWr, log := new byte[SPACE_SIZE](i => 0), 0, [];
      new;
      OpenHolds(mem, start, stream);
    }

    ghost predicate Valid()
      reads this
    {
      Held(f, start, stream) && txMem.Length == SPACE_SIZE
    }

    method Tick()
      requires Valid()
      modifies this`f, this`now
      ensures Valid() && Grew(old(f), f)
    {
      hide Arrive, Held, Grew;
      HeldFacts(f, start, stream);
      var n := pace(now);
      if n > WINDOW - Level(f) {
        n := WINDOW - Level(f);
      }
      if n > |stream| - |f.put| {
        n := |stream| - |f.put|;
      }
      ArriveHolds(f, n, start, stream);
      f := Arrive(f, n, stream);
      now := now + 1;
    }

    /** w5100_read16 of the received-size register. */
    method ReadSize() returns (v: nat, ghost r0: nat, ghost r1: nat)
      requires Valid()
      modifies this`f, this`now
      ensures Valid() && Grew(old(f), f)
      ensures v == Torn(loFirst, r0, r1) && old(Level(f)) <= r0 <= r1 == Level(f)
    {
      hide Held;
      HeldFacts(f, start, stream);
      Tick();
      HeldFacts(f, start, stream);
      r0 := Level(f);
      var first := if loFirst then Lo(Level(f)) else Hi(Level(f));
      Tick();
      HeldFacts(f, start, stream);
      r1 := Level(f);
      v := if loFirst then 256 * Hi(Level(f)) + first else 256 * first + Lo(Level(f));
    }

    /** w5100_get_rx_size. */
    method GetRxSize() returns (n: u16)
      requires Valid()
      modifies this`f, this`now
      ensures Valid() && Grew(old(f), f)
      ensures n <= Level(f) <= WINDOW
      ensures n > 0 ==> old(Level(f)) <= n
    {
      hide Torn, Held;
      HeldFacts(f, start, stream);
      while true
        invariant Valid() && Grew(old(f), f) && 0 <= Level(f) <= WINDOW
        decreases WINDOW - Level(f)
      {
        var v1, r0, r1 := ReadSize();
        var v2, r2, r3 := 0, r1, r1;
        HeldFacts(f, start, stream);
        if v1 != 0 {
          v2, r2, r3 := ReadSize();
          HeldFacts(f, start, stream);
          if v1 == v2 {
            DoubleReadNeverOverReports(loFirst, loFirst, r0, r1, r2, r3);
            n := v1;
            return;
          }
          RefusedMeansMoved(loFirst, loFirst, r0, r1, r2, r3);
        } else {
          n := 0;
          return;
        }
      }
    }

    /** w5100_recv_bytes: data keeps arriving while the bytes are copied out. */
    method RecvBytes(dst: array<byte>, at: nat, len: nat)
      requires Valid() && len <= Level(f) && at + len <= dst.Length
      modifies this`f, this`now, this`log, dst
      ensures Valid() && f.got == old(f.got) + len && old(f.put) <= f.put
      ensures dst[at..at + len] == old(f.put)[old(f.got)..old(f.got) + len]
      ensures dst[..at] == old(dst[..at]) && dst[at + len..] == old(dst[at + len..])
      ensures log == old(log) + [0x40]
    {
      hide Held;
      ghost var f0 := f;
      HeldFacts(f, start, stream);
      var ptr := f.rd;
      var i := 0;
      while i < len
        invariant 0 <= i <= len && Valid() && Grew(f0, f) && 0 <= f0.got <= |f0.put|
        invariant log == old(log)
        invariant dst[at..at + i] == f0.put[f0.got..f0.got + i]
        invariant dst[..at] == old(dst[..at]) && dst[at + i..] == old(dst[at + i..])
      {
        Tick();
        HeldFacts(f, start, stream);
        UnreadByte(f, start, stream, i);
        var addr := RX_BASE + (ptr + i) % WINDOW;
        ghost var was := dst[..];
        dst[at + i] := f.mem[addr];
        TakesNext(was, dst[..], at, i, f0.put, f0.got);
        i := i + 1;
      }
      HeldFacts(f, start, stream);
      DropHolds(f, len, start, stream);
      f := Drop(f, len);
      log := log + [CR_RECV];
    }

    /** w5100_send_bytes. */
    method SendBytes(data: seq<byte>)
      requires Valid()
      modifies this`txWr, this`log, txMem
      ensures Valid() && log == old(log) + [0x20]
      ensures txMem[..] == MaskedWrite(old(txMem[..]), 0x4000, 0x800, old(txWr), data)
      ensures txWr == (old(txWr) + |data|) % 0x1_0000
    {
      hide Held;
      ghost var m := txMem[..];
      var ptr := txWr;
      var i := 0;
      while i < |data|
        invariant 0 <= i <= |data| && log == old(log)
        invariant txMem[..] == MaskedWrite(m, TX_BASE, WINDOW, ptr, data[..i])
      {
        assert data[..i + 1][..i] == data[..i];
        txMem[TX_BASE + (ptr + i) % WINDOW] := data[i];
        i := i + 1;
      }
      assert data[..i] == data;
      txWr := (ptr + |data|) % 0x1_0000;
      log := log + [CR_SEND];
    }

    method Command(c: byte)
      modifies this`log
      ensures log == old(log) + [c]
    {
      log := log + [c];
    }
  }

  // ------------------------------------------------------------------ the loop

  const SOCK_CLOSED: byte := 0x00
  const SOCK_INIT: byte := 0x13
  const SOCK_ESTABLISHED: byte := 0x17
  const SOCK_CLOSE_WAIT: byte := 0x1C

  /** Room for the largest file a header can declare. */
  const FILE_ROOM := 0x1_0001_0000

  /** "Arq lido". */
  const ACK: seq<byte> := [65, 114, 113, 32, 108, 105, 100, 111]

  lemma AckIsText(i: nat)
    requires i < 8
    ensures |ACK| == |"Arq lido"| == 8 && ACK[i] == "Arq lido"[i] as int
  {
  }

  class Getter {
    const sock: Socket
    const file: array<byte>
    const header: array<byte>
    var phase: Phase
    var received: u32
    var total: u32
    /** Where in the stream the current file began. */
    ghost var origin: nat

    constructor (sock: Socket, file: array<byte>)
      requires sock.Valid() && sock.f.got == 0 && file.Length >= FILE_ROOM && file != sock.txMem
      ensures Valid() && this.sock == sock && this.file == file && phase == Header && origin == 0
    {
      this.sock, this.file, header := sock, file, new byte[HEADER_LEN](i => 0);
      phase, received, total, origin := Header, 0, 0, 0;
    }

    ghost function State(): Rx
      requires file.Length >= FILE_ROOM
      reads this, file
    {
      Rx(phase, received, total, file[..received])
    }

    ghost predicate Apart()
      reads this
    {
      && file.Length >= FILE_ROOM && header.Length == HEADER_LEN
      && file != header && sock.txMem != file && sock.txMem != header
    }

    ghost predicate Valid()
      reads this, sock, file
    {
      && Apart() && sock.Valid()
      && origin <= sock.f.got <= |sock.stream|
      && OnTrack(State(), sock.stream[origin..], sock.f.got - origin)
    }

    /** What one poll of the established connection did, having seen `avail` bytes. */
    ghost predicate DidPoll(was: Rx, got: nat, from: nat, avail: u16, more: bool)
      reads this, sock, file
    {
      && file.Length >= FILE_ROOM && from <= got && got + avail <= |sock.stream|
      && var p := Poll(was, avail, sock.stream[got..]);
         && State() == p.rx && sock.f.got == got + p.consumed && more == !p.done
         && (p.done ==> Finished(State(), sock.stream[from..], sock.f.got - from))
    }

    method ReadHeader(avail: u16)
      requires Valid() && phase == Header && avail <= Level(sock.f) && avail >= HEADER_LEN
      modifies this, sock`f, sock`now, sock`log, file, header
      ensures Valid() && sock.stream == old(sock.stream) && origin == old(origin)
      ensures DidPoll(old(State()), old(sock.f.got), origin, avail, true)
      ensures sock.log == old(sock.log) + [0x40]
    {
      hide Held, OnTrack, Finished;
      ghost var was, got, rest := State(), sock.f.got, sock.stream[sock.f.got..];
      HeldFacts(sock.f, sock.start, sock.stream);
      PollTracks(was, avail, sock.stream, origin, got);
      ghost var put := sock.f.put;
      sock.RecvBytes(header, 0, HEADER_LEN);
      FrontOf(put, sock.stream, got, HEADER_LEN);
      assert header[..] == header[0..HEADER_LEN] == rest[..HEADER_LEN];
      total := Declared(header[..]);
      received := HEADER_LEN;
      phase := Payload;
      CopyHeader();
      assert file[..HEADER_LEN] == rest[..HEADER_LEN];
    }

    /** memcpy of the header to the front of the file buffer. */
    method CopyHeader()
      requires Apart()
      modifies file
      ensures file[..HEADER_LEN] == header[..]
    {
      var i := 0;
      while i < HEADER_LEN
        invariant 0 <= i <= HEADER_LEN && file[..i] == header[..i]
      {
        file[i] := header[i];
        assert header[..i + 1] == header[..i] + [header[i]];
        i := i + 1;
      }
    }

    method ReadPayload(avail: u16) returns (more: bool)
      requires Valid() && phase == Payload && avail <= Level(sock.f) && avail > 0
      modifies this, sock`f, sock`now, sock`log, sock`txWr, sock.txMem, file
      ensures Valid() && sock.stream == old(sock.stream)
      ensures DidPoll(old(State()), old(sock.f.got), old(origin), avail, more)
      ensures origin == if more then old(origin) else sock.f.got
      ensures sock.log == old(sock.log) + (if more then [0x40] else [0x40, 0x20, 0x08])
      ensures !more ==> sock.txMem[..] == MaskedWrite(old(sock.txMem[..]), 0x4000, 0x800, old(sock.txWr), ACK)
    {
      hide Held, Finished, MaskedWrite, OnTrack, Chunk, Poll;
      ghost var was, got := State(), sock.f.got;
      HeldFacts(sock.f, sock.start, sock.stream);
      PollTracks(was, avail, sock.stream, origin, got);
      PayloadFacts(was, avail, sock.stream[origin..], got - origin);
      var n := Chunk(avail, received, total);
      PayloadPoll(was, avail, sock.stream[got..], n);
      TakeBlock(n);
      more := received < total;
      if !more {
        Finish();
        NothingYet(State(), sock.stream[origin..]);
      }
    }

    /** The next n bytes go to the end of what the buffer holds. */
    method TakeBlock(n: nat)
      requires Apart() && sock.Valid() && n <= Level(sock.f) && received + n < 0x1_0000_0000
      requires sock.f.got + n <= |sock.stream|
      modifies this`received, sock`f, sock`now, sock`log, file
      ensures sock.Valid() && sock.f.got == old(sock.f.got) + n && sock.log == old(sock.log) + [0x40]
      ensures received == old(received) + n
      ensures var more := sock.stream[old(sock.f.got)..][..n];
              State() == old(State()).(received := received, file := old(State()).file + more)
    {
      hide Held;
      ghost var put, was := sock.f.put, file[..received];
      HeldFacts(sock.f, sock.start, sock.stream);
      sock.RecvBytes(file, received, n);
      FrontOf(put, sock.stream, old(sock.f.got), n);
      assert file[..received] == was;
      assert file[..received + n] == was + file[received..received + n];
      received := received + n;
    }

    /** The acknowledgement, and the end of the connection. */
    method Finish()
      requires sock.Valid() && Apart()
      modifies this`phase, this`origin, sock`log, sock`txWr, sock.txMem
      ensures phase == Header && origin == sock.f.got
      ensures sock.Valid() && sock.log == old(sock.log) + [0x20, 0x08]
      ensures sock.txMem[..] == MaskedWrite(old(sock.txMem[..]), 0x4000, 0x800, old(sock.txWr), ACK)
    {
      hide Held, MaskedWrite;
      sock.SendBytes(ACK);
      phase := Header;
      sock.Command(CR_DISCON);
      origin := sock.f.got;
    }

    /** w5100_getter_loop on an established connection. */
    method Established() returns (more: bool, ghost avail: u16)
      requires Valid()
      modifies this, sock`f, sock`now, sock`log, sock`txWr, sock.txMem, file, header
      ensures Valid() && sock.stream == old(sock.stream)
      ensures DidPoll(old(State()), old(sock.f.got), old(origin), avail, more)
      ensures avail > 0 ==> avail >= old(Level(sock.f))
      ensures origin == if more then old(origin) else sock.f.got
    {
      hide OnTrack, Finished, Held, MaskedWrite;
      HeldFacts(sock.f, sock.start, sock.stream);
      var n := sock.GetRxSize();
      HeldFacts(sock.f, sock.start, sock.stream);
      avail := n;
      more := true;
      if phase == Header {
        if n >= HEADER_LEN {
          ReadHeader(n);
        }
      } else if n > 0 {
        more := ReadPayload(n);
      }
    }

    /** w5100_getter_loop: one call with the status register read as `status`. `incoming` and `first` are the
        peer's next connection, should this call open one. */
    method GetterLoop(status: byte, incoming: seq<byte>, first: nat) returns (more: bool, ghost avail: u16)
      requires Valid()
      modifies this, sock, sock.txMem, file, header
      ensures Valid()
      ensures status == 0x00 ==>
                && more && phase == Header && origin == 0 && sock.stream == incoming
                && sock.log == old(sock.log) + [0x01]
      ensures status != 0x00 ==> sock.stream == old(sock.stream)
      ensures status == 0x17 ==> DidPoll(old(State()), old(sock.f.got), old(origin), avail, more)
      ensures status != 0x00 && status != 0x17 ==>
                && State() == old(State()) && sock.f == old(sock.f) && origin == old(origin)
                && more == (status != 0x1C)
                && sock.log == old(sock.log) +
                               (if status == 0x13 then [0x02] else if more then [] else [0x08])
    {
      hide OnTrack, Finished, Held;
      more, avail := true, 0;
      if status == SOCK_CLOSED {
        sock.Command(CR_OPEN);
        phase, received := Header, 0;
        HeldFacts(sock.f, sock.start, sock.stream);
        OpenHolds(sock.f.mem, first, incoming);
        sock.f, sock.stream, sock.start := Opened(sock.f.mem, first), incoming, first;
        origin := 0;
        NothingYet(State(), sock.stream[origin..]);
      } else if status == SOCK_INIT {
        sock.Command(CR_LISTEN);
      } else if status == SOCK_ESTABLISHED {
        more, avail := Established();
      } else if status == SOCK_CLOSE_WAIT {
        sock.Command(CR_DISCON);
        more := false;
      }
    }
  }

  function Opened(mem: seq<byte>, first: nat): (f: Fifo) {
    Fifo(mem, first % 0x1_0000, first % 0x1_0000, [], 0)
  }

  lemma OpenHolds(mem: seq<byte>, first: nat, stream: seq<byte>)
    requires RX_BASE + 2 * WINDOW <= |mem|
    ensures Held(Opened(mem, first), first, stream)
  {
  }

  lemma NothingYet(s: Rx, stream: seq<byte>)
    requires s.phase == Header
    ensures OnTrack(s, stream, 0)
  {
  }

  lemma PollTracks(s: Rx, avail: u16, stream: seq<byte>, origin: nat, got: nat)
    requires origin <= got && got + avail <= |stream| && OnTrack(s, stream[origin..], got - origin)
    ensures var p := Poll(s, avail, stream[got..]);
            var c := got - origin + p.consumed;
            if p.done then Finished(p.rx, stream[origin..], c) else OnTrack(p.rx, stream[origin..], c)
  {
    hide OnTrack, Finished, Poll;
    assert stream[origin..][got - origin..] == stream[got..];
    PollKeepsTrack(s, avail, stream[origin..], got - origin);
  }

  lemma PayloadFacts(s: Rx, avail: u16, stream: seq<byte>, consumed: nat)
    requires OnTrack(s, stream, consumed) && s.phase == Payload && avail > 0
    ensures s.received + Chunk(avail, s.received, s.total) < 0x1_0000_0000
  {
    ChunkFits(avail, s.received, s.total);
  }

  lemma PayloadPoll(s: Rx, avail: u16, rest: seq<byte>, n: nat)
    requires s.phase == Payload && 0 < avail <= |rest| && n == Chunk(avail, s.received, s.total)
    requires s.received + n < 0x1_0000_0000
    ensures var t := s.(received := s.received + n, file := s.file + rest[..n]);
            Poll(s, avail, rest) ==
            if t.received < t.total then Polled(t, n, false) else Polled(t.(phase := Header), n, true)
  {
  }

  lemma FrontOf(put: seq<byte>, stream: seq<byte>, got: nat, n: nat)
    requires put <= stream && got + n <= |put|
    ensures put[got..got + n] == stream[got..][..n]
  {
  }
}
