/** An ATA device as its host sees it: task-file registers, a status byte, and a data port
    that follows the PIO data-in and data-out protocols (sections 9.5 and 9.6 of ATA/ATAPI-6). */
module AtaDevice {
  import opened Machine

  type sector = s: seq<byte> | |s| == 512 witness seq(512, _ => 0)

  const LBA_LIMIT := 0x1000_0000
  const CMD_READ: byte := 0x20
  const CMD_WRITE: byte := 0x30
  const CMD_SET_FEATURE: byte := 0xEF

  predicate Bsy(v: byte) { v >= 0x80 }

  predicate Drq(v: byte) { v / 8 % 2 == 1 }

  predicate Err(v: byte) { v % 2 == 1 }

  /** BSY, DRQ and ERR are bits 7, 3 and 0 of the status byte. */
  lemma StatusBits(b: nat, x: nat, d: nat, y: nat, e: nat)
    requires b < 2 && x < 8 && d < 2 && y < 4 && e < 2
    ensures var v := 128 * b + 16 * x + 8 * d + 2 * y + e;
            v < 256 && (Bsy(v) <==> b == 1) && (Drq(v) <==> d == 1) && (Err(v) <==> e == 1)
  {
    var v := 128 * b + 16 * x + 8 * d + 2 * y + e;
    assert v / 8 == 16 * b + 2 * x + d;
    assert v == 2 * (64 * b + 8 * x + 4 * d + y) + e;
  }

  // ------------------------------------------------------------------ addresses

  /** The task-file registers that carry a sector address. */
  datatype Regs = Regs(driveHead: byte, cylHigh: byte, cylLow: byte, sectorNum: byte)

  /** What the driver writes for a sector number. */
  function LbaRegs(lba: u32): Regs {
    Regs(0xE0 + lba / 0x100_0000 % 16, lba / 0x1_0000 % 256, lba / 0x100 % 256, lba % 256)
  }

  /** The four parts of a 28-bit sector number each go into their register, and the drive/head register selects LBA
      mode and the first drive. */
  lemma LbaParts(sect: nat, low: nat, high: nat, head: nat)
    requires sect < 256 && low < 256 && high < 256 && head < 16
    ensures LbaRegs(sect + 256 * low + 65536 * high + 16777216 * head) == Regs(0xE0 + head, high, low, sect)
  {
    var lba := sect + 256 * low + 65536 * high + 16777216 * head;
    assert lba / 0x100 == low + 256 * high + 65536 * head;
    assert lba / 0x1_0000 == high + 256 * head;
    assert lba / 0x100_0000 == head;
  }

  /** How the device reads them (28-bit addressing). */
  function DecodeLba(r: Regs): (lba: nat)
    ensures lba < LBA_LIMIT
  {
    r.driveHead % 16 * 0x100_0000 + r.cylHigh * 0x1_0000 + r.cylLow * 0x100 + r.sectorNum
  }

  /** The device addresses the sector the driver named, modulo 2^28. */
  lemma LbaRoundTrip(lba: u32)
    ensures DecodeLba(LbaRegs(lba)) == lba % LBA_LIMIT
  {
    var a, b, c := lba / 0x100, lba / 0x1_0000, lba / 0x100_0000;
    assert a == b * 256 + a % 256;
    assert b == c * 256 + b % 256;
    assert lba == a * 256 + lba % 256;
    assert c == c / 16 * 16 + c % 16;
  }

  // ------------------------------------------------------------------ the device

  /** Nothing to transfer, bytes the host still has to read, or bytes of a sector the host is writing. */
  datatype Phase = Idle | DataIn(left: seq<byte>) | DataOut(lba: nat, got: seq<byte>)

  /** What became of the last sector written: nothing yet, stored, or dropped. */
  datatype Verdict = Pending | Stored | Dropped

  /** A status byte with its error bit set or cleared. */
  function WithErr(v: byte, e: bool): (r: byte)
    ensures (Bsy(r) <==> Bsy(v)) && (Drq(r) <==> Drq(v)) && (Err(r) <==> e)
  {
    v - v % 2 + (if e then 1 else 0)
  }

  /** What the driver and the device say to each other. */
  datatype Event = Reg(r: Regs) | Command(c: byte) | Status(v: byte) | DataRead | DataWritten

  /** The stored sectors; those never written read as zeros. */
  type Media = map<nat, sector>

  function SectorAt(m: Media, k: nat): sector { if k in m then m[k] else seq(512, _ => 0) }

  class Device {
    /** How long each BSY period lasts, in status reads. */
    const latency: nat -> nat
    /** The status byte at the n-th status read, given the BSY reads still to come and whether data is due. */
    const view: (nat, nat, bool) -> byte
    /** Whether the device fails to store the n-th sector written to it. */
    const drops: nat -> bool
    var regs: Regs
    var phase: Phase
    var media: Media
    var busy: nat
    var periods: nat
    var polls: nat
    var writes: nat
    var verdict: Verdict
    ghost var trace: seq<Event>

    constructor (l: nat -> nat, v: (nat, nat, bool) -> byte, f: nat -> bool, m: Media)
      ensures latency == l && view == v && drops == f && media == m && phase == Idle && Valid()
      ensures busy == 0 && polls == 0 && writes == 0
    {
      latency, view, drops, media, phase := l, v, f, m, Idle;
      regs, busy, periods, polls, writes, verdict, trace := Regs(0, 0, 0, 0), 0, 0, 0, 0, Pending, [];
    }

    ghost predicate Valid()
      reads this
    {
      && (verdict == Dropped ==> writes > 0 && drops(writes - 1))
      && match phase
         case Idle => true
         case DataIn(left) => 0 < |left| <= 512
         case DataOut(lba, got) => |got| < 512
    }

    /** The status byte as it reads now. Once a sector has been written and BSY and DRQ are off, ERR says whether the
        device has dropped it. */
    function Shown(): byte
      reads this
    {
      var v := view(polls, busy, phase != Idle);
      if verdict == Pending || Bsy(v) || Drq(v) then v else WithErr(v, verdict == Dropped)
    }

    /** Status is what the protocol says: BSY while busy, then DRQ exactly when data is due, and never ERR; and
        every sector written is stored. */
    ghost predicate ErrorFree() {
      && (forall n: nat :: !drops(n))
      && forall n: nat, b: nat, due: bool ::
        var v := view(n, b, due);
        if b > 0 then Bsy(v) else !Bsy(v) && !Err(v) && (Drq(v) <==> due)
    }

    /** No error shows on account of anything but a dropped sector. */
    ghost predicate Silent() { forall n: nat, b: nat, due: bool :: !Err(view(n, b, due)) }

    /** None of the `count` sectors written from the n-th on is dropped. */
    ghost predicate StoresAll(n: nat, count: nat) { forall k :: n <= k < n + count ==> !drops(k) }

    /** BSY and DRQ come and go as the protocol says; errors may be reported. */
    ghost predicate Paced() {
      forall n: nat, b: nat, due: bool ::
        var v := view(n, b, due);
        (Bsy(v) <==> b > 0) && (b == 0 ==> (Drq(v) <==> due))
    }

    /** Every BSY period ends within `limit` status reads. */
    ghost predicate Prompt(limit: nat) { forall k: nat :: latency(k) < limit }

    /** ... and so does the present one. */
    ghost predicate Quick(limit: nat)
      reads this
    {
      Prompt(limit) && busy < limit
    }

    method ReadStatus() returns (v: byte)
      modifies this`busy, this`polls, this`trace
      ensures v == old(Shown())
      ensures busy == if old(busy) > 0 then old(busy) - 1 else 0
      ensures trace == old(trace) + [Status(v)]
      ensures forall n: nat :: old(Quick(n)) ==> Quick(n)
    {
      v := Shown();
      polls := polls + 1;
      if busy > 0 { busy := busy - 1; }
      trace := trace + [Status(v)];
    }

    method SetAddress(r: Regs)
      modifies this`regs, this`trace
      ensures regs == r && trace == old(trace) + [Reg(r)]
    {
      regs := r;
      trace := trace + [Reg(r)];
    }

    method WriteCommand(c: byte)
      modifies this`phase, this`busy, this`periods, this`verdict, this`trace
      ensures Valid() && verdict == Pending
      ensures phase == if c == 0x20 then DataIn(SectorAt(media, DecodeLba(regs)))
                       else if c == 0x30 then DataOut(DecodeLba(regs), []) else Idle
      ensures busy == latency(old(periods)) && trace == old(trace) + [Command(c)]
      ensures forall n: nat :: old(Quick(n)) ==> Quick(n)
    {
      var lba := DecodeLba(regs);
      phase := if c == CMD_READ then DataIn(SectorAt(media, lba))
               else if c == CMD_WRITE then DataOut(lba, [])
               else Idle;
      verdict := Pending;
      StartBusy();
      trace := trace + [Command(c)];
    }

    method StartBusy()
      modifies this`busy, this`periods
      ensures busy == latency(old(periods))
    {
      busy := latency(periods);
      periods := periods + 1;
    }

    /** One access to an 8-bit data port. Outside a data-in phase it reads as zero. */
    method ReadByte() returns (b: byte)
      requires Valid()
      modifies this`phase, this`busy, this`periods, this`trace
      ensures Valid() && trace == old(trace) + [DataRead]
      ensures old(phase).DataIn? ==> b == old(phase).left[0] && phase == Remaining(old(phase).left[1..])
      ensures phase != Idle ==> busy == old(busy)
      ensures forall n: nat :: old(Quick(n)) ==> Quick(n)
    {
      b := 0;
      if phase.DataIn? {
        b := phase.left[0];
        phase := Remaining(phase.left[1..]);
        if phase == Idle { StartBusy(); }
      }
      trace := trace + [DataRead];
    }

    /** One access to a 16-bit data port: two bytes in disk order, the first one high. */
    method ReadWord() returns (w: nat)
      requires Valid()
      modifies this`phase, this`busy, this`periods, this`trace
      ensures Valid() && trace == old(trace) + [DataRead] && w < 0x1_0000
      ensures old(phase).DataIn? && |old(phase).left| >= 2 ==>
                w == Word16(old(phase).left[0], old(phase).left[1]) && phase == Remaining(old(phase).left[2..])
      ensures phase != Idle ==> busy == old(busy)
      ensures forall n: nat :: old(Quick(n)) ==> Quick(n)
    {
      w := 0;
      if phase.DataIn? && |phase.left| >= 2 {
        w := Word16(phase.left[0], phase.left[1]);
        phase := Remaining(phase.left[2..]);
        if phase == Idle { StartBusy(); }
      }
      trace := trace + [DataRead];
    }

    method WriteByte(b: byte)
      requires Valid()
      modifies this`phase, this`media, this`busy, this`periods, this`writes, this`verdict, this`trace
      ensures Valid() && trace == old(trace) + [DataWritten]
      ensures old(phase).DataOut? ==> After(old(phase).lba, old(phase).got + [b], old(media), old(writes), old(verdict))
      ensures !old(phase).DataOut? ==> phase == old(phase) && media == old(media) && verdict == old(verdict)
      ensures phase != Idle ==> busy == old(busy)
      ensures forall n: nat :: old(Quick(n)) ==> Quick(n)
    {
      if phase.DataOut? {
        Accept(phase.got + [b]);
      }
      trace := trace + [DataWritten];
    }

    method WriteWord(w: nat)
      requires Valid() && w < 0x1_0000
      modifies this`phase, this`media, this`busy, this`periods, this`writes, this`verdict, this`trace
      ensures Valid() && trace == old(trace) + [DataWritten]
      ensures old(phase).DataOut? && |old(phase).got| <= 510 ==>
                After(old(phase).lba, old(phase).got + [w / 256, w % 256], old(media), old(writes), old(verdict))
      ensures !old(phase).DataOut? ==> phase == old(phase) && media == old(media) && verdict == old(verdict)
      ensures phase != Idle ==> busy == old(busy)
      ensures forall n: nat :: old(Quick(n)) ==> Quick(n)
    {
      if phase.DataOut? && |phase.got| <= 510 {
        Accept(phase.got + [w / 256, w % 256]);
      }
      trace := trace + [DataWritten];
    }

    /** How the bytes taken in so far leave the device; a full sector is stored or dropped. */
    ghost predicate After(lba: nat, got: seq<byte>, m: Media, n: nat, v: Verdict)
      requires |got| <= 512
      reads this
    {
      if |got| == 512 then
        && phase == Idle && media == (if drops(n) then m else m[lba := got])
        && verdict == (if drops(n) then Dropped else Stored) && writes == n + 1
      else phase == DataOut(lba, got) && media == m && writes == n && verdict == v
    }

    method Accept(got: seq<byte>)
      requires Valid() && phase.DataOut? && |got| <= 512
      modifies this`phase, this`media, this`busy, this`periods, this`writes, this`verdict
      ensures Valid() && After(old(phase).lba, got, old(media), old(writes), old(verdict))
      ensures phase != Idle ==> busy == old(busy)
      ensures forall n: nat :: old(Quick(n)) ==> Quick(n)
    {
      var lba := phase.lba;
      if |got| == 512 {
        verdict := if drops(writes) then Dropped else Stored;
        if !drops(writes) {
          media := media[lba := got];
        }
        writes := writes + 1;
        phase := Idle;
        StartBusy();
      } else {
        phase := DataOut(lba, got);
      }
    }
  }

  function Remaining(left: seq<byte>): Phase { if left == [] then Idle else DataIn(left) }
}
