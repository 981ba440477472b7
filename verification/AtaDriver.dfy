/** The sector driver for the two disks: picoIDE (16-bit port, bounded polling, a bounce buffer
    for odd addresses) and MIDE (8-bit port). */
module AtaDriver {
  import opened Machine
  import opened AtaDevice

  const PICOIDE_TIMEOUT: nat := 2_000_000

  // ------------------------------------------------------------------- traces

  function Polls(vs: seq<byte>): (t: seq<Event>)
    ensures |t| == |vs|
  {
    seq(|vs|, i requires 0 <= i < |vs| => Status(vs[i]))
  }

  lemma PollsSnoc(vs: seq<byte>, v: byte)
    ensures Polls(vs + [v]) == Polls(vs) + [Status(v)]
  {
  }

  function Repeat(e: Event, n: nat): (t: seq<Event>)
    ensures |t| == n
  {
    seq(n, _ => e)
  }

  lemma RepeatSnoc(e: Event, n: nat)
    ensures Repeat(e, n + 1) == Repeat(e, n) + [e]
  {
  }

  predicate DataReady(v: byte) { !Bsy(v) && !Err(v) && Drq(v) }

  predicate Finished(v: byte) { !Bsy(v) && !Err(v) && !Drq(v) }

  /** What a picoIDE sector transfer looks like from outside, for every device: the address, the
      command, at most two million polls, the data port exactly 256 times or not at all and only
      after a status that is ready, at most as many polls again, and success only after a status
      that is finished. A failure reads the status once more for its message. */
  ghost predicate Transfer(t: seq<Event>, lba: u32, cmd: byte, access: Event, r: nat) {
    exists a: seq<byte>, n: nat, b: seq<byte>, log: seq<byte> ::
      && t == [Reg(LbaRegs(lba)), Command(cmd)] + Polls(a) + Repeat(access, n) + Polls(b) + Polls(log)
      && TransferShape(a, n, b, log, r)
  }

  predicate TransferShape(a: seq<byte>, n: nat, b: seq<byte>, log: seq<byte>, r: nat) {
    && |a| <= 2000000 && |b| <= 2000000 && |log| <= 1
    && (n == 0 || (n == 256 && a != [] && DataReady(a[|a| - 1])))
    && (r == 512 ==> n == 256 && b != [] && Finished(b[|b| - 1]) && log == [])
    && (r == 0 || r == 512)
  }

  // ----------------------------------------------------------------- picoIDE

  /** Polls until BSY=0 and DRQ or ERR. */
  method WaitDrq(d: Device) returns (ok: bool, ghost vs: seq<byte>)
    requires d.Valid()
    modifies d`busy, d`polls, d`trace
    ensures d.Valid() && d.trace == old(d.trace) + Polls(vs) && |vs| <= 2000000
    ensures ok ==> vs != [] && DataReady(vs[|vs| - 1])
    ensures d.ErrorFree() && d.phase != Idle && old(d.Quick(2000000)) ==> ok
    ensures forall n: nat :: old(d.Quick(n)) ==> d.Quick(n)
  {
    var t := PICOIDE_TIMEOUT;
    vs := [];
    while t > 0
      invariant |vs| == PICOIDE_TIMEOUT - t && d.trace == old(d.trace) + Polls(vs)
      invariant d.ErrorFree() && d.phase != Idle && old(d.Quick(PICOIDE_TIMEOUT)) ==> d.busy < t
      invariant forall n: nat :: old(d.Quick(n)) ==> d.Quick(n)
    {
      t := t - 1;
      var st := d.ReadStatus();
      PollsSnoc(vs, st);
      vs := vs + [st];
      if Bsy(st) { continue; }
      if Err(st) { return false, vs; }
      if Drq(st) { return true, vs; }
    }
    ok := false;
  }

  /** Polls until BSY=0 and DRQ=0. */
  method WaitIdle(d: Device) returns (ok: bool, ghost vs: seq<byte>)
    requires d.Valid()
    modifies d`busy, d`polls, d`trace
    ensures d.Valid() && d.trace == old(d.trace) + Polls(vs) && |vs| <= 2000000
    ensures ok ==> vs != [] && Finished(vs[|vs| - 1]) && d.verdict != Dropped
    ensures d.ErrorFree() && d.phase == Idle && old(d.Quick(2000000)) ==> ok
    ensures forall n: nat :: old(d.Quick(n)) ==> d.Quick(n)
  {
    var t := PICOIDE_TIMEOUT;
    vs := [];
    while t > 0
      invariant |vs| == PICOIDE_TIMEOUT - t && d.trace == old(d.trace) + Polls(vs)
      invariant d.ErrorFree() && d.phase == Idle && old(d.Quick(PICOIDE_TIMEOUT)) ==> d.busy < t
      invariant forall n: nat :: old(d.Quick(n)) ==> d.Quick(n)
    {
      t := t - 1;
      var st := d.ReadStatus();
      PollsSnoc(vs, st);
      vs := vs + [st];
      if Bsy(st) || Drq(st) { continue; }
      return !Err(st), vs;
    }
    ok := false;
  }

  /** `picoide_set_lba` and `picoide_command`. */
  method Start(d: Device, lba: u32, cmd: byte)
    requires d.Valid()
    modifies d
    ensures d.Valid() && d.media == old(d.media)
    ensures d.trace == old(d.trace) + [Reg(LbaRegs(lba)), Command(cmd)]
    ensures cmd == 0x20 ==> d.phase == DataIn(SectorAt(d.media, lba % LBA_LIMIT))
    ensures cmd == 0x30 ==> d.phase == DataOut(lba % LBA_LIMIT, [])
    ensures forall n: nat :: old(d.Quick(n)) ==> d.Quick(n)
  {
    LbaRoundTrip(lba);
    d.SetAddress(LbaRegs(lba));
    d.WriteCommand(cmd);
  }

  ghost predicate Outside(was: seq<byte>, now: seq<byte>, addr: nat, n: nat) {
    |now| == |was| && forall i :: 0 <= i < |was| && !(addr <= i < addr + n) ==> now[i] == was[i]
  }

  /** 256 words from the data port to an even address. */
  method ReadToRam(d: Device, ram: array<byte>, addr: nat)
    requires d.Valid() && addr + 512 <= ram.Length
    modifies d`phase, d`busy, d`periods, d`trace, ram
    ensures d.Valid() && d.trace == old(d.trace) + Repeat(DataRead, 256)
    ensures old(d.phase).DataIn? && |old(d.phase).left| == 512 ==>
              ram[addr..addr + 512] == old(d.phase).left && d.phase == Idle
    ensures Outside(old(ram[..]), ram[..], addr, 512)
    ensures forall n: nat :: old(d.Quick(n)) ==> d.Quick(n)
  {
    ghost var s := if d.phase.DataIn? && |d.phase.left| == 512 then d.phase.left else [];
    ghost var was := ram[..];
    var i: nat := 0;
    while i < 256
      invariant i <= 256 && d.Valid() && d.trace == old(d.trace) + Repeat(DataRead, i)
      invariant |s| == 512 ==> d.phase == Remaining(s[2 * i..])
      invariant |s| == 512 ==> forall k :: 0 <= k < 2 * i ==> ram[..][addr + k] == s[k]
      invariant Outside(was, ram[..], addr, 512)
      invariant forall n: nat :: old(d.Quick(n)) ==> d.Quick(n)
    {
      RepeatSnoc(DataRead, i);
      ghost var left := s[if |s| == 512 then 2 * i else 0..];
      var w := d.ReadWord();
      ram[addr + 2 * i] := w / 256;
      ram[addr + 2 * i + 1] := w % 256;
      if |s| == 512 {
        assert left[0] == s[2 * i] && left[1] == s[2 * i + 1] && left[2..] == s[2 * (i + 1)..];
      }
      i := i + 1;
    }
    assert |s| == 512 ==> ram[addr..addr + 512] == s;
  }

  /** 256 words from the data port to the bounce buffer. */
  method ReadToBounce(d: Device, bounce: array<nat>)
    requires d.Valid() && bounce.Length == 256
    modifies d`phase, d`busy, d`periods, d`trace, bounce
    ensures d.Valid() && d.trace == old(d.trace) + Repeat(DataRead, 256)
    ensures forall i :: 0 <= i < 256 ==> bounce[i] < 0x1_0000
    ensures old(d.phase).DataIn? && |old(d.phase).left| == 512 ==>
              Bytes(bounce[..]) == old(d.phase).left && d.phase == Idle
    ensures forall n: nat :: old(d.Quick(n)) ==> d.Quick(n)
  {
    ghost var s := if d.phase.DataIn? && |d.phase.left| == 512 then d.phase.left else [];
    var i: nat := 0;
    while i < 256
      invariant i <= 256 && d.Valid() && d.trace == old(d.trace) + Repeat(DataRead, i)
      invariant |s| == 512 ==> d.phase == Remaining(s[2 * i..])
      invariant forall k :: 0 <= k < i ==> bounce[k] < 0x1_0000
      invariant |s| == 512 ==> forall k :: 0 <= k < i ==> bounce[k] == Pair(s, k)
      invariant forall n: nat :: old(d.Quick(n)) ==> d.Quick(n)
    {
      RepeatSnoc(DataRead, i);
      ghost var left := s[if |s| == 512 then 2 * i else 0..];
      bounce[i] := d.ReadWord();
      if |s| == 512 {
        assert left[0] == s[2 * i] && left[1] == s[2 * i + 1] && left[2..] == s[2 * (i + 1)..];
      }
      i := i + 1;
    }
    if |s| == 512 {
      BytesOfPairs(bounce[..], s);
    }
  }

  /** Word k of a byte sequence, the first byte high. */
  function Pair(s: seq<byte>, k: nat): nat
    requires 2 * k + 1 < |s|
  {
    Word16(s[2 * k], s[2 * k + 1])
  }

  /** The bytes of a sequence of words, high byte first: what a word store leaves in memory. */
  function Bytes(ws: seq<nat>): (r: seq<byte>)
    requires forall i :: 0 <= i < |ws| ==> ws[i] < 0x1_0000
    ensures |r| == 2 * |ws|
  {
    seq(2 * |ws|, i requires 0 <= i < 2 * |ws| => if i % 2 == 0 then ws[i / 2] / 256 else ws[i / 2] % 256)
  }

  lemma BytesOfPairs(ws: seq<nat>, s: seq<byte>)
    requires |s| == 2 * |ws| && forall i :: 0 <= i < |ws| ==> ws[i] == Pair(s, i)
    ensures (forall i :: 0 <= i < |ws| ==> ws[i] < 0x1_0000) && Bytes(ws) == s
  {
    var r := Bytes(ws);
    forall i | 0 <= i < |s| ensures r[i] == s[i] {
      var k := i / 2;
      assert ws[k] == Word16(s[2 * k], s[2 * k + 1]);
      assert i == 2 * k || i == 2 * k + 1;
    }
  }

  /** `memcpy` of the bounce buffer's bytes. */
  method CopyOut(bounce: array<nat>, ram: array<byte>, addr: nat)
    requires bounce.Length == 256 && addr + 512 <= ram.Length
    requires forall i :: 0 <= i < 256 ==> bounce[i] < 0x1_0000
    modifies ram
    ensures ram[addr..addr + 512] == Bytes(bounce[..]) && Outside(old(ram[..]), ram[..], addr, 512)
  {
    ghost var data := Bytes(bounce[..]);
    ghost var was := ram[..];
    var i := 0;
    while i < 512
      invariant 0 <= i <= 512
      invariant forall k :: 0 <= k < i ==> ram[..][addr + k] == data[k]
      invariant Outside(was, ram[..], addr, 512)
    {
      assert data[i] == if i % 2 == 0 then bounce[i / 2] / 256 else bounce[i / 2] % 256;
      ram[addr + i] := if i % 2 == 0 then bounce[i / 2] / 256 else bounce[i / 2] % 256;
      i := i + 1;
    }
    assert ram[addr..addr + 512] == data;
  }

  lemma TransferMade(t0: seq<Event>, t1: seq<Event>, lba: u32, cmd: byte, access: Event, r: nat,
                     a: seq<byte>, n: nat, b: seq<byte>, log: seq<byte>)
    requires t1 == t0 + [Reg(LbaRegs(lba)), Command(cmd)] + Polls(a) + Repeat(access, n) + Polls(b) + Polls(log)
    requires TransferShape(a, n, b, log, r)
    ensures t0 <= t1 && Transfer(t1[|t0|..], lba, cmd, access, r)
  {
    hide LbaRegs, Polls, Repeat, TransferShape;
    var t := [Reg(LbaRegs(lba)), Command(cmd)] + Polls(a) + Repeat(access, n) + Polls(b) + Polls(log);
    assert t1 == t0 + t;
    assert t1[|t0|..] == t;
  }

  lemma NoEvents(e: Event)
    ensures Polls([]) == [] && Repeat(e, 0) == []
  {
  }

  lemma OnePoll(v: byte)
    ensures Polls([v]) == [Status(v)]
  {
  }

  /** The status once more, for the error message. */
  method GiveUp(d: Device, ghost t0: seq<Event>, lba: u32, cmd: byte, ghost access: Event,
                ghost a: seq<byte>, ghost n: nat, ghost b: seq<byte>)
    requires d.trace == t0 + [Reg(LbaRegs(lba)), Command(cmd)] + Polls(a) + Repeat(access, n) + Polls(b)
    requires |a| <= 2000000 && |b| <= 2000000
    requires n == 0 || (n == 256 && a != [] && DataReady(a[|a| - 1]))
    modifies d`busy, d`polls, d`trace
    ensures t0 <= d.trace && Transfer(d.trace[|t0|..], lba, cmd, access, 0)
    ensures forall n: nat :: old(d.Quick(n)) ==> d.Quick(n)
  {
    hide LbaRegs, Polls, Repeat, TransferShape, Transfer, DataReady, Device.Shown, Device.Prompt;
    var v := d.ReadStatus();
    OnePoll(v);
    FailedShape(a, n, b, [v]);
    TransferMade(t0, d.trace, lba, cmd, access, 0, a, n, b, [v]);
  }

  /** `picoide_read_sector`. */
  method PicoRead(d: Device, lba: u32, ram: array<byte>, addr: nat, bounce: array<nat>) returns (r: nat)
    requires d.Valid() && addr + 512 <= ram.Length && bounce.Length == 256
    modifies d, ram, bounce
    ensures d.Valid() && d.media == old(d.media) && Outside(old(ram[..]), ram[..], addr, 512)
    ensures old(d.trace) <= d.trace && Transfer(d.trace[|old(d.trace)|..], lba, 0x20, DataRead, r)
    ensures r == 0 || r == 512
    ensures r == 512 ==> ram[addr..addr + 512] == SectorAt(d.media, lba % LBA_LIMIT) && d.phase == Idle
    ensures d.ErrorFree() && old(d.Quick(2000000)) ==> r == 512
    ensures forall n: nat :: old(d.Quick(n)) ==> d.Quick(n)
  {
    hide LbaRegs, Polls, Repeat, TransferShape, Transfer, SectorAt, Bytes, DataReady, Finished;
    hide Device.ErrorFree, Device.Shown, Device.Prompt;
    NoEvents(DataRead);
    ghost var t0 := d.trace;
    Start(d, lba, CMD_READ);
    var ok, a := WaitDrq(d);
    if !ok {
      GiveUp(d, t0, lba, CMD_READ, DataRead, a, 0, []);
      return 0;
    }
    if addr % 2 != 0 {
      ReadToBounce(d, bounce);
    } else {
      ReadToRam(d, ram, addr);
    }
    var ok2, b := WaitIdle(d);
    if !ok2 {
      GiveUp(d, t0, lba, CMD_READ, DataRead, a, 256, b);
      return 0;
    }
    if addr % 2 != 0 {
      CopyOut(bounce, ram, addr);
    }
    FinishedShape(a, b);
    TransferMade(t0, d.trace, lba, CMD_READ, DataRead, 512, a, 256, b, []);
    r := 512;
  }

  lemma FailedShape(a: seq<byte>, n: nat, b: seq<byte>, log: seq<byte>)
    requires |a| <= 2000000 && |b| <= 2000000 && |log| <= 1
    requires n == 0 || (n == 256 && a != [] && DataReady(a[|a| - 1]))
    ensures TransferShape(a, n, b, log, 0)
  {
  }

  lemma FinishedShape(a: seq<byte>, b: seq<byte>)
    requires |a| <= 2000000 && |b| <= 2000000 && a != [] && b != []
    requires DataReady(a[|a| - 1]) && Finished(b[|b| - 1])
    ensures TransferShape(a, 256, b, [], 512)
  {
  }

  /** `memcpy` of 512 bytes into the bounce buffer. */
  method CopyIn(ram: array<byte>, addr: nat, bounce: array<nat>)
    requires bounce.Length == 256 && addr + 512 <= ram.Length
    modifies bounce
    ensures forall i :: 0 <= i < 256 ==> bounce[i] == Pair(ram[addr..addr + 512], i)
  {
    ghost var s := ram[addr..addr + 512];
    var i := 0;
    while i < 256
      invariant 0 <= i <= 256
      invariant forall k :: 0 <= k < i ==> bounce[k] == Pair(s, k)
    {
      bounce[i] := Word16(ram[addr + 2 * i], ram[addr + 2 * i + 1]);
      i := i + 1;
    }
  }

  /** 256 words to the data port. Which words: those of s. */
  method WriteWords(d: Device, src: array<nat>, ghost s: sector)
    requires d.Valid() && src.Length == 256 && forall i :: 0 <= i < 256 ==> src[i] == Pair(s, i)
    modifies d`phase, d`media, d`busy, d`periods, d`writes, d`verdict, d`trace
    ensures d.Valid() && d.trace == old(d.trace) + Repeat(DataWritten, 256)
    ensures old(d.phase).DataOut? && old(d.phase).got == [] ==>
              d.After(old(d.phase).lba, s, old(d.media), old(d.writes), old(d.verdict))
    ensures !old(d.phase).DataOut? ==> d.media == old(d.media)
    ensures forall n: nat :: old(d.Quick(n)) ==> d.Quick(n)
  {
    ghost var lba := if d.phase.DataOut? then d.phase.lba else 0;
    ghost var clean := d.phase.DataOut? && d.phase.got == [];
    ghost var p0, m0, n0, v0 := d.phase, d.media, d.writes, d.verdict;
    var i: nat := 0;
    while i < 256
      invariant i <= 256 && d.Valid() && d.trace == old(d.trace) + Repeat(DataWritten, i)
      invariant clean ==> d.After(lba, s[..2 * i], m0, n0, v0)
      invariant !p0.DataOut? ==> d.phase == p0 && d.media == m0
      invariant forall n: nat :: old(d.Quick(n)) ==> d.Quick(n)
    {
      RepeatSnoc(DataWritten, i);
      d.WriteWord(src[i]);
      assert s[..2 * (i + 1)] == s[..2 * i] + [src[i] / 256, src[i] % 256];
      i := i + 1;
    }
    assert s[..512] == s;
  }

  /** 256 words to the data port from an even address. */
  method WriteFromRam(d: Device, ram: array<byte>, addr: nat)
    requires d.Valid() && addr + 512 <= ram.Length
    modifies d`phase, d`media, d`busy, d`periods, d`writes, d`verdict, d`trace
    ensures d.Valid() && d.trace == old(d.trace) + Repeat(DataWritten, 256)
    ensures old(d.phase).DataOut? && old(d.phase).got == [] ==>
              d.After(old(d.phase).lba, ram[addr..addr + 512], old(d.media), old(d.writes), old(d.verdict))
    ensures !old(d.phase).DataOut? ==> d.media == old(d.media)
    ensures forall n: nat :: old(d.Quick(n)) ==> d.Quick(n)
  {
    ghost var s := ram[addr..addr + 512];
    ghost var lba := if d.phase.DataOut? then d.phase.lba else 0;
    ghost var clean := d.phase.DataOut? && d.phase.got == [];
    ghost var p0, m0, n0, v0 := d.phase, d.media, d.writes, d.verdict;
    var i: nat := 0;
    while i < 256
      invariant i <= 256 && d.Valid() && d.trace == old(d.trace) + Repeat(DataWritten, i)
      invariant clean ==> d.After(lba, s[..2 * i], m0, n0, v0)
      invariant !p0.DataOut? ==> d.phase == p0 && d.media == m0
      invariant forall n: nat :: old(d.Quick(n)) ==> d.Quick(n)
    {
      RepeatSnoc(DataWritten, i);
      var w := Word16(ram[addr + 2 * i], ram[addr + 2 * i + 1]);
      d.WriteWord(w);
      assert s[..2 * (i + 1)] == s[..2 * i] + [w / 256, w % 256];
      i := i + 1;
    }
    assert s[..512] == s;
  }

  /** The data of one sector, from the bounce buffer if the address is odd. */
  method SendSector(d: Device, ram: array<byte>, addr: nat, bounce: array<nat>)
    requires d.Valid() && addr + 512 <= ram.Length && bounce.Length == 256 && d.phase.DataOut? && d.phase.got == []
    requires addr % 2 != 0 ==> forall i :: 0 <= i < 256 ==> bounce[i] == Pair(ram[addr..addr + 512], i)
    modifies d`phase, d`media, d`busy, d`periods, d`writes, d`verdict, d`trace
    ensures d.Valid() && d.trace == old(d.trace) + Repeat(DataWritten, 256) && d.phase == Idle
    ensures d.verdict != Dropped ==> d.media == old(d.media)[old(d.phase).lba := ram[addr..addr + 512]]
    ensures d.media == old(d.media) || d.media == old(d.media)[old(d.phase).lba := ram[addr..addr + 512]]
    ensures forall n: nat :: old(d.Quick(n)) ==> d.Quick(n)
  {
    hide Repeat, Pair, Device.Prompt;
    if addr % 2 != 0 {
      WriteWords(d, bounce, ram[addr..addr + 512]);
    } else {
      WriteFromRam(d, ram, addr);
    }
  }

  /** `picoide_write_sector`. */
  method PicoWrite(d: Device, lba: u32, ram: array<byte>, addr: nat, bounce: array<nat>) returns (r: nat)
    requires d.Valid() && addr + 512 <= ram.Length && bounce.Length == 256
    modifies d, bounce
    ensures d.Valid()
    ensures old(d.trace) <= d.trace && Transfer(d.trace[|old(d.trace)|..], lba, 0x30, DataWritten, r)
    ensures r == 0 || r == 512
    ensures r == 512 ==> d.media == old(d.media)[lba % LBA_LIMIT := ram[addr..addr + 512]] && d.phase == Idle
    ensures d.media == old(d.media) || d.media == old(d.media)[lba % LBA_LIMIT := ram[addr..addr + 512]]
    ensures d.ErrorFree() && old(d.Quick(2000000)) ==> r == 512
    ensures forall n: nat :: old(d.Quick(n)) ==> d.Quick(n)
  {
    hide LbaRegs, Polls, Repeat, TransferShape, Transfer, SectorAt, DataReady, Finished, Pair;
    hide Device.ErrorFree, Device.Shown, Device.Prompt;
    NoEvents(DataWritten);
    ghost var t0 := d.trace;
    if addr % 2 != 0 {
      CopyIn(ram, addr, bounce);
    }
    Start(d, lba, CMD_WRITE);
    var ok, a := WaitDrq(d);
    if !ok {
      GiveUp(d, t0, lba, CMD_WRITE, DataWritten, a, 0, []);
      return 0;
    }
    SendSector(d, ram, addr, bounce);
    var ok2, b := WaitIdle(d);
    if !ok2 {
      GiveUp(d, t0, lba, CMD_WRITE, DataWritten, a, 256, b);
      return 0;
    }
    FinishedShape(a, b);
    TransferMade(t0, d.trace, lba, CMD_WRITE, DataWritten, 512, a, 256, b, []);
    r := 512;
  }

  // -------------------------------------------------------------------- MIDE

  /** ATA_WAIT: polls until BSY clears, however long that takes. */
  method Wait(d: Device)
    requires d.Paced()
    modifies d`busy, d`polls, d`trace
    ensures d.busy == 0 && old(d.trace) <= d.trace
  {
    var v := d.ReadStatus();
    while Bsy(v)
      invariant (!Bsy(v) ==> d.busy == 0) && old(d.trace) <= d.trace
      decreases d.busy, Bsy(v)
    {
      v := d.ReadStatus();
    }
  }

  /** ATA_WAIT_FOR_DATA. */
  method WaitForData(d: Device)
    requires d.Paced() && d.phase != Idle
    modifies d`busy, d`polls, d`trace
  {
    var v := d.ReadStatus();
    while !Drq(v)
      decreases d.busy, !Drq(v)
    {
      v := d.ReadStatus();
    }
  }

  /** go_8bits_mode: SET FEATURES, with the bus in 8-bit mode. */
  method EightBits(d: Device)
    requires d.Paced() && d.Valid()
    modifies d
    ensures d.Valid() && d.busy == 0 && d.phase == Idle && d.media == old(d.media) && d.regs == old(d.regs)
    ensures d.writes == old(d.writes) && old(d.trace) + [Command(0xEF)] <= d.trace
  {
    d.WriteCommand(CMD_SET_FEATURE);
    Wait(d);
  }

  /** The MIDE half of `ata_read_sector`. */
  method MideRead(d: Device, lba: u32, ram: array<byte>, addr: nat) returns (r: nat)
    requires d.Valid() && d.Paced() && addr + 512 <= ram.Length
    modifies d, ram
    ensures d.Valid() && d.media == old(d.media) && Outside(old(ram[..]), ram[..], addr, 512)
    ensures r == 512 ==> ram[addr..addr + 512] == SectorAt(d.media, lba % LBA_LIMIT) && d.phase == Idle
    ensures r == 512 || (r == 0 && ram[..] == old(ram[..]))
    ensures d.ErrorFree() ==> r == 512
  {
    hide SectorAt, LbaRegs, DecodeLba;
    d.SetAddress(d.regs.(driveHead := LbaRegs(lba).driveHead));
    EightBits(d);
    d.SetAddress(LbaRegs(lba));
    LbaRoundTrip(lba);
    d.WriteCommand(CMD_READ);
    Wait(d);
    var status := d.ReadStatus();
    if Err(status) {
      return 0;
    }
    Wait(d);
    WaitForData(d);
    ReadBytes(d, ram, addr);
    r := 512;
  }

  method ReadBytes(d: Device, ram: array<byte>, addr: nat)
    requires d.Valid() && d.Paced() && addr + 512 <= ram.Length && d.phase.DataIn? && |d.phase.left| == 512
    modifies d`phase, d`busy, d`periods, d`polls, d`trace, ram
    ensures d.Valid() && d.phase == Idle && ram[addr..addr + 512] == old(d.phase).left
    ensures Outside(old(ram[..]), ram[..], addr, 512)
  {
    ghost var s := d.phase.left;
    ghost var was := ram[..];
    var i := 0;
    while i < 512
      invariant 0 <= i <= 512 && d.Valid() && d.phase == Remaining(s[i..])
      invariant forall k :: 0 <= k < i ==> ram[..][addr + k] == s[k]
      invariant Outside(was, ram[..], addr, 512)
    {
      ram[addr + i] := d.ReadByte();
      assert s[i..][1..] == s[i + 1..];
      Wait(d);
      i := i + 1;
    }
    assert ram[addr..addr + 512] == s;
  }

  /** The MIDE half of `ata_write_sector`. Of the two status bytes it examines only the first can make it fail: when
      the last one has ERR the sector has been dropped, and the result is still 512. */
  method MideWrite(d: Device, lba: u32, ram: array<byte>, addr: nat) returns (r: nat, first: byte, last: byte)
    requires d.Valid() && d.Paced() && addr + 512 <= ram.Length
    modifies d
    ensures d.Valid() && r == (if Err(first) then 0 else 512)
    ensures r == 0 ==> d.media == old(d.media)
    ensures r == 512 && !Err(last) ==>
              d.phase == Idle && d.media == old(d.media)[lba % LBA_LIMIT := ram[addr..addr + 512]]
    ensures r == 512 && Err(last) ==> d.phase == Idle && d.media == old(d.media)
    ensures SectorAt(old(d.media), lba % LBA_LIMIT) != ram[addr..addr + 512] ==>
              (r == 512 && d.media == old(d.media) <==> !Err(first) && Err(last))
    ensures d.ErrorFree() ==> r == 512 && !Err(last)
    ensures d.Silent() ==> r == 512 && (Err(last) <==> d.drops(old(d.writes)))
    ensures r == 512 ==> d.writes == old(d.writes) + 1
  {
    hide LbaRegs, DecodeLba, SectorAt, Device.ErrorFree, Device.Silent, Device.Shown;
    last := 0;
    first := MideStart(d, lba);
    if Err(first) {
      return 0, first, last;
    }
    ghost var m0, n0 := d.media, d.writes;
    last := WriteOut(d, ram, addr);
    r := 512;
    Written(m0, lba % LBA_LIMIT, ram[addr..addr + 512]);
  }

  /** From 8-bit mode to the first status after the write command. */
  method MideStart(d: Device, lba: u32) returns (status: byte)
    requires d.Valid() && d.Paced()
    modifies d
    ensures d.Valid() && d.phase == DataOut(lba % LBA_LIMIT, []) && d.media == old(d.media) && d.writes == old(d.writes)
    ensures d.ErrorFree() || d.Silent() ==> !Err(status)
  {
    hide LbaRegs, DecodeLba;
    EightBits(d);
    d.SetAddress(LbaRegs(lba));
    LbaRoundTrip(lba);
    d.WriteCommand(CMD_WRITE);
    Wait(d);
    status := d.ReadStatus();
  }

  /** The data of one sector and the status after it. */
  method WriteOut(d: Device, ram: array<byte>, addr: nat) returns (status: byte)
    requires d.Valid() && d.Paced() && addr + 512 <= ram.Length && d.phase.DataOut? && d.phase.got == []
    modifies d`phase, d`media, d`busy, d`periods, d`polls, d`writes, d`verdict, d`trace
    ensures d.Valid() && d.After(old(d.phase).lba, ram[addr..addr + 512], old(d.media), old(d.writes), old(d.verdict))
    ensures Err(status) <==> d.drops(old(d.writes))
    ensures d.ErrorFree() ==> !Err(status)
  {
    Wait(d);
    WaitForData(d);
    WriteBytes(d, ram, addr);
    Wait(d);
    status := d.ReadStatus();  // an error here is only reported
  }

  lemma Written(m: Media, k: nat, s: sector)
    ensures SectorAt(m, k) != s ==> m[k := s] != m
  {
  }

  method WriteBytes(d: Device, ram: array<byte>, addr: nat)
    requires d.Valid() && d.Paced() && addr + 512 <= ram.Length && d.phase.DataOut? && d.phase.got == []
    modifies d`phase, d`media, d`busy, d`periods, d`polls, d`writes, d`verdict, d`trace
    ensures d.Valid() && d.After(old(d.phase).lba, ram[addr..addr + 512], old(d.media), old(d.writes), old(d.verdict))
  {
    ghost var s, lba, m0, n0, v0 := ram[addr..addr + 512], d.phase.lba, d.media, d.writes, d.verdict;
    var i := 0;
    while i < 512
      invariant 0 <= i <= 512 && d.Valid() && d.After(lba, s[..i], m0, n0, v0)
    {
      Wait(d);
      d.WriteByte(ram[addr + i]);
      assert s[..i + 1] == s[..i] + [ram[addr + i]];
      i := i + 1;
    }
    assert s[..512] == s;
  }

  /** Such a device exists: it is clean up to the last byte, drops the sector, and the driver reports success. */
  method FinalErrorIsSuccess(ram: array<byte>) returns (r: nat, d: Device)
    requires ram.Length >= 512 && ram[..512] != seq(512, _ => 0)
    ensures r == 512 && d.media == map[]
  {
    d := new Device(_ => 0, (n, b, due) => if b > 0 then 0x80 else if due then 8 else 0, _ => true, map[]);
    var first, last;
    r, first, last := MideWrite(d, 0, ram, 0);
  }
}
