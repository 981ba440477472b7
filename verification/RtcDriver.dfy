/** The DS3231 clock and AT24C32 memory drivers, on top of the bit-banged bus. */
module RtcDriver {
  import opened I2cBus

  const DS3231_ADDR: bv8 := 0x68
  const EEPROM_ADDR: bv8 := 0x50

  // ----------------------------------------------------------------------- BCD

  function FromBcd(v: bv8): bv8 { (v >> 4) * 10 + (v & 0x0F) }

  function ToBcd(v: bv8): bv8 { ((v / 10) << 4) | (v % 10) }

  datatype Time = Time(sec: bv8, min: bv8, hour: bv8, mday: bv8, mon: bv8, year: bv8)

  function TimeOf(r: map<RegNo, bv8>): Time {
    Time(FromBcd(Reg(r, 0) & 0x7F), FromBcd(Reg(r, 1)), FromBcd(Reg(r, 2) & 0x3F),
         FromBcd(Reg(r, 4)), FromBcd(Reg(r, 5) & 0x1F), FromBcd(Reg(r, 6)))
  }

  function WithTime(r: map<RegNo, bv8>, t: Time): map<RegNo, bv8> {
    r[RegNo(0) := ToBcd(t.sec)][RegNo(1) := ToBcd(t.min)][RegNo(2) := ToBcd(t.hour)][RegNo(3) := 1]
    [RegNo(4) := ToBcd(t.mday)][RegNo(5) := ToBcd(t.mon)][RegNo(6) := ToBcd(t.year)]
  }

  /** What the masks and the two decimal digits leave room for. */
  predicate Keepable(t: Time) {
    t.sec < 80 && t.min < 160 && t.hour < 40 && t.mday < 160 && t.mon < 20 && t.year < 160
  }

  predicate ValidTime(t: Time) {
    t.sec < 60 && t.min < 60 && t.hour < 24 && 1 <= t.mday <= 31 && 1 <= t.mon <= 12 && t.year < 100
  }

  lemma BcdRoundTrip(v: bv8)
    ensures FromBcd(ToBcd(v)) == v <==> v < 160
    ensures FromBcd(ToBcd(v) & 0x7F) == v <==> v < 80
    ensures FromBcd(ToBcd(v) & 0x3F) == v <==> v < 40
    ensures FromBcd(ToBcd(v) & 0x1F) == v <==> v < 20
  {
  }

  /** A number below 100 is kept as its tens in the high four bits and its units in the low four. */
  lemma BcdDigits(tens: bv8, units: bv8)
    requires tens < 10 && units < 10
    ensures ToBcd(10 * tens + units) == 16 * tens + units && FromBcd(16 * tens + units) == 10 * tens + units
  {
  }

  lemma WithTimeRegs(r: map<RegNo, bv8>, t: Time)
    ensures var q := WithTime(r, t);
            && Reg(q, 0) == ToBcd(t.sec) && Reg(q, 1) == ToBcd(t.min) && Reg(q, 2) == ToBcd(t.hour) && Reg(q, 3) == 1
            && Reg(q, 4) == ToBcd(t.mday) && Reg(q, 5) == ToBcd(t.mon) && Reg(q, 6) == ToBcd(t.year)
  {
    hide ToBcd, Reg;
    RegSet(r, 0, ToBcd(t.sec));
    var r0 := r[RegNo(0) := ToBcd(t.sec)];
    RegSet(r0, 1, ToBcd(t.min));
    var r1 := r0[RegNo(1) := ToBcd(t.min)];
    RegSet(r1, 2, ToBcd(t.hour));
    var r2 := r1[RegNo(2) := ToBcd(t.hour)];
    RegSet(r2, 3, 1);
    var r3 := r2[RegNo(3) := 1];
    RegSet(r3, 4, ToBcd(t.mday));
    var r4 := r3[RegNo(4) := ToBcd(t.mday)];
    RegSet(r4, 5, ToBcd(t.mon));
    var r5 := r4[RegNo(5) := ToBcd(t.mon)];
    RegSet(r5, 6, ToBcd(t.year));
  }

  lemma RegSet(r: map<RegNo, bv8>, p: bv8, v: bv8)
    ensures Reg(r[RegNo(p) := v], p) == v
    ensures forall q :: q != p ==> Reg(r[RegNo(p) := v], q) == Reg(r, q)
  {
  }

  /** A time set is the time read back, exactly when every field fits its digits and mask; every valid time does. */
  lemma TimeRoundTrip(r: map<RegNo, bv8>, t: Time)
    ensures TimeOf(WithTime(r, t)) == t <==> Keepable(t)
    ensures ValidTime(t) ==> Keepable(t)
  {
    hide FromBcd, ToBcd, WithTime, Reg;
    WithTimeRegs(r, t);
    BcdRoundTrip(t.sec);
    BcdRoundTrip(t.min);
    BcdRoundTrip(t.hour);
    BcdRoundTrip(t.mday);
    BcdRoundTrip(t.mon);
    BcdRoundTrip(t.year);
  }

  // ------------------------------------------------------------- one addressed slave

  function Sel(w: World, rom: bool): Slave { if rom then w.rom else w.rtc }

  /** Which slave a transaction is for, its address, and the state the other one stays in. */
  datatype Link = Link(rom: bool, addr: bv8, other: Slave)

  /** The slave is taking bytes; its chip has come to `chip`. */
  ghost predicate Taking(w: World, events: seq<Event>, l: Link, chip: Chip) {
    && Ready(w, events)
    && Sel(w, l.rom).phase == Receive && Sel(w, l.rom).addr == l.addr && Sel(w, l.rom).chip == chip
    && Sel(w, !l.rom) == l.other && l.other.phase == Idle
  }

  /** The slave is about to send the byte its chip points at. */
  ghost predicate Giving(w: World, events: seq<Event>, l: Link, chip: Chip) {
    && Between(w, events) && Talking(w.rtc) && Talking(w.rom)
    && Sel(w, l.rom).phase == Transmit && Sel(w, l.rom).addr == l.addr
    && Sel(w, l.rom).out == chip.Byte() && Sel(w, l.rom).chip == chip.Advance()
    && Sel(w, !l.rom) == l.other && l.other.phase == Idle
  }

  /** The slave has been refused a further byte. */
  ghost predicate Through(w: World, events: seq<Event>, l: Link, chip: Chip) {
    && Ready(w, events)
    && Sel(w, l.rom).phase == Idle && Sel(w, l.rom).addr == l.addr && Sel(w, l.rom).chip == chip
    && Sel(w, !l.rom) == l.other && l.other.phase == Idle
  }

  /** The bus is idle again. */
  ghost predicate Ended(w: World, events: seq<Event>, l: Link, chip: Chip) {
    && Quiet(w, events)
    && Sel(w, l.rom).addr == l.addr && Sel(w, l.rom).chip == chip && Sel(w, !l.rom) == l.other
  }

  lemma TookAddress(s: Slave, b: bv8)
    requires Listening(s) && s.phase == Idle && !Reads(b)
    ensures Acks(s.Start(), b) == (AddrOf(b) == s.addr)
    ensures var t := Took(s.Start(), b);
            && Listening(t) && t.addr == s.addr
            && (if AddrOf(b) == s.addr then t.phase == Receive && t.chip == s.chip.Begin() else t == s)
  {
    hide AddrOf, Reads, Chip.Begin;
  }

  /** Whatever a slave was doing, a START and an address leave it addressed or idle. */
  lemma TookAnyway(s: Slave, b: bv8)
    requires !Reads(b)
    ensures Acks(s.Start(), b) == (AddrOf(b) == s.addr)
    ensures var t := Took(s.Start(), b).Stop();
            && Listening(Took(s.Start(), b)) && t.phase == Idle && Listening(t) && t.addr == s.addr
            && t.chip == if AddrOf(b) == s.addr then s.chip.Begin() else s.chip
  {
    hide AddrOf, Reads, Chip.Begin;
  }

  lemma TookByte(s: Slave, b: bv8)
    requires Listening(s) && (s.phase == Receive || s.phase == Idle)
    ensures Acks(s, b) == (s.phase == Receive)
    ensures Took(s, b) == if s.phase == Receive then s.(chip := s.chip.Store(b)) else s
  {
    hide Chip.Store;
  }

  lemma TookTurn(s: Slave, b: bv8)
    requires Listening(s) && Reads(b)
    ensures Acks(s.Start(), b) == (AddrOf(b) == s.addr)
    ensures var t := Took(s.Start(), b);
            if AddrOf(b) == s.addr then
              && Talking(t) && t.phase == Transmit && t.addr == s.addr
              && t.out == s.chip.Byte() && t.chip == s.chip.Advance()
            else s.phase == Idle ==> t == s && Talking(t)
  {
    hide AddrOf, Reads, Bits, Chip.Byte, Chip.Advance;
  }

  lemma GaveByte(s: Slave, ack: bool)
    requires Talking(s)
    ensures var t := Gave(s, ack);
            && t.addr == s.addr
            && (s.phase == Idle ==> t == s && Listening(t))
            && (s.phase == Transmit ==>
                  if ack then Talking(t) && t.phase == Transmit && t.out == s.chip.Byte() && t.chip == s.chip.Advance()
                  else Listening(t) && t.phase == Idle && t.chip == s.chip)
  {
    hide Bits, Chip.Byte, Chip.Advance;
  }

  /** START, the address for writing, and STOP if nobody answers. */
  method Address(bus: Bus, b: bv8, ghost events: seq<Event>, ghost l: Link, ghost chip: Chip) returns (nack: bool)
    requires Ended(bus.w, events, l, chip) && !Reads(b) && l.other.addr != AddrOf(b)
    modifies bus
    ensures nack == (l.addr != AddrOf(b))
    ensures !nack ==> Taking(bus.w, events + [START] + [BYTE(b, true)], l, chip.Begin())
    ensures nack ==> Ended(bus.w, events + [START] + [BYTE(b, false)] + [STOP], l, chip)
  {
    hide Between, Saw, Listening, Acks, Took, Slave.Start, Slave.Stop, Synced, AddrOf, Reads, Chip.Begin;
    TookAddress(bus.w.rtc, b);
    TookAddress(bus.w.rom, b);
    QuietFloats(bus.w, events);
    bus.Start(events);
    nack := bus.WriteByte(b, events + [START]);
    if nack {
      StopIdle(bus.w.rtc);
      StopIdle(bus.w.rom);
      bus.Stop(events + [START] + [BYTE(b, false)]);
    }
  }

  lemma StopIdle(s: Slave)
    requires Listening(s) && s.phase == Idle
    ensures s.Stop() == s
  {
  }

  /** A byte to the addressed slave. */
  method Put(bus: Bus, b: bv8, ghost events: seq<Event>, ghost l: Link, ghost chip: Chip)
    requires Taking(bus.w, events, l, chip)
    modifies bus
    ensures Taking(bus.w, events + [BYTE(b, true)], l, chip.Store(b))
  {
    hide Between, Saw, Listening, Acks, Took, Synced, Chip.Store;
    TookByte(bus.w.rtc, b);
    TookByte(bus.w.rom, b);
    KeepsListening(Sel(bus.w, l.rom), chip.Store(b));
    var nack := bus.WriteByte(b, events);
  }

  lemma KeepsListening(s: Slave, c: Chip)
    requires Listening(s)
    ensures Listening(s.(chip := c))
  {
  }

  /** Repeated START and the address for reading. */
  method Turn(bus: Bus, b: bv8, ghost events: seq<Event>, ghost l: Link, ghost chip: Chip)
    requires Taking(bus.w, events, l, chip) && Reads(b) && AddrOf(b) == l.addr != l.other.addr
    modifies bus
    ensures Giving(bus.w, events + [START] + [BYTE(b, true)], l, chip)
  {
    hide Between, Saw, Listening, Talking, Acks, Took, Slave.Start, Synced, AddrOf, Reads, Chip.Byte, Chip.Advance;
    TookTurn(bus.w.rtc, b);
    TookTurn(bus.w.rom, b);
    bus.Start(events);
    var nack := bus.WriteByte(b, events + [START]);
  }

  /** The next byte from the addressed slave, acknowledged if more is wanted. */
  method Get(bus: Bus, ack: bool, ghost events: seq<Event>, ghost l: Link, ghost chip: Chip) returns (v: bv8)
    requires Giving(bus.w, events, l, chip)
    modifies bus
    ensures v == chip.Byte()
    ensures ack ==> Giving(bus.w, events + [BYTE(v, true)], l, chip.Advance())
    ensures !ack ==> Through(bus.w, events + [BYTE(v, false)], l, chip.Advance())
  {
    hide Between, Saw, Listening, Talking, Gave, Synced, Chip.Byte, Chip.Advance;
    GaveByte(bus.w.rtc, ack);
    GaveByte(bus.w.rom, ack);
    v := bus.ReadByte(ack, events);
  }

  method End(bus: Bus, ghost events: seq<Event>, ghost l: Link, ghost chip: Chip)
    requires Taking(bus.w, events, l, chip) || Through(bus.w, events, l, chip)
    modifies bus
    ensures Ended(bus.w, events + [STOP], l, chip)
  {
    hide Between, Saw, Listening, Synced;
    StopIdle(l.other);
    bus.Stop(events);
  }

  // -------------------------------------------------------------------- DS3231

  /** Where the caller wants the time, if anywhere. */
  class TimeCell {
    var t: Time
    constructor (t: Time) ensures this.t == t { this.t := t; }
  }

  function Nacked(b: bv8): seq<Event> { [START, BYTE(b, false), STOP] }

  function SettingTime(t: Time): seq<Event> {
    [START, BYTE(0xD0, true), BYTE(0, true),
     BYTE(ToBcd(t.sec), true), BYTE(ToBcd(t.min), true), BYTE(ToBcd(t.hour), true),
     BYTE(1, true), BYTE(ToBcd(t.mday), true), BYTE(ToBcd(t.mon), true), BYTE(ToBcd(t.year), true), STOP]
  }

  function ReadingTime(r: map<RegNo, bv8>): seq<Event> {
    [START, BYTE(0xD0, true), BYTE(0, true), START, BYTE(0xD1, true),
     BYTE(Reg(r, 0), true), BYTE(Reg(r, 1), true), BYTE(Reg(r, 2), true), BYTE(Reg(r, 3), true),
     BYTE(Reg(r, 4), true), BYTE(Reg(r, 5), true), BYTE(Reg(r, 6), false), STOP]
  }

  /** The clock's link on this bus. */
  ghost function ClockLink(w: World): Link { Link(false, w.rtc.addr, w.rom) }

  ghost function RomLink(w: World): Link { Link(true, w.rom.addr, w.rtc) }

  /** A clock and a memory chip on the bus, neither at the other's address. */
  predicate Fitted(w: World) {
    w.rtc.chip.Clock? && w.rom.chip.Rom? && w.rom.addr != DS3231_ADDR && w.rtc.addr != EEPROM_ADDR
  }

  /** An idle bus with a clock and a memory chip on it, neither at the other's address. */
  ghost predicate Wired(w: World, events: seq<Event>) {
    Quiet(w, events) && Fitted(w)
  }

  lemma AddressBytes()
    ensures AddrOf(0xD0) == DS3231_ADDR && AddrOf(0xD1) == DS3231_ADDR && !Reads(0xD0) && Reads(0xD1)
    ensures AddrOf(0xA0) == EEPROM_ADDR && AddrOf(0xA1) == EEPROM_ADDR && !Reads(0xA0) && Reads(0xA1)
  {
  }

  lemma LinkEnded(w: World, events: seq<Event>)
    requires Wired(w, events)
    ensures Ended(w, events, ClockLink(w), w.rtc.chip) && Ended(w, events, RomLink(w), w.rom.chip)
  {
  }

  /** The chip after the seven time bytes. */
  lemma TimeStored(c: Chip, t: Time)
    requires c.Clock?
    ensures var d := c.Begin().Store(0).Store(ToBcd(t.sec)).Store(ToBcd(t.min)).Store(ToBcd(t.hour)).Store(1)
                     .Store(ToBcd(t.mday)).Store(ToBcd(t.mon)).Store(ToBcd(t.year));
            d == Clock(7, WithTime(c.regs, t), 0)
  {
    hide ToBcd;
  }

  /** ds3231_set_time. */
  method SetTime(bus: Bus, cell: TimeCell?, ghost events: seq<Event>)
    requires Wired(bus.w, events)
    modifies bus
    ensures bus.w.rtc.addr == old(bus.w.rtc.addr) && bus.w.rom == old(bus.w.rom)
    ensures cell == null ==> bus.w == old(bus.w)
    ensures cell != null && bus.w.rtc.addr == DS3231_ADDR ==>
              && Wired(bus.w, events + SettingTime(cell.t))
              && bus.w.rtc.chip == Clock(7, WithTime(old(bus.w.rtc.chip.regs), cell.t), 0)
    ensures cell != null && bus.w.rtc.addr != DS3231_ADDR ==>
              Wired(bus.w, events + Nacked(0xD0)) && bus.w.rtc.chip == old(bus.w.rtc.chip)
  {
    hide Quiet, Taking, ToBcd, Chip.Store, Chip.Begin, WithTime, AddrOf, Reads, SettingTime;
    if cell == null {
      return;
    }
    ghost var l, c, t := ClockLink(bus.w), bus.w.rtc.chip, cell.t;
    LinkEnded(bus.w, events);
    AddressBytes();
    var nack := Address(bus, 0xD0, events, l, c);
    if nack {
      assert events + [START] + [BYTE(0xD0, false)] + [STOP] == events + Nacked(0xD0);
      return;
    }
    ghost var e := events + [START] + [BYTE(0xD0, true)];
    c := c.Begin();
    Put(bus, 0, e, l, c);
    c, e := c.Store(0), e + [BYTE(0, true)];
    Put(bus, ToBcd(cell.t.sec), e, l, c);
    c, e := c.Store(ToBcd(t.sec)), e + [BYTE(ToBcd(t.sec), true)];
    Put(bus, ToBcd(cell.t.min), e, l, c);
    c, e := c.Store(ToBcd(t.min)), e + [BYTE(ToBcd(t.min), true)];
    Put(bus, ToBcd(cell.t.hour), e, l, c);
    c, e := c.Store(ToBcd(t.hour)), e + [BYTE(ToBcd(t.hour), true)];
    Put(bus, 1, e, l, c);
    c, e := c.Store(1), e + [BYTE(1, true)];
    Put(bus, ToBcd(cell.t.mday), e, l, c);
    c, e := c.Store(ToBcd(t.mday)), e + [BYTE(ToBcd(t.mday), true)];
    Put(bus, ToBcd(cell.t.mon), e, l, c);
    c, e := c.Store(ToBcd(t.mon)), e + [BYTE(ToBcd(t.mon), true)];
    Put(bus, ToBcd(cell.t.year), e, l, c);
    c, e := c.Store(ToBcd(t.year)), e + [BYTE(ToBcd(t.year), true)];
    End(bus, e, l, c);
    TimeStored(old(bus.w.rtc.chip), t);
    SettingTimeJoins(events, t);
  }

  lemma SettingTimeJoins(e: seq<Event>, t: Time)
    ensures e + [START] + [BYTE(0xD0, true)] + [BYTE(0, true)] + [BYTE(ToBcd(t.sec), true)] + [BYTE(ToBcd(t.min), true)]
            + [BYTE(ToBcd(t.hour), true)] + [BYTE(1, true)] + [BYTE(ToBcd(t.mday), true)] + [BYTE(ToBcd(t.mon), true)]
            + [BYTE(ToBcd(t.year), true)] + [STOP] == e + SettingTime(t)
  {
    hide ToBcd;
    Join6(e, START, BYTE(0xD0, true), BYTE(0, true),
          BYTE(ToBcd(t.sec), true), BYTE(ToBcd(t.min), true), BYTE(ToBcd(t.hour), true));
    var a := [START, BYTE(0xD0, true), BYTE(0, true),
              BYTE(ToBcd(t.sec), true), BYTE(ToBcd(t.min), true), BYTE(ToBcd(t.hour), true)];
    Join5(e + a, BYTE(1, true), BYTE(ToBcd(t.mday), true), BYTE(ToBcd(t.mon), true), BYTE(ToBcd(t.year), true), STOP);
    var b := [BYTE(1, true), BYTE(ToBcd(t.mday), true), BYTE(ToBcd(t.mon), true), BYTE(ToBcd(t.year), true), STOP];
    Regroup(e, a, b);
  }

  lemma Join5(e: seq<Event>, a: Event, b: Event, c: Event, d: Event, f: Event)
    ensures e + [a] + [b] + [c] + [d] + [f] == e + [a, b, c, d, f]
  {
  }

  lemma Join6(e: seq<Event>, a: Event, b: Event, c: Event, d: Event, f: Event, g: Event)
    ensures e + [a] + [b] + [c] + [d] + [f] + [g] == e + [a, b, c, d, f, g]
  {
  }

  lemma Regroup(e: seq<Event>, a: seq<Event>, b: seq<Event>)
    ensures e + a + b == e + (a + b)
  {
  }

  lemma ReadingTimeJoins(e: seq<Event>, r: map<RegNo, bv8>)
    ensures e + [START] + [BYTE(0xD0, true)] + [BYTE(0, true)] + [START] + [BYTE(0xD1, true)]
            + [BYTE(Reg(r, 0), true)] + [BYTE(Reg(r, 1), true)] + [BYTE(Reg(r, 2), true)] + [BYTE(Reg(r, 3), true)]
            + [BYTE(Reg(r, 4), true)] + [BYTE(Reg(r, 5), true)] + [BYTE(Reg(r, 6), false)] + [STOP]
            == e + ReadingTime(r)
  {
    hide Reg;
    Join5(e, START, BYTE(0xD0, true), BYTE(0, true), START, BYTE(0xD1, true));
    var a := [START, BYTE(0xD0, true), BYTE(0, true), START, BYTE(0xD1, true)];
    Join6(e + a, BYTE(Reg(r, 0), true), BYTE(Reg(r, 1), true), BYTE(Reg(r, 2), true), BYTE(Reg(r, 3), true),
          BYTE(Reg(r, 4), true), BYTE(Reg(r, 5), true));
    var b := [BYTE(Reg(r, 0), true), BYTE(Reg(r, 1), true), BYTE(Reg(r, 2), true), BYTE(Reg(r, 3), true),
              BYTE(Reg(r, 4), true), BYTE(Reg(r, 5), true)];
    Regroup(e, a, b);
    var c := [BYTE(Reg(r, 6), false), STOP];
    Regroup(e, a + b, c);
    assert e + (a + b) + [BYTE(Reg(r, 6), false)] + [STOP] == e + (a + b) + c;
  }

  /** Reading on from register p. */
  lemma ClockReads(p: bv8, r: map<RegNo, bv8>, n: nat)
    requires p < 0x12
    ensures Clock(p, r, n).Byte() == Reg(r, p) && Clock(p, r, n).Advance() == Clock(p + 1, r, n)
  {
  }

  lemma ClockPointed(c: Chip, p: bv8)
    requires c.Clock?
    ensures c.Begin().Store(p) == Clock(p, c.regs, 0)
  {
  }

  /** ds3231_read_time: 0 and the time, or 1 when there is nowhere to put it or nobody answers. */
  method ReadTime(bus: Bus, cell: TimeCell?, ghost events: seq<Event>) returns (failed: bool)
    requires Wired(bus.w, events)
    modifies bus, cell
    ensures bus.w.rtc.addr == old(bus.w.rtc.addr) && bus.w.rom == old(bus.w.rom)
    ensures failed == (cell == null || bus.w.rtc.addr != DS3231_ADDR)
    ensures cell == null ==> bus.w == old(bus.w)
    ensures !failed ==>
              && Wired(bus.w, events + ReadingTime(old(bus.w.rtc.chip.regs)))
              && bus.w.rtc.chip == Clock(7, old(bus.w.rtc.chip.regs), 0)
              && cell.t == TimeOf(old(bus.w.rtc.chip.regs))
    ensures cell != null && failed ==>
              Wired(bus.w, events + Nacked(0xD0)) && bus.w.rtc.chip == old(bus.w.rtc.chip) && cell.t == old(cell.t)
  {
    hide Quiet, Taking, Giving, Through, FromBcd, Chip.Store, Chip.Begin, Chip.Byte, Chip.Advance, Reg;
    hide AddrOf, Reads, ReadingTime;
    if cell == null {
      return true;
    }
    ghost var l, r := ClockLink(bus.w), bus.w.rtc.chip.regs;
    LinkEnded(bus.w, events);
    AddressBytes();
    ghost var c := bus.w.rtc.chip;
    failed := Address(bus, 0xD0, events, l, c);
    if failed {
      assert events + [START] + [BYTE(0xD0, false)] + [STOP] == events + Nacked(0xD0);
      return;
    }
    ghost var e := events + [START] + [BYTE(0xD0, true)];
    ClockPointed(c, 0);
    Put(bus, 0, e, l, c.Begin());
    e := e + [BYTE(0, true)];
    Turn(bus, 0xD1, e, l, Clock(0, r, 0));
    e := e + [START] + [BYTE(0xD1, true)];
    ReadFields(bus, cell, e, l, r);
    e := e + [BYTE(Reg(r, 0), true)] + [BYTE(Reg(r, 1), true)] + [BYTE(Reg(r, 2), true)] + [BYTE(Reg(r, 3), true)]
         + [BYTE(Reg(r, 4), true)] + [BYTE(Reg(r, 5), true)] + [BYTE(Reg(r, 6), false)];
    End(bus, e, l, Clock(7, r, 0));
    ReadingTimeJoins(events, r);
  }

  /** The seven reads, the weekday skipped. */
  method ReadFields(bus: Bus, cell: TimeCell, ghost events: seq<Event>, ghost l: Link, ghost r: map<RegNo, bv8>)
    requires Giving(bus.w, events, l, Clock(0, r, 0))
    modifies bus, cell
    ensures cell.t == TimeOf(r)
    ensures var e := events
                     + [BYTE(Reg(r, 0), true)] + [BYTE(Reg(r, 1), true)]
                     + [BYTE(Reg(r, 2), true)] + [BYTE(Reg(r, 3), true)]
                     + [BYTE(Reg(r, 4), true)] + [BYTE(Reg(r, 5), true)] + [BYTE(Reg(r, 6), false)];
            Through(bus.w, e, l, Clock(7, r, 0))
  {
    hide Giving, Through, FromBcd, Chip.Byte, Chip.Advance, Reg;
    ghost var e := events;
    ClockReads(0, r, 0);
    var v := Get(bus, true, e, l, Clock(0, r, 0));
    cell.t := cell.t.(sec := FromBcd(v & 0x7F));
    e := e + [BYTE(v, true)];
    ClockReads(1, r, 0);
    v := Get(bus, true, e, l, Clock(1, r, 0));
    cell.t := cell.t.(min := FromBcd(v));
    e := e + [BYTE(v, true)];
    ClockReads(2, r, 0);
    v := Get(bus, true, e, l, Clock(2, r, 0));
    cell.t := cell.t.(hour := FromBcd(v & 0x3F));
    e := e + [BYTE(v, true)];
    ClockReads(3, r, 0);
    v := Get(bus, true, e, l, Clock(3, r, 0));
    e := e + [BYTE(v, true)];
    ClockReads(4, r, 0);
    v := Get(bus, true, e, l, Clock(4, r, 0));
    cell.t := cell.t.(mday := FromBcd(v));
    e := e + [BYTE(v, true)];
    ClockReads(5, r, 0);
    v := Get(bus, true, e, l, Clock(5, r, 0));
    cell.t := cell.t.(mon := FromBcd(v & 0x1F));
    e := e + [BYTE(v, true)];
    ClockReads(6, r, 0);
    v := Get(bus, false, e, l, Clock(6, r, 0));
    cell.t := cell.t.(year := FromBcd(v));
  }

  // ------------------------------------------------------------------- AT24C32

  /** Twelve address bits reach the memory array. */
  function CellAt(addr: bv16): bv16 { addr & 0xFFF }

  function HighPart(addr: bv16): bv8 { (addr >> 8) as bv8 }

  function LowPart(addr: bv16): bv8 { (addr & 0xFF) as bv8 }

  function WritingCell(addr: bv16, data: bv8): seq<Event> {
    [START, BYTE(0xA0, true), BYTE(HighPart(addr), true), BYTE(LowPart(addr), true), BYTE(data, true), STOP]
  }

  function ReadingCell(addr: bv16, data: bv8): seq<Event> {
    [START, BYTE(0xA0, true), BYTE(HighPart(addr), true), BYTE(LowPart(addr), true),
     START, BYTE(0xA1, true), BYTE(data, false), STOP]
  }

  lemma AddressParts(addr: bv16, a: bv16)
    ensures (((a & 0xFF) | HighByte(HighPart(addr))) & 0xF00) | (LowPart(addr) as bv16) == CellAt(addr)
  {
  }

  lemma RomPointed(c: Chip, addr: bv16)
    requires c.Rom?
    ensures c.Begin().Store(HighPart(addr)).Store(LowPart(addr)) == Rom(CellAt(addr), c.cells, 0)
  {
    hide HighByte, HighPart, LowPart, CellAt;
    AddressParts(addr, c.at);
  }

  /** eeprom_write_byte. */
  method EepromWrite(bus: Bus, addr: bv16, data: bv8, ghost events: seq<Event>)
    requires Wired(bus.w, events)
    modifies bus
    ensures bus.w.rom.addr == old(bus.w.rom.addr) && bus.w.rtc == old(bus.w.rtc)
    ensures bus.w.rom.addr == EEPROM_ADDR ==>
              && Wired(bus.w, events + WritingCell(addr, data))
              && bus.w.rom.chip.cells == old(bus.w.rom.chip.cells)[CellNo(CellAt(addr)) := data]
    ensures bus.w.rom.addr != EEPROM_ADDR ==>
              Wired(bus.w, events + Nacked(0xA0)) && bus.w.rom.chip == old(bus.w.rom.chip)
  {
    hide Quiet, Taking, Chip.Store, Chip.Begin, AddrOf, Reads, HighPart, LowPart, CellAt, NextInPage;
    ghost var l, c := RomLink(bus.w), bus.w.rom.chip;
    LinkEnded(bus.w, events);
    AddressBytes();
    var nack := Address(bus, 0xA0, events, l, c);
    if nack {
      assert events + [START] + [BYTE(0xA0, false)] + [STOP] == events + Nacked(0xA0);
      return;
    }
    RomPointed(c, addr);
    ghost var e := events + [START] + [BYTE(0xA0, true)];
    c := c.Begin();
    Put(bus, HighPart(addr), e, l, c);
    c, e := c.Store(HighPart(addr)), e + [BYTE(HighPart(addr), true)];
    Put(bus, LowPart(addr), e, l, c);
    c, e := c.Store(LowPart(addr)), e + [BYTE(LowPart(addr), true)];
    Put(bus, data, e, l, c);
    RomStores(CellAt(addr), c.cells, data);
    c, e := c.Store(data), e + [BYTE(data, true)];
    End(bus, e, l, c);
    assert e + [STOP] == events + WritingCell(addr, data);
  }

  lemma RomStores(a: bv16, cells: map<CellNo, bv8>, data: bv8)
    ensures Rom(a, cells, 0).Store(data) == Rom(NextInPage(a), cells[CellNo(a) := data], 0)
    ensures Rom(a, cells, 0).Byte() == Cell(cells, a)
    ensures Rom(a, cells, 0).Advance().Rom? && Rom(a, cells, 0).Advance().cells == cells
  {
  }

  /** eeprom_read_byte: the byte, or 0xFF when nobody answers. */
  method EepromRead(bus: Bus, addr: bv16, ghost events: seq<Event>) returns (val: bv8)
    requires Wired(bus.w, events)
    modifies bus
    ensures bus.w.rom.addr == old(bus.w.rom.addr) && bus.w.rtc == old(bus.w.rtc)
    ensures bus.w.rom.chip.Rom? && bus.w.rom.chip.cells == old(bus.w.rom.chip.cells)
    ensures bus.w.rom.addr == EEPROM_ADDR ==>
              Wired(bus.w, events + ReadingCell(addr, val)) && val == Cell(bus.w.rom.chip.cells, CellAt(addr))
    ensures bus.w.rom.addr != EEPROM_ADDR ==> Wired(bus.w, events + Nacked(0xA0)) && val == 0xFF
  {
    hide Quiet, Taking, Giving, Through, Chip.Store, Chip.Begin, Chip.Byte, Chip.Advance, AddrOf, Reads;
    hide HighPart, LowPart, CellAt, Cell;
    val := 0xFF;
    ghost var l, c := RomLink(bus.w), bus.w.rom.chip;
    LinkEnded(bus.w, events);
    AddressBytes();
    var nack := Address(bus, 0xA0, events, l, c);
    if nack {
      assert events + [START] + [BYTE(0xA0, false)] + [STOP] == events + Nacked(0xA0);
      return;
    }
    RomPointed(c, addr);
    ghost var e := events + [START] + [BYTE(0xA0, true)];
    c := c.Begin();
    Put(bus, HighPart(addr), e, l, c);
    c, e := c.Store(HighPart(addr)), e + [BYTE(HighPart(addr), true)];
    Put(bus, LowPart(addr), e, l, c);
    c, e := c.Store(LowPart(addr)), e + [BYTE(LowPart(addr), true)];
    Turn(bus, 0xA1, e, l, c);
    e := e + [START] + [BYTE(0xA1, true)];
    RomStores(CellAt(addr), c.cells, 0);
    val := Get(bus, false, e, l, c);
    c, e := c.Advance(), e + [BYTE(val, false)];
    End(bus, e, l, c);
    assert e + [STOP] == events + ReadingCell(addr, val);
  }

  // ----------------------------------------------------------------- detection

  /** What a call leaves alone of the memory chip, and the clock's address. */
  predicate SameRest(v: World, w: World) {
    w.rtc.addr == v.rtc.addr && w.rom.addr == v.rom.addr && w.rom.chip == v.rom.chip
  }

  /** ds3231_probe, whatever the slaves were doing. */
  method Probe(bus: Bus, ghost events: seq<Event>) returns (found: bool)
    requires Floating(bus.w, events) && Fitted(bus.w)
    modifies bus
    ensures found == (old(bus.w.rtc.addr) == DS3231_ADDR) && SameRest(old(bus.w), bus.w)
    ensures Wired(bus.w, events + [START, BYTE(0xD0, found), STOP])
    ensures bus.w.rtc.chip.regs == old(bus.w.rtc.chip.regs)
  {
    hide Quiet, Floating, Between, Saw, Listening, Acks, Took, Slave.Start, Slave.Stop, Synced, AddrOf, Reads;
    AddressBytes();
    TookAnyway(bus.w.rtc, 0xD0);
    TookAnyway(bus.w.rom, 0xD0);
    bus.Start(events);
    var nack := bus.WriteByte(0xD0, events + [START]);
    found := !nack;
    bus.Stop(events + [START] + [BYTE(0xD0, found)]);
    assert events + [START] + [BYTE(0xD0, found)] + [STOP] == events + [START, BYTE(0xD0, found), STOP];
  }

  /** rtc_init: both lines are raised, and the control register is cleared if the clock answers. */
  method RtcInit(bus: Bus) returns (found: bool)
    requires bus.w.rtc.free && bus.w.rom.free && Fitted(bus.w)
    modifies bus
    ensures found == (old(bus.w.rtc.addr) == DS3231_ADDR) && SameRest(old(bus.w), bus.w)
    ensures Wired(bus.w, [START, BYTE(0xD0, found), STOP] +
                         (if found then [START, BYTE(0xD0, true), BYTE(0x0E, true), BYTE(0, true), STOP] else []))
    ensures var regs := old(bus.w.rtc.chip.regs); bus.w.rtc.chip.regs == if found then regs[RegNo(0x0E) := 0] else regs
  {
    hide Quiet, Floating, Taking, AddrOf, Reads;
    bus.Raise();
    found := Probe(bus, []);
    ghost var e0 := [START, BYTE(0xD0, found), STOP];
    assert [] + e0 == e0 && e0 + [] == e0;
    if !found {
      return;
    }
    ghost var l, c, e := ClockLink(bus.w), bus.w.rtc.chip, e0;
    LinkEnded(bus.w, e);
    AddressBytes();
    var nack := Address(bus, 0xD0, e, l, c);
    e, c := e + [START] + [BYTE(0xD0, true)], c.Begin();
    Put(bus, 0x0E, e, l, c);
    e, c := e + [BYTE(0x0E, true)], c.Store(0x0E);
    Put(bus, 0, e, l, c);
    e, c := e + [BYTE(0, true)], c.Store(0);
    End(bus, e, l, c);
    Join5(e0, START, BYTE(0xD0, true), BYTE(0x0E, true), BYTE(0, true), STOP);
  }

  // ------------------------------------------------------------------ whole runs

  datatype Op = Set(t: Time) | Ask | Poke(addr: bv16, data: bv8) | Peek(addr: bv16)

  datatype Answer = None | TimeIs(t: Time) | CellIs(v: bv8)

  /** The two chips' memories, which is all a caller can tell them by. */
  datatype Memories = Memories(regs: map<RegNo, bv8>, cells: map<CellNo, bv8>)

  function Apply(m: Memories, op: Op): (r: (Memories, Answer)) {
    match op
    case Set(t) => (m.(regs := WithTime(m.regs, t)), None)
    case Ask => (m, TimeIs(TimeOf(m.regs)))
    case Poke(a, d) => (m.(cells := m.cells[CellNo(CellAt(a)) := d]), None)
    case Peek(a) => (m, CellIs(Cell(m.cells, CellAt(a))))
  }

  function ApplyAll(m: Memories, ops: seq<Op>): (r: (Memories, seq<Answer>))
    ensures |r.1| == |ops|
  {
    if ops == [] then (m, [])
    else
      var rest := ApplyAll(m, ops[..|ops| - 1]);
      var last := Apply(rest.0, ops[|ops| - 1]);
      (last.0, rest.1 + [last.1])
  }

  /** What a call says on the wires when the memories are m. */
  function Said(m: Memories, op: Op): seq<Event> {
    match op
    case Set(t) => SettingTime(t)
    case Ask => ReadingTime(m.regs)
    case Poke(a, d) => WritingCell(a, d)
    case Peek(a) => ReadingCell(a, Cell(m.cells, CellAt(a)))
  }

  function SaidAll(m: Memories, ops: seq<Op>): seq<Event> {
    if ops == [] then []
    else SaidAll(m, ops[..|ops| - 1]) + Said(ApplyAll(m, ops[..|ops| - 1]).0, ops[|ops| - 1])
  }

  lemma SaidMore(m: Memories, ops: seq<Op>, i: nat, before: seq<Event>)
    requires i < |ops|
    ensures before + SaidAll(m, ops[..i + 1]) == before + SaidAll(m, ops[..i]) + Said(ApplyAll(m, ops[..i]).0, ops[i])
  {
    hide Said, ApplyAll;
    assert ops[..i + 1][..i] == ops[..i];
  }

  ghost function Now(w: World): Memories
    requires w.rtc.chip.Clock? && w.rom.chip.Rom?
  {
    Memories(w.rtc.chip.regs, w.rom.chip.cells)
  }

  /** One call on a bus with both chips present. */
  method RunOp(bus: Bus, op: Op, ghost events: seq<Event>) returns (answer: Answer)
    requires Wired(bus.w, events) && bus.w.rtc.addr == DS3231_ADDR && bus.w.rom.addr == EEPROM_ADDR
    modifies bus
    ensures bus.w.rtc.addr == DS3231_ADDR && bus.w.rom.addr == EEPROM_ADDR
    ensures Wired(bus.w, events + Said(old(Now(bus.w)), op)) && (Now(bus.w), answer) == Apply(old(Now(bus.w)), op)
  {
    hide Quiet, WithTime, TimeOf, Cell, CellAt, SettingTime, ReadingTime, WritingCell, ReadingCell;
    answer := None;
    match op
    case Set(t) =>
      var cell := new TimeCell(t);
      SetTime(bus, cell, events);
    case Ask =>
      var cell := new TimeCell(Time(0, 0, 0, 0, 0, 0));
      var failed := ReadTime(bus, cell, events);
      answer := TimeIs(cell.t);
    case Poke(a, d) =>
      EepromWrite(bus, a, d, events);
    case Peek(a) =>
      var v := EepromRead(bus, a, events);
      answer := CellIs(v);
  }

  /** Any sequence of calls on a bus with both chips present answers as the two memories would, and the wires carry
      exactly what each call says in its turn: legally, and idle at the end. */
  method RunOps(bus: Bus, ops: seq<Op>, ghost before: seq<Event>) returns (answers: seq<Answer>)
    requires Wired(bus.w, before) && bus.w.rtc.addr == DS3231_ADDR && bus.w.rom.addr == EEPROM_ADDR
    modifies bus
    ensures Fitted(old(bus.w)) && Wired(bus.w, before + SaidAll(Now(old(bus.w)), ops))
    ensures (Now(bus.w), answers) == ApplyAll(Now(old(bus.w)), ops)
  {
    hide Quiet, Said, SaidAll, Apply;
    answers := [];
    ghost var m := Now(bus.w);
    var i := 0;
    SaidNone(m, before);
    assert ops[..0] == [];
    while i < |ops|
      invariant 0 <= i <= |ops|
      invariant bus.w.rtc.addr == DS3231_ADDR && bus.w.rom.addr == EEPROM_ADDR
      invariant Wired(bus.w, before + SaidAll(m, ops[..i]))
      invariant (Now(bus.w), answers) == ApplyAll(m, ops[..i])
    {
      assert ops[..i + 1][..i] == ops[..i];
      SaidMore(m, ops, i, before);
      var answer := RunOp(bus, ops[i], before + SaidAll(m, ops[..i]));
      answers := answers + [answer];
      i := i + 1;
    }
    assert ops[..i] == ops;
  }

  lemma SaidNone(m: Memories, before: seq<Event>)
    ensures before + SaidAll(m, []) == before
  {
  }

  /** After a time is set, the clock answers with it for as long as nobody sets another, whatever else happens
      on the bus; and it does so exactly when every field fits. */
  lemma {:induction false} TimeStays(m: Memories, t: Time, ops: seq<Op>)
    requires forall i :: 0 <= i < |ops| ==> !ops[i].Set?
    ensures Apply(ApplyAll(Apply(m, Set(t)).0, ops).0, Ask).1 == TimeIs(t) <==> Keepable(t)
    decreases |ops|
  {
    hide TimeOf, WithTime, Cell, CellAt, Keepable;
    if ops == [] {
      TimeRoundTrip(m.regs, t);
    } else {
      TimeStays(m, t, ops[..|ops| - 1]);
    }
  }

  /** A byte written stays until a write to the same twelve-bit address. */
  lemma {:induction false} CellStays(m: Memories, a: bv16, d: bv8, ops: seq<Op>, b: bv16)
    requires forall i :: 0 <= i < |ops| && ops[i].Poke? ==> CellAt(ops[i].addr) != CellAt(b)
    ensures Apply(ApplyAll(Apply(m, Poke(a, d)).0, ops).0, Peek(b)).1 ==
            CellIs(if CellAt(a) == CellAt(b) then d else Cell(m.cells, CellAt(b)))
    decreases |ops|
  {
    hide TimeOf, WithTime, Cell, CellAt;
    var start := Apply(m, Poke(a, d)).0;
    if ops == [] {
      CellSet(m.cells, CellAt(a), d, CellAt(b));
    } else {
      var n := |ops| - 1;
      CellStays(m, a, d, ops[..n], b);
      var rest := ApplyAll(start, ops[..n]).0;
      if ops[n].Poke? {
        CellSet(rest.cells, CellAt(ops[n].addr), ops[n].data, CellAt(b));
      }
    }
  }

  lemma CellSet(c: map<CellNo, bv8>, p: bv16, v: bv8, q: bv16)
    ensures Cell(c[CellNo(p) := v], q) == if q == p then v else Cell(c, q)
  {
  }
}
