/** A bit-banged I2C bus: the two wires, the slaves on them at the level of single clock edges, a decoder
    that sees only the wires, and the master's primitives. */
module I2cBus {

  // ---------------------------------------------------------------------- bits

  /** A byte as it goes over the wire, most significant bit first. */
  function Bits(b: bv8): (s: seq<bool>)
    ensures |s| == 8
  {
    [b & 0x80 != 0, b & 0x40 != 0, b & 0x20 != 0, b & 0x10 != 0,
     b & 0x08 != 0, b & 0x04 != 0, b & 0x02 != 0, b & 0x01 != 0]
  }

  function Value(bits: seq<bool>): (b: bv8) {
    if bits == [] then 0
    else Push(Value(bits[..|bits| - 1]), bits[|bits| - 1])
  }

  function Push(b: bv8, bit: bool): bv8 { (b << 1) | (if bit then 1 else 0) }

  lemma ValuePush(bits: seq<bool>, bit: bool)
    ensures Value(bits + [bit]) == Push(Value(bits), bit)
  {
    assert (bits + [bit])[..|bits|] == bits;
  }

  lemma PushAll(b: bv8)
    ensures var s := Bits(b);
            Push(Push(Push(Push(Push(Push(Push(Push(0, s[0]), s[1]), s[2]), s[3]), s[4]), s[5]), s[6]), s[7]) == b
  {
  }

  /** The wire loses nothing: eight shifted-in bits are the byte. */
  lemma ValueOfBits(b: bv8)
    ensures Value(Bits(b)) == b
  {
    hide Bits, Push, Value;
    var s := Bits(b);
    NoValue(s);
    ValueTo(s, 0);
    ValueTo(s, 1);
    ValueTo(s, 2);
    ValueTo(s, 3);
    ValueTo(s, 4);
    ValueTo(s, 5);
    ValueTo(s, 6);
    ValueTo(s, 7);
    assert s[..8] == s;
    PushAll(b);
  }

  lemma NoValue(s: seq<bool>)
    ensures Value(s[..0]) == 0
  {
  }

  lemma ValueTo(s: seq<bool>, k: nat)
    requires k < |s|
    ensures Value(s[..k + 1]) == Push(Value(s[..k]), s[k])
  {
    assert s[..k + 1] == s[..k] + [s[k]];
    ValuePush(s[..k], s[k]);
  }

  // --------------------------------------------------------------------- chips

  datatype RegNo = RegNo(n: bv8)

  datatype CellNo = CellNo(n: bv16)

  /** What sits behind a slave's bus interface. `need` counts the address bytes a write still owes. */
  datatype Chip =
    | Clock(ptr: bv8, regs: map<RegNo, bv8>, need: nat)
    | Rom(at: bv16, cells: map<CellNo, bv8>, need: nat)
  {
    /** A write to this chip begins. */
    function Begin(): Chip {
      this.(need := if Clock? then 1 else 2)
    }

    /** A byte arrives: first the register or cell address, then data, with the address moving on. */
    function Store(b: bv8): Chip {
      match this
      case Clock(p, r, n) => if n > 0 then Clock(b, r, 0) else Clock(NextReg(p), r[RegNo(p) := b], 0)
      case Rom(a, c, n) =>
        if n >= 2 then Rom((a & 0xFF) | HighByte(b), c, 1)
        else if n == 1 then Rom((a & 0xF00) | (b as bv16), c, 0)
        else Rom(NextInPage(a), c[CellNo(a) := b], 0)
    }

    /** The byte at the current address. */
    function Byte(): bv8 {
      match this
      case Clock(p, r, _) => Reg(r, p)
      case Rom(a, c, _) => Cell(c, a)
    }

    function Advance(): Chip {
      match this
      case Clock(p, r, n) => Clock(NextReg(p), r, n)
      case Rom(a, c, n) => Rom((a + 1) & 0xFFF, c, n)
    }
  }

  function HighByte(b: bv8): bv16 { ((b & 0x0F) as bv16) << 8 }

  /** The DS3231 has registers 0x00 to 0x12 and goes round. */
  function NextReg(p: bv8): bv8 { if p == 0x12 then 0 else p + 1 }

  /** Writes to the AT24C32 go round within a 32-byte page. */
  function NextInPage(a: bv16): bv16 { (a & 0xFE0) | ((a + 1) & 0x1F) }

  function Reg(r: map<RegNo, bv8>, p: bv8): bv8 { if RegNo(p) in r then r[RegNo(p)] else 0 }

  /** Cells never written read as erased. */
  function Cell(c: map<CellNo, bv8>, a: bv16): bv8 { if CellNo(a) in c then c[CellNo(a)] else 0xFF }

  // -------------------------------------------------------------------- slaves

  /** The first byte after START: seven address bits and the direction. */
  function AddrOf(b: bv8): bv8 { b >> 1 }

  predicate Reads(b: bv8) { b & 1 == 1 }

  datatype Phase = Idle | Address | Receive | Transmit

  /** A slave's bus interface: the bits clocked since the last byte boundary, whether it leaves the data
      line alone (`free`), the byte it is sending, and the chip behind. */
  datatype Slave = Slave(addr: bv8, phase: Phase, bits: seq<bool>, free: bool, out: bv8, chip: Chip) {
    function Start(): Slave { this.(phase := Address, bits := [], free := true) }

    function Stop(): Slave { this.(phase := Idle, bits := [], free := true) }

    /** The clock rises: the line is sampled. */
    function Rise(line: bool): Slave {
      if phase == Idle then this else this.(bits := bits + [line])
    }

    /** The clock falls: the slave may take hold of the line or let it go. */
    function Fall(): Slave {
      var n := |bits|;
      match phase
      case Idle => this
      case Address =>
        if n == 8 then if AddrOf(Value(bits)) == addr then this.(free := false) else Stop()
        else if n == 9 then
          if Reads(Value(bits[..8])) then Send()
          else this.(phase := Receive, bits := [], free := true, chip := chip.Begin())
        else this
      case Receive =>
        if n == 8 then this.(free := false, chip := chip.Store(Value(bits)))
        else if n == 9 then this.(bits := [], free := true)
        else this
      case Transmit =>
        if 0 < n < 8 then this.(free := Bits(out)[n])
        else if n == 8 then this.(free := true)
        else if n == 9 then if !bits[8] then Send() else Stop()
        else this
    }

    /** The next byte of the chip goes out. */
    function Send(): Slave {
      this.(phase := Transmit, out := chip.Byte(), bits := [], free := Bits(chip.Byte())[0], chip := chip.Advance())
    }
  }

  // ---------------------------------------------------------------------- wires

  datatype Level = Level(scl: bool, sda: bool)

  /** The master's two outputs (true lets the line float high), two slaves, and every level the wires went through. */
  datatype World = World(scl: bool, sda: bool, rtc: Slave, rom: Slave, trace: seq<Level>)

  /** The data line is low as soon as anyone pulls it. */
  function Line(w: World): bool { w.sda && w.rtc.free && w.rom.free }

  function Noted(w: World): World { w.(trace := w.trace + [Level(w.scl, Line(w))]) }

  /** The master moves the data line; with the clock high the slaves take a fall as START and a rise as STOP. */
  function SetSda(w: World, v: bool): World {
    var was, next := Line(w), w.(sda := v);
    if w.scl && was && !Line(next) then Noted(next.(rtc := w.rtc.Start(), rom := w.rom.Start()))
    else if w.scl && !was && Line(next) then Noted(next.(rtc := w.rtc.Stop(), rom := w.rom.Stop()))
    else Noted(next)
  }

  /** The master moves the clock; after a fall the slaves' answer shows on the data line. */
  function SetScl(w: World, v: bool): World {
    var next := w.(scl := v);
    if v && !w.scl then Noted(next.(rtc := w.rtc.Rise(Line(w)), rom := w.rom.Rise(Line(w))))
    else if !v && w.scl then Noted(Noted(next).(rtc := w.rtc.Fall(), rom := w.rom.Fall()))
    else Noted(next)
  }

  // -------------------------------------------------------------------- decoder

  datatype Event = START | STOP | BYTE(b: bv8, ack: bool)

  /** What an observer of the two wires has made out so far. The trace stays legal as long as the wires move
      one at a time and START and STOP come only between bytes, after at most the clock edge that leads to them. */
  datatype Seen = Seen(last: Level, bits: seq<bool>, events: seq<Event>, legal: bool)

  function See(d: Seen, l: Level): Seen {
    if d.last.scl && l.scl then
      if d.last.sda && !l.sda then Seen(l, [], d.events + [START], d.legal && |d.bits| <= 1)
      else if !d.last.sda && l.sda then Seen(l, [], d.events + [STOP], d.legal && |d.bits| <= 1)
      else d
    else
      var e := d.(last := l, legal := d.legal && (d.last.scl == l.scl || d.last.sda == l.sda));
      if l.scl then Clocked(e, l.sda) else e
  }

  /** Once illegal, a trace stays so; and a legal one becomes illegal exactly when both wires move at once, or the data
      line moves under a high clock after two or more bits of a byte. */
  lemma LegalIff(d: Seen, l: Level)
    ensures var jump := d.last.scl != l.scl && d.last.sda != l.sda;
            var early := d.last.scl && l.scl && d.last.sda != l.sda && |d.bits| >= 2;
            See(d, l).legal <==> d.legal && !jump && !early
  {
    hide Value;
  }

  predicate SameSeen(d: Seen, e: Seen) { d.bits == e.bits && d.events == e.events && d.legal == e.legal }

  /** Every ninth clock completes a byte with its acknowledgement. */
  function Clocked(d: Seen, bit: bool): Seen {
    if |d.bits| == 8 then d.(bits := [], events := d.events + [BYTE(Value(d.bits), !bit)])
    else d.(bits := d.bits + [bit])
  }

  /** Reading a whole trace from an idle bus. */
  function Decode(trace: seq<Level>): Seen {
    if trace == [] then Seen(Level(true, true), [], [], true)
    else See(Decode(trace[..|trace| - 1]), trace[|trace| - 1])
  }

  lemma DecodeNext(t: seq<Level>, l: Level)
    ensures Decode(t + [l]) == See(Decode(t), l)
  {
    assert (t + [l])[..|t|] == t;
  }

  predicate SeenIs(d: Seen, bits: seq<bool>, events: seq<Event>) { d.legal && d.bits == bits && d.events == events }

  predicate Synced(w: World) { Decode(w.trace).last == Level(w.scl, Line(w)) }

  /** The observer has seen exactly these events, legally, and no part of a further byte. */
  predicate Saw(w: World, events: seq<Event>) {
    SeenIs(Decode(w.trace), [], events)
  }

  // ------------------------------------------------------------- single movements

  /** With the clock low the data line may move freely. */
  lemma SdaWhileLow(w: World, v: bool)
    requires !w.scl && Synced(w)
    ensures var x := SetSda(w, v);
            && Synced(x) && x == w.(sda := v, trace := x.trace)
            && SameSeen(Decode(x.trace), Decode(w.trace))
  {
    hide Decode;
    DecodeNext(w.trace, Level(false, Line(w.(sda := v))));
  }

  lemma RiseEffect(w: World)
    requires !w.scl && Synced(w)
    ensures var x := SetScl(w, true);
            && Synced(x) && Line(x) == Line(w)
            && x == w.(scl := true, rtc := w.rtc.Rise(Line(w)), rom := w.rom.Rise(Line(w)), trace := x.trace)
            && Decode(x.trace) == Clocked(Decode(w.trace).(last := Level(true, Line(w))), Line(w))
  {
    hide Decode, Clocked;
    DecodeNext(w.trace, Level(true, Line(w)));
    ClockedLast(Decode(w.trace).(last := Level(true, Line(w))), Line(w));
  }

  lemma ClockedLast(d: Seen, bit: bool)
    ensures Clocked(d, bit).last == d.last
  {
  }

  lemma FallEffect(w: World)
    requires w.scl && Synced(w)
    ensures var x := SetScl(w, false);
            && Synced(x) && x == w.(scl := false, rtc := w.rtc.Fall(), rom := w.rom.Fall(), trace := x.trace)
            && SameSeen(Decode(x.trace), Decode(w.trace))
  {
    hide Decode;
    var mid := Noted(w.(scl := false));
    DecodeNext(w.trace, Level(false, Line(w)));
    var x := mid.(rtc := w.rtc.Fall(), rom := w.rom.Fall());
    DecodeNext(mid.trace, Level(false, Line(x)));
  }

  /** Nothing moves, nothing is seen. */
  lemma Still(w: World)
    requires Synced(w)
    ensures var x := Noted(w); x == w.(trace := x.trace) && Decode(x.trace) == Decode(w.trace)
  {
    hide Decode;
    DecodeNext(w.trace, Level(w.scl, Line(w)));
  }

  /** One clock pulse: everyone samples the line, then the slaves answer. */
  lemma PulseEffect(w: World)
    requires !w.scl && Synced(w)
    ensures var x := SetScl(SetScl(w, true), false);
            && Synced(x)
            && x == w.(rtc := w.rtc.Rise(Line(w)).Fall(), rom := w.rom.Rise(Line(w)).Fall(), trace := x.trace)
            && SameSeen(Decode(x.trace), Clocked(Decode(w.trace), Line(w)))
  {
    hide Decode, SetScl, Synced;
    RiseEffect(w);
    FallEffect(SetScl(w, true));
  }

  // ---------------------------------------------------------- bytes to the slaves

  /** At a byte boundary, not sending. */
  predicate Listening(s: Slave) { s.phase != Transmit && s.bits == [] && s.free }

  predicate Acks(s: Slave, b: bv8) {
    s.phase == Receive || (s.phase == Address && AddrOf(b) == s.addr)
  }

  /** A listening slave after a whole byte and its acknowledgement. */
  function Took(s: Slave, b: bv8): Slave {
    match s.phase
    case Address =>
      if AddrOf(b) != s.addr then s.(phase := Idle)
      else if Reads(b) then s.Send()
      else s.(phase := Receive, chip := s.chip.Begin())
    case Receive => s.(chip := s.chip.Store(b))
    case _ => s
  }

  /** A listening slave after some of the eight data bits. */
  function After(s: Slave, bits: seq<bool>): Slave {
    var t := if s.phase == Idle then s else s.(bits := bits);
    if |bits| < 8 then t else t.Fall()
  }

  lemma AfterStep(s: Slave, bits: seq<bool>, bit: bool)
    requires Listening(s) && |bits| < 8
    ensures After(s, bits).free
    ensures After(s, bits).Rise(bit).Fall() == After(s, bits + [bit])
  {
  }

  lemma AckStep(s: Slave, b: bv8, line: bool)
    requires Listening(s)
    ensures After(s, Bits(b)).free == !Acks(s, b)
    ensures After(s, Bits(b)).Rise(line).Fall() == Took(s, b)
  {
    hide Bits, Value, AddrOf, Reads, Chip.Store, Chip.Begin, Slave.Send;
    var bits := Bits(b);
    ValueOfBits(b);
    assert (bits + [line])[..8] == bits;
    if s.phase == Address {
      AddressAck(s, bits, b, line);
    }
  }

  lemma AddressAck(s: Slave, bits: seq<bool>, b: bv8, line: bool)
    requires Listening(s) && s.phase == Address && |bits| == 8 && Value(bits) == b && (bits + [line])[..8] == bits
    ensures After(s, bits).free == !Acks(s, b)
    ensures After(s, bits).Rise(line).Fall() == Took(s, b)
  {
    hide Bits, Value, AddrOf, Reads, Chip.Store, Chip.Begin, Slave.Send;
    var t := s.(bits := bits);
    assert t.Fall() == if AddrOf(b) == s.addr then t.(free := false) else t.Stop();
    if AddrOf(b) == s.addr {
      var u := t.(free := false, bits := bits + [line]);
      assert After(s, bits).Rise(line) == u;
      assert u.Fall() == if Reads(b) then u.Send()
                         else u.(phase := Receive, bits := [], free := true, chip := s.chip.Begin());
      SendForgets(s, u);
    }
  }

  lemma SendForgets(s: Slave, u: Slave)
    requires u.addr == s.addr && u.chip == s.chip
    ensures s.Send() == u.Send()
  {
    hide Bits;
  }

  ghost predicate Midway(w: World, rtc: Slave, rom: Slave, bits: seq<bool>, events: seq<Event>) {
    && !w.scl && Synced(w) && w.rtc == After(rtc, bits) && w.rom == After(rom, bits)
    && SeenIs(Decode(w.trace), bits, events)
  }

  lemma BitGoesOut(w: World, rtc: Slave, rom: Slave, bits: seq<bool>, events: seq<Event>, bit: bool)
    requires Midway(w, rtc, rom, bits, events) && Listening(rtc) && Listening(rom) && |bits| < 8
    ensures Midway(SetScl(SetScl(SetSda(w, bit), true), false), rtc, rom, bits + [bit], events)
  {
    hide Decode, After, SetScl, SetSda, Synced;
    SdaWhileLow(w, bit);
    AfterStep(rtc, bits, bit);
    AfterStep(rom, bits, bit);
    PulseEffect(SetSda(w, bit));
  }

  /** At a byte boundary inside a transaction. */
  ghost predicate Between(w: World, events: seq<Event>) {
    !w.scl && Synced(w) && Saw(w, events)
  }

  lemma AckComesBack(w: World, rtc: Slave, rom: Slave, events: seq<Event>, b: bv8)
    requires Midway(w, rtc, rom, Bits(b), events) && Listening(rtc) && Listening(rom)
    ensures var hi := SetScl(SetSda(w, true), true);
            var x := SetScl(hi, false);
            && Line(hi) == !(Acks(rtc, b) || Acks(rom, b))
            && x.sda && x.rtc == Took(rtc, b) && x.rom == Took(rom, b)
            && Between(x, events + [BYTE(b, !Line(hi))])
  {
    hide Decode, After, SetScl, SetSda, Synced, Bits, Value, Took;
    var u := SetSda(w, true);
    SdaWhileLow(w, true);
    AckStep(rtc, b, Line(u));
    AckStep(rom, b, Line(u));
    RiseEffect(u);
    FallEffect(SetScl(u, true));
    ValueOfBits(b);
  }

  // -------------------------------------------------------- bytes from the slaves

  /** At a byte boundary with the line held for the first bit, or not taking part. */
  predicate Talking(s: Slave) {
    s.bits == [] && (s.phase == Idle || s.phase == Transmit) && s.free == OutBit(s, 0)
  }

  predicate OutBit(s: Slave, k: nat)
    requires k < 8
  {
    s.phase == Transmit ==> Bits(s.out)[k]
  }

  function During(s: Slave, bits: seq<bool>): Slave
    requires |bits| <= 8
  {
    if s.phase == Idle then s else s.(bits := bits, free := if |bits| < 8 then OutBit(s, |bits|) else true)
  }

  /** A talking slave after its byte has been acknowledged or refused. */
  function Gave(s: Slave, ack: bool): Slave {
    if s.phase == Idle then s else if ack then s.Send() else s.Stop()
  }

  lemma DuringStep(s: Slave, bits: seq<bool>, line: bool)
    requires Talking(s) && |bits| < 8
    ensures During(s, bits).free == OutBit(s, |bits|)
    ensures During(s, bits).Rise(line).Fall() == During(s, bits + [line])
  {
    hide Bits;
  }

  lemma GaveStep(s: Slave, bits: seq<bool>, line: bool)
    requires Talking(s) && |bits| == 8
    ensures During(s, bits).free && During(s, bits).Rise(line).Fall() == Gave(s, !line)
  {
    hide Bits;
  }

  ghost predicate Halfway(w: World, rtc: Slave, rom: Slave, bits: seq<bool>, events: seq<Event>) {
    && !w.scl && w.sda && Synced(w) && |bits| <= 8
    && w.rtc == During(rtc, bits) && w.rom == During(rom, bits)
    && SeenIs(Decode(w.trace), bits, events)
  }

  lemma BitComesIn(w: World, rtc: Slave, rom: Slave, bits: seq<bool>, events: seq<Event>)
    requires Halfway(w, rtc, rom, bits, events) && Talking(rtc) && Talking(rom) && |bits| < 8
    ensures var bit := OutBit(rtc, |bits|) && OutBit(rom, |bits|);
            && Line(SetScl(w, true)) == bit
            && Halfway(SetScl(SetScl(w, true), false), rtc, rom, bits + [bit], events)
  {
    hide Decode, During, SetScl, Synced, OutBit;
    DuringStep(rtc, bits, Line(w));
    DuringStep(rom, bits, Line(w));
    PulseEffect(w);
    RiseEffect(w);
  }

  lemma AckGoesOut(w: World, rtc: Slave, rom: Slave, bits: seq<bool>, events: seq<Event>, ack: bool)
    requires Halfway(w, rtc, rom, bits, events) && Talking(rtc) && Talking(rom) && |bits| == 8
    ensures var x := SetSda(SetScl(SetScl(SetSda(w, !ack), true), false), true);
            && x.sda && x.rtc == Gave(rtc, ack) && x.rom == Gave(rom, ack)
            && Between(x, events + [BYTE(Value(bits), ack)])
  {
    hide Decode, During, SetScl, SetSda, Synced, OutBit, Value, Gave;
    SdaWhileLow(w, !ack);
    var u := SetSda(w, !ack);
    GaveStep(rtc, bits, !ack);
    GaveStep(rom, bits, !ack);
    PulseEffect(u);
    SdaWhileLow(SetScl(SetScl(u, true), false), true);
  }

  // ------------------------------------------------------------- start and stop

  /** An idle bus: both lines high, no slave taking part, no byte under way. */
  ghost predicate Quiet(w: World, events: seq<Event>) {
    && w.scl && w.sda && Synced(w) && Saw(w, events)
    && w.rtc.phase == Idle && Listening(w.rtc) && w.rom.phase == Idle && Listening(w.rom)
  }

  /** Both lines high, whatever the slaves were doing, as long as neither holds the data line. */
  ghost predicate Floating(w: World, events: seq<Event>) {
    w.scl && w.sda && Synced(w) && Saw(w, events) && w.rtc.free && w.rom.free
  }

  lemma QuietFloats(w: World, events: seq<Event>)
    requires Quiet(w, events)
    ensures Floating(w, events)
  {
  }

  /** Inside a transaction, with every slave waiting for a byte or for the next condition. */
  ghost predicate Ready(w: World, events: seq<Event>) {
    Between(w, events) && Listening(w.rtc) && Listening(w.rom)
  }

  lemma SdaFallsHigh(w: World)
    requires w.scl && Line(w) && Synced(w)
    ensures var x := SetSda(w, false);
            && Synced(x) && x == w.(sda := false, rtc := w.rtc.Start(), rom := w.rom.Start(), trace := x.trace)
            && (Decode(w.trace).legal && |Decode(w.trace).bits| <= 1 ==>
                  SeenIs(Decode(x.trace), [], Decode(w.trace).events + [START]))
  {
    hide Decode;
    DecodeNext(w.trace, Level(true, false));
  }

  lemma SdaRisesHigh(w: World)
    requires w.scl && !w.sda && w.rtc.free && w.rom.free && Synced(w)
    ensures var x := SetSda(w, true);
            && Synced(x) && x == w.(sda := true, rtc := w.rtc.Stop(), rom := w.rom.Stop(), trace := x.trace)
            && (Decode(w.trace).legal && |Decode(w.trace).bits| <= 1 ==>
                  SeenIs(Decode(x.trace), [], Decode(w.trace).events + [STOP]))
  {
    hide Decode;
    DecodeNext(w.trace, Level(true, true));
  }

  /** Raising both lines, from an idle bus or in the middle of a transaction; in the latter case the clock
      edge is sampled by everyone, to be thrown away by the condition that follows. */
  lemma BothHigh(w: World, events: seq<Event>)
    requires Floating(w, events) || Ready(w, events)
    ensures var x := SetScl(SetSda(w, true), true);
            && x.scl && x.sda && Synced(x) && x.rtc.free && x.rom.free
            && x.rtc.Start() == w.rtc.Start() && x.rom.Start() == w.rom.Start()
            && Decode(x.trace).events == events && Decode(x.trace).legal && |Decode(x.trace).bits| <= 1
  {
    hide Decode, Synced, Value;
    var u := SetSda(w, true);
    if w.scl {
      Still(w);
      assert w.(sda := true) == w;
      SyncedKept(w, u);
      Still(u);
      SyncedKept(u, SetScl(u, true));
    } else {
      SdaWhileLow(w, true);
      RiseEffect(u);
    }
  }

  lemma SyncedKept(w: World, x: World)
    requires Synced(w) && x == w.(trace := x.trace) && Decode(x.trace) == Decode(w.trace)
    ensures Synced(x)
  {
  }

  function Started(w: World): World { SetScl(SetSda(SetScl(SetSda(w, true), true), false), false) }

  function Stopped(w: World): World { SetSda(SetScl(SetSda(w, false), true), true) }

  lemma StartWorks(w: World, events: seq<Event>)
    requires Floating(w, events) || Ready(w, events)
    ensures var x := Started(w);
            Ready(x, events + [START]) && x.rtc == w.rtc.Start() && x.rom == w.rom.Start()
  {
    hide Decode, Synced, SetScl, SetSda, Value;
    BothHigh(w, events);
    var u := SetScl(SetSda(w, true), true);
    SdaFallsHigh(u);
    FallEffect(SetSda(u, false));
  }

  lemma StopWorks(w: World, events: seq<Event>)
    requires Ready(w, events)
    ensures var x := Stopped(w);
            Quiet(x, events + [STOP]) && x.rtc == w.rtc.Stop() && x.rom == w.rom.Stop()
  {
    hide Decode, Synced, SetScl, SetSda, Value;
    SdaWhileLow(w, false);
    var u := SetSda(w, false);
    RiseEffect(u);
    SdaRisesHigh(SetScl(u, true));
  }

  // ----------------------------------------------------------------- the master

  lemma BitsShift(d: bv8)
    ensures (d & 0x80 != 0) == Bits(d)[0]
    ensures Bits(d << 1)[..7] == Bits(d)[1..]
  {
  }

  lemma OneTalks(rtc: Slave, rom: Slave, k: nat)
    requires k < 8 && (rtc.phase == Idle || rom.phase == Idle)
    ensures (OutBit(rtc, k) && OutBit(rom, k)) == Bits(Spoken(rtc, rom))[k]
  {
    assert Bits(0xFF)[k];
  }

  /** The byte on the line when at most one slave talks. */
  function Spoken(rtc: Slave, rom: Slave): bv8 {
    if rtc.phase == Transmit then rtc.out else if rom.phase == Transmit then rom.out else 0xFF
  }

  class Bus {
    var w: World

    /** Both lines float high after reset; the slaves are at whatever addresses they were wired to. */
    constructor (rtcAddr: bv8, romAddr: bv8, clock: Chip, rom: Chip)
      ensures Quiet(w, []) && w.rtc.addr == rtcAddr && w.rtc.chip == clock && w.rom.addr == romAddr && w.rom.chip == rom
    {
      w := World(true, true, Slave(rtcAddr, Idle, [], true, 0, clock), Slave(romAddr, Idle, [], true, 0, rom), []);
    }

    method Start(ghost events: seq<Event>)
      requires Floating(w, events) || Ready(w, events)
      modifies this
      ensures Ready(w, events + [START])
      ensures w.rtc == old(w.rtc).Start() && w.rom == old(w.rom).Start()
    {
      hide *;
      StartWorks(w, events);
      StartSteps(w);
      w := SetSda(w, true);
      w := SetScl(w, true);
      w := SetSda(w, false);
      w := SetScl(w, false);
    }

    /** The opening of rtc_init: both lines are let go, from any state in which no slave holds the data line. The
        observer starts here. */
    method Raise()
      requires w.rtc.free && w.rom.free
      modifies this
      ensures Floating(w, [])
      ensures w.rtc.addr == old(w.rtc.addr) && w.rtc.chip == old(w.rtc.chip)
      ensures w.rom.addr == old(w.rom.addr) && w.rom.chip == old(w.rom.chip)
    {
      hide Value;
      w := SetScl(w, true);
      w := SetSda(w, true);
      w := w.(trace := []);
    }

    method Stop(ghost events: seq<Event>)
      requires Ready(w, events)
      modifies this
      ensures Quiet(w, events + [STOP])
      ensures w.rtc == old(w.rtc).Stop() && w.rom == old(w.rom).Stop()
    {
      hide *;
      StopWorks(w, events);
      StopSteps(w);
      w := SetSda(w, false);
      w := SetScl(w, true);
      w := SetSda(w, true);
    }

    /** i2c_write_byte: the answer is false for ACK, true for NACK, as the line reads. */
    method WriteByte(data: bv8, ghost events: seq<Event>) returns (nack: bool)
      requires Ready(w, events)
      modifies this
      ensures nack == !(Acks(old(w.rtc), data) || Acks(old(w.rom), data))
      ensures w.rtc == Took(old(w.rtc), data) && w.rom == Took(old(w.rom), data)
      ensures w.sda && Between(w, events + [BYTE(data, !nack)])
    {
      hide *;
      ghost var rtc, rom := w.rtc, w.rom;
      ReadyFacts(w, events);
      MidwayBegins(w, events);
      var d := data;
      var i := 0;
      assert Bits(data)[..0] == [];
      assert Bits(d)[..8] == Bits(data)[0..];
      while i < 8
        invariant 0 <= i <= 8 && Listening(rtc) && Listening(rom)
        invariant Bits(d)[..8 - i] == Bits(data)[i..]
        invariant Midway(w, rtc, rom, Bits(data)[..i], events)
      {
        BitsShift(d);
        BitsNext(data, d, i);
        BitGoesOut(w, rtc, rom, Bits(data)[..i], events, d & 0x80 != 0);
        if d & 0x80 != 0 {
          w := SetSda(w, true);
        } else {
          w := SetSda(w, false);
        }
        w := SetScl(w, true);
        w := SetScl(w, false);
        d := d << 1;
        i := i + 1;
      }
      assert Bits(data)[..8] == Bits(data);
      AckComesBack(w, rtc, rom, events, data);
      w := SetSda(w, true);
      w := SetScl(w, true);
      nack := Line(w);
      w := SetScl(w, false);
    }

    /** i2c_read_byte. */
    method ReadByte(ack: bool, ghost events: seq<Event>) returns (data: bv8)
      requires Between(w, events) && Talking(w.rtc) && Talking(w.rom)
      requires w.rtc.phase == Idle || w.rom.phase == Idle
      modifies this
      ensures data == Spoken(old(w.rtc), old(w.rom))
      ensures w.rtc == Gave(old(w.rtc), ack) && w.rom == Gave(old(w.rom), ack)
      ensures w.sda && Between(w, events + [BYTE(data, ack)])
    {
      hide *;
      ghost var rtc, rom := w.rtc, w.rom;
      ghost var all := Bits(Spoken(rtc, rom));
      data := 0;
      HalfwayBegins(w, events);
      w := SetSda(w, true);
      NoValue(all);
      assert all[..0] == [];
      var i := 0;
      while i < 8
        invariant 0 <= i <= 8 && data == Value(all[..i])
        invariant Halfway(w, rtc, rom, all[..i], events)
      {
        BitComesIn(w, rtc, rom, all[..i], events);
        OneTalks(rtc, rom, i);
        ValueTo(all, i);
        PushBit(data);
        assert all[..i + 1] == all[..i] + [all[i]];
        data := data << 1;
        w := SetScl(w, true);
        if Line(w) {
          data := data | 1;
        }
        w := SetScl(w, false);
        i := i + 1;
      }
      assert all[..8] == all;
      ValueOfBits(Spoken(rtc, rom));
      AckGoesOut(w, rtc, rom, all, events, ack);
      w := SetSda(w, !ack);
      w := SetScl(w, true);
      w := SetScl(w, false);
      w := SetSda(w, true);
    }
  }

  lemma StartSteps(w: World)
    ensures Started(w) == SetScl(SetSda(SetScl(SetSda(w, true), true), false), false)
  {
  }

  lemma StopSteps(w: World)
    ensures Stopped(w) == SetSda(SetScl(SetSda(w, false), true), true)
  {
  }

  lemma ReadyFacts(w: World, events: seq<Event>)
    requires Ready(w, events)
    ensures Listening(w.rtc) && Listening(w.rom)
  {
  }

  lemma MidwayBegins(w: World, events: seq<Event>)
    requires Ready(w, events)
    ensures Midway(w, w.rtc, w.rom, [], events)
  {
  }

  lemma HalfwayBegins(w: World, events: seq<Event>)
    requires Between(w, events) && Talking(w.rtc) && Talking(w.rom)
    ensures Halfway(SetSda(w, true), w.rtc, w.rom, [], events)
  {
    hide Bits, Decode, SetSda;
    SdaWhileLow(w, true);
  }

  lemma BitsNext(data: bv8, d: bv8, i: nat)
    requires i < 8 && Bits(d)[..8 - i] == Bits(data)[i..] && Bits(d << 1)[..7] == Bits(d)[1..]
    ensures Bits(d)[0] == Bits(data)[i] && Bits(data)[..i] + [Bits(data)[i]] == Bits(data)[..i + 1]
    ensures Bits(d << 1)[..7 - i] == Bits(data)[i + 1..]
  {
    hide Bits;
    var a, b, c := Bits(d), Bits(data), Bits(d << 1);
    assert a[..8 - i][0] == b[i];
    assert c[..7 - i] == c[..7][..7 - i] == a[1..][..7 - i] == a[..8 - i][1..] == b[i..][1..];
  }

  lemma PushBit(d: bv8)
    ensures Push(d, true) == (d << 1) | 1 && Push(d, false) == d << 1
  {
  }
}