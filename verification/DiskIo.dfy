/** The FatFs disk layer: two drives behind one driver that is pointed at a device on every call. */
module DiskIo {
  import opened Machine
  import opened AtaDevice
  import opened AtaDriver

  const ATA_DEV_MIDE := 0
  const ATA_DEV_PICOIDE := 1
  const ATA_BASE_MIDE := 0x00FF4400
  const ATA_BASE_PICOIDE := 0x00FF4000
  const NUM_PDRV := 2

  datatype DResult = ResOk | ResError | ResParErr

  // ------------------------------------------------------------------- meaning

  /** The sector the device addresses for sector number `sector` + i of a partition at `base`:
      unsigned long arithmetic, then the 28 bits the registers hold. */
  function Phys(base: u32, sector: u32, i: nat): (k: nat)
    ensures k < LBA_LIMIT
  {
    (base + sector + i) % LBA_LIMIT
  }

  /** Memory and the two disks. */
  datatype World = World(ram: seq<byte>, disk0: Media, disk1: Media)

  function DiskOf(w: World, pdrv: nat): Media { if pdrv == 0 then w.disk0 else w.disk1 }

  /** The bytes of `count` sectors. */
  function Gather(m: Media, base: u32, sector: u32, count: nat): (r: seq<byte>)
    ensures |r| == 512 * count
    decreases count
  {
    if count == 0 then [] else Gather(m, base, sector, count - 1) + SectorAt(m, Phys(base, sector, count - 1))
  }

  function Chunk(bytes: seq<byte>, i: nat): sector
    requires 512 * (i + 1) <= |bytes|
  {
    bytes[512 * i..512 * (i + 1)]
  }

  /** The disk after `count` sectors of bytes have been written, in order. */
  function Scatter(m: Media, base: u32, sector: u32, bytes: seq<byte>, count: nat): Media
    requires 512 * count <= |bytes|
    decreases count
  {
    if count == 0 then m
    else Scatter(m, base, sector, bytes, count - 1)[Phys(base, sector, count - 1) := Chunk(bytes, count - 1)]
  }

  function Poke(ram: seq<byte>, addr: nat, data: seq<byte>): (r: seq<byte>)
    requires addr + |data| <= |ram|
    ensures |r| == |ram|
  {
    ram[..addr] + data + ram[addr + |data|..]
  }

  datatype Op =
    | Read(pdrv: byte, addr: nat, sector: u32, count: nat)
    | Write(pdrv: byte, addr: nat, sector: u32, count: nat)

  predicate InRam(op: Op, n: nat) { op.addr + 512 * op.count <= n }

  /** Each drive is its own array of sectors, offset by its partition's base. */
  function Apply(w: World, base: seq<u32>, op: Op): (r: World)
    requires |base| == NUM_PDRV && InRam(op, |w.ram|)
    ensures |r.ram| == |w.ram|
  {
    if op.pdrv >= NUM_PDRV then w
    else if op.Read? then
      w.(ram := Poke(w.ram, op.addr, Gather(DiskOf(w, op.pdrv), base[op.pdrv], op.sector, op.count)))
    else
      var bytes := w.ram[op.addr..op.addr + 512 * op.count];
      var m := Scatter(DiskOf(w, op.pdrv), base[op.pdrv], op.sector, bytes, op.count);
      if op.pdrv == 0 then w.(disk0 := m) else w.(disk1 := m)
  }

  function ApplyAll(w: World, base: seq<u32>, ops: seq<Op>): (r: World)
    requires |base| == NUM_PDRV && forall i :: 0 <= i < |ops| ==> InRam(ops[i], |w.ram|)
    ensures |r.ram| == |w.ram|
    decreases |ops|
  {
    if ops == [] then w else ApplyAll(Apply(w, base, ops[0]), base, ops[1..])
  }

  // ------------------------------------------------------- what the arrays promise

  lemma PhysDistinct(base: u32, sector: u32, i: nat, j: nat)
    requires i < j < i + LBA_LIMIT
    ensures Phys(base, sector, i) != Phys(base, sector, j)
  {
  }

  /** A sector that no part of a write names keeps its contents. */
  lemma {:induction false} ScatterElsewhere(m: Media, base: u32, sector: u32, bytes: seq<byte>, count: nat, k: nat)
    requires 512 * count <= |bytes| && forall i :: 0 <= i < count ==> Phys(base, sector, i) != k
    ensures SectorAt(Scatter(m, base, sector, bytes, count), k) == SectorAt(m, k)
    decreases count
  {
    if count > 0 {
      ScatterElsewhere(m, base, sector, bytes, count - 1, k);
    }
  }

  /** A sector named once gets its part of the bytes. */
  lemma {:induction false} ScatterHere(m: Media, base: u32, sector: u32, bytes: seq<byte>, count: nat, i: nat)
    requires 512 * count <= |bytes| && i < count <= LBA_LIMIT
    ensures SectorAt(Scatter(m, base, sector, bytes, count), Phys(base, sector, i)) == Chunk(bytes, i)
    decreases count
  {
    if i < count - 1 {
      PhysDistinct(base, sector, i, count - 1);
      ScatterHere(m, base, sector, bytes, count - 1, i);
    }
  }

  /** Reading back what was written gives the bytes. */
  lemma ReadAfterWrite(m: Media, base: u32, sector: u32, bytes: seq<byte>, count: nat)
    requires |bytes| == 512 * count && count <= LBA_LIMIT
    ensures Gather(Scatter(m, base, sector, bytes, count), base, sector, count) == bytes
  {
    var m' := Scatter(m, base, sector, bytes, count);
    forall i | 0 <= i < count ensures SectorAt(m', Phys(base, sector, i)) == Chunk(bytes, i) {
      ScatterHere(m, base, sector, bytes, count, i);
    }
    GatherIs(m', base, sector, bytes, count);
    assert bytes[..512 * count] == bytes;
  }

  lemma {:induction false} GatherIs(m: Media, base: u32, sector: u32, bytes: seq<byte>, count: nat)
    requires 512 * count <= |bytes|
    requires forall i :: 0 <= i < count ==> SectorAt(m, Phys(base, sector, i)) == Chunk(bytes, i)
    ensures Gather(m, base, sector, count) == bytes[..512 * count]
    decreases count
  {
    hide Phys, SectorAt;
    if count > 0 {
      GatherIs(m, base, sector, bytes, count - 1);
      assert bytes[..512 * count] == bytes[..512 * (count - 1)] + Chunk(bytes, count - 1);
    }
  }

  /** A write elsewhere on the drive does not change what a read gives. */
  lemma {:induction false} ReadPastWrite(m: Media, base: u32, s1: u32, bytes: seq<byte>, n1: nat, s2: u32, n2: nat)
    requires 512 * n1 <= |bytes|
    requires forall i, j :: 0 <= i < n1 && 0 <= j < n2 ==> Phys(base, s1, i) != Phys(base, s2, j)
    ensures Gather(Scatter(m, base, s1, bytes, n1), base, s2, n2) == Gather(m, base, s2, n2)
    decreases n2
  {
    if n2 > 0 {
      ReadPastWrite(m, base, s1, bytes, n1, s2, n2 - 1);
      ScatterElsewhere(m, base, s1, bytes, n1, Phys(base, s2, n2 - 1));
    }
  }

  /** Transfers start where their first sector is and go up to the 28-bit limit, then on from sector 0. */
  lemma PhysFrom(base: u32, sector: u32, i: nat)
    ensures var first := Phys(base, sector, 0);
            && (first + i < LBA_LIMIT ==> Phys(base, sector, i) == first + i)
            && (first + i == LBA_LIMIT ==> Phys(base, sector, i) == 0)
  {
  }

  /** A transfer touches a sector below the partition exactly when it starts there or runs past the 28-bit limit. */
  lemma BelowBase(base: u32, sector: u32, count: nat)
    requires 0 < base
    ensures var first := Phys(base, sector, 0);
            (exists i :: 0 <= i < count && Phys(base, sector, i) < base) <==>
            count > 0 && (first < base || first + count > LBA_LIMIT)
  {
    hide Phys;
    var first := Phys(base, sector, 0);
    if count > 0 && first < base {
      assert Phys(base, sector, 0) < base;
    } else if count > 0 && first + count > LBA_LIMIT {
      PhysFrom(base, sector, LBA_LIMIT - first);
      assert Phys(base, sector, LBA_LIMIT - first) < base;
    } else {
      forall i | 0 <= i < count ensures Phys(base, sector, i) >= base {
        PhysFrom(base, sector, i);
      }
    }
  }

  /** An operation on one drive never changes the other, and reads change neither. */
  lemma DrivesAreIndependent(w: World, base: seq<u32>, op: Op)
    requires |base| == NUM_PDRV && InRam(op, |w.ram|)
    ensures op.Read? || op.pdrv != 0 ==> Apply(w, base, op).disk0 == w.disk0
    ensures op.Read? || op.pdrv != 1 ==> Apply(w, base, op).disk1 == w.disk1
    ensures op.Write? ==> Apply(w, base, op).ram == w.ram
  {
  }

  /** The operations that can change sector k of drive d. */
  predicate Touches(base: seq<u32>, op: Op, d: nat, k: nat)
    requires |base| == NUM_PDRV && d < NUM_PDRV
  {
    op.Write? && op.pdrv == d && exists i :: 0 <= i < op.count && Phys(base[d], op.sector, i) == k
  }

  /** Over any run, a sector holds what the last operation that touches it left there. */
  lemma {:induction false} LastWriteStays(w: World, base: seq<u32>, ops: seq<Op>, d: nat, k: nat)
    requires |base| == NUM_PDRV && d < NUM_PDRV && forall i :: 0 <= i < |ops| ==> InRam(ops[i], |w.ram|)
    requires forall i :: 0 <= i < |ops| ==> !Touches(base, ops[i], d, k)
    ensures SectorAt(DiskOf(ApplyAll(w, base, ops), d), k) == SectorAt(DiskOf(w, d), k)
    decreases |ops|
  {
    hide SectorAt, Phys, Poke, Gather, Scatter;
    if ops != [] {
      var op := ops[0];
      assert !Touches(base, op, d, k);
      OneOpKeeps(w, base, op, d, k);
      LastWriteStays(Apply(w, base, op), base, ops[1..], d, k);
    }
  }

  lemma OneOpKeeps(w: World, base: seq<u32>, op: Op, d: nat, k: nat)
    requires |base| == NUM_PDRV && d < NUM_PDRV && InRam(op, |w.ram|) && !Touches(base, op, d, k)
    ensures SectorAt(DiskOf(Apply(w, base, op), d), k) == SectorAt(DiskOf(w, d), k)
  {
    hide SectorAt, Phys, Poke, Gather, Scatter;
    DrivesAreIndependent(w, base, op);
    if op.Write? && op.pdrv == d {
      var bytes := w.ram[op.addr..op.addr + 512 * op.count];
      ScatterElsewhere(DiskOf(w, d), base[d], op.sector, bytes, op.count, k);
    }
  }

  lemma {:induction false} ApplyConcat(w: World, base: seq<u32>, a: seq<Op>, b: seq<Op>)
    requires |base| == NUM_PDRV && (forall i :: 0 <= i < |a| ==> InRam(a[i], |w.ram|))
    requires forall i :: 0 <= i < |b| ==> InRam(b[i], |w.ram|)
    ensures ApplyAll(w, base, a + b) == ApplyAll(ApplyAll(w, base, a), base, b)
    decreases |a|
  {
    hide Apply;
    if a == [] {
      assert a + b == b;
    } else {
      assert (a + b)[0] == a[0] && (a + b)[1..] == a[1..] + b;
      ApplyConcat(Apply(w, base, a[0]), base, a[1..], b);
    }
  }

  /** The bytes that write op takes from memory after the operations before it. */
  function Sent(w: World, base: seq<u32>, before: seq<Op>, op: Op): (r: seq<byte>)
    requires |base| == NUM_PDRV && InRam(op, |w.ram|) && forall i :: 0 <= i < |before| ==> InRam(before[i], |w.ram|)
    ensures |r| == 512 * op.count
  {
    ApplyAll(w, base, before).ram[op.addr..op.addr + 512 * op.count]
  }

  /** Over any run, a sector holds its part of the last write that names it. */
  lemma SectorIsLatest(w: World, base: seq<u32>, before: seq<Op>, op: Op, after: seq<Op>, d: byte, i: nat)
    requires |base| == NUM_PDRV && d < NUM_PDRV && op.Write? && op.pdrv == d && i < op.count <= LBA_LIMIT
    requires InRam(op, |w.ram|) && (forall j :: 0 <= j < |before| ==> InRam(before[j], |w.ram|))
    requires forall j :: 0 <= j < |after| ==> InRam(after[j], |w.ram|)
    requires var k := Phys(base[d], op.sector, i); forall j :: 0 <= j < |after| ==> !Touches(base, after[j], d, k)
    ensures var k := Phys(base[d], op.sector, i);
            var end := ApplyAll(ApplyAll(ApplyAll(w, base, before), base, [op]), base, after);
            SectorAt(DiskOf(end, d), k) == Chunk(Sent(w, base, before, op), i)
  {
    hide SectorAt, Phys, Poke, Gather, Scatter, Touches;
    var w1 := ApplyAll(w, base, before);
    var w2 := Apply(w1, base, op);
    assert [op][1..] == [];
    assert ApplyAll(w1, base, [op]) == w2;
    ScatterHere(DiskOf(w1, d), base[d], op.sector, Sent(w, base, before, op), op.count, i);
    LastWriteStays(w2, base, after, d, Phys(base[d], op.sector, i));
  }

  /** Reading sectors back gives the bytes of the latest write to them, whatever happened on either drive
      before, and in between to other sectors. */
  lemma ReadReturnsLatest(w: World, base: seq<u32>, before: seq<Op>, op: Op, after: seq<Op>, addr: nat)
    requires |base| == NUM_PDRV && op.Write? && op.pdrv < NUM_PDRV && op.count <= LBA_LIMIT
    requires InRam(op, |w.ram|) && (forall j :: 0 <= j < |before| ==> InRam(before[j], |w.ram|))
    requires (forall j :: 0 <= j < |after| ==> InRam(after[j], |w.ram|)) && addr + 512 * op.count <= |w.ram|
    requires forall i, j :: 0 <= i < op.count && 0 <= j < |after| ==>
               !Touches(base, after[j], op.pdrv, Phys(base[op.pdrv], op.sector, i))
    ensures var read := Read(op.pdrv, addr, op.sector, op.count);
            var ops := before + [op] + after + [read];
            InRam(read, |w.ram|) && forall j :: 0 <= j < |ops| ==> InRam(ops[j], |w.ram|)
    ensures var read := Read(op.pdrv, addr, op.sector, op.count);
            var ops := before + [op] + after + [read];
            ApplyAll(w, base, ops).ram[addr..addr + 512 * op.count] == Sent(w, base, before, op)
  {
    hide SectorAt, Phys, Gather, Scatter, Touches, Apply, ApplyAll;
    var d, bytes := op.pdrv, Sent(w, base, before, op);
    var read := Read(d, addr, op.sector, op.count);
    ApplyConcat(w, base, before + [op] + after, [read]);
    ApplyConcat(w, base, before + [op], after);
    ApplyConcat(w, base, before, [op]);
    var end := ApplyAll(w, base, before + [op] + after);
    forall i | 0 <= i < op.count ensures SectorAt(DiskOf(end, d), Phys(base[d], op.sector, i)) == Chunk(bytes, i) {
      SectorIsLatest(w, base, before, op, after, d, i);
    }
    GatherIs(DiskOf(end, d), base[d], op.sector, bytes, op.count);
    assert bytes[..512 * op.count] == bytes;
    ReadGathers(end, base, read);
  }

  lemma ReadGathers(w: World, base: seq<u32>, read: Op)
    requires |base| == NUM_PDRV && InRam(read, |w.ram|) && read.Read? && read.pdrv < NUM_PDRV
    ensures ApplyAll(w, base, [read]).ram[read.addr..read.addr + 512 * read.count] ==
            Gather(DiskOf(w, read.pdrv), base[read.pdrv], read.sector, read.count)
  {
    assert [read][1..] == [];
    assert ApplyAll(w, base, [read]) == Apply(w, base, read);
  }

  /** A write to drive d that starts in the partition or above and stays below the 28-bit limit. */
  predicate InReach(base: seq<u32>, op: Op, d: nat)
    requires |base| == NUM_PDRV && d < NUM_PDRV
  {
    op.Write? && op.pdrv == d && op.count > 0 ==>
      var first := Phys(base[d], op.sector, 0);
      base[d] <= first && first + op.count <= LBA_LIMIT
  }

  /** Over any run, no operation names a sector below the partition exactly when every write starts in it or above and
      stays below the 28-bit limit; and then those sectors keep their contents. */
  lemma BelowBaseStays(w: World, base: seq<u32>, ops: seq<Op>, d: nat)
    requires |base| == NUM_PDRV && d < NUM_PDRV && 0 < base[d] && forall i :: 0 <= i < |ops| ==> InRam(ops[i], |w.ram|)
    ensures (forall i, k: nat :: 0 <= i < |ops| && k < base[d] ==> !Touches(base, ops[i], d, k)) <==>
            (forall i :: 0 <= i < |ops| ==> InReach(base, ops[i], d))
    ensures (forall i :: 0 <= i < |ops| ==> InReach(base, ops[i], d)) ==>
              forall k: nat :: k < base[d] ==>
                SectorAt(DiskOf(ApplyAll(w, base, ops), d), k) == SectorAt(DiskOf(w, d), k)
  {
    hide Phys, SectorAt, ApplyAll;
    forall i | 0 <= i < |ops|
      ensures (forall k: nat :: k < base[d] ==> !Touches(base, ops[i], d, k)) <==> InReach(base, ops[i], d)
    {
      OneInReach(base, ops[i], d);
    }
    if forall i :: 0 <= i < |ops| ==> InReach(base, ops[i], d) {
      forall k: nat | k < base[d] ensures SectorAt(DiskOf(ApplyAll(w, base, ops), d), k) == SectorAt(DiskOf(w, d), k) {
        LastWriteStays(w, base, ops, d, k);
      }
    }
  }

  lemma OneInReach(base: seq<u32>, op: Op, d: nat)
    requires |base| == NUM_PDRV && d < NUM_PDRV && 0 < base[d]
    ensures (forall k: nat :: k < base[d] ==> !Touches(base, op, d, k)) <==> InReach(base, op, d)
  {
    hide Phys;
    BelowBase(base[d], op.sector, op.count);
    if !InReach(base, op, d) {
      var i :| 0 <= i < op.count && Phys(base[d], op.sector, i) < base[d];
      assert Touches(base, op, d, Phys(base[d], op.sector, i));
    }
  }

  // ------------------------------------------------------------------ the code

  class Disks {
    const mide: Device
    const pico: Device
    const ram: array<byte>
    const bounce: array<nat>
    const base: seq<u32>  // drives[i].parts[0].base
    var ataDev: int
    var ataBase: int

    /** Two distinct devices, and a selection whose two variables agree. The MIDE device ends its BSY periods, since
        the firmware waits for that without a limit. */
    ghost predicate Valid()
      reads this, mide, pico
    {
      && mide != pico && mide.Valid() && pico.Valid() && mide.Paced()
      && bounce.Length == 256 && |base| == NUM_PDRV
      && (ataDev == ATA_DEV_MIDE || ataDev == ATA_DEV_PICOIDE)
      && ataBase == if ataDev == 0 then 0x00FF4400 else 0x00FF4000
    }

    /** Neither device reports errors or drops sectors, and the picoIDE device answers within the polling limit. */
    ghost predicate Healthy()
      reads pico
    {
      mide.ErrorFree() && pico.ErrorFree() && pico.Quick(2000000)
    }

    ghost function Now(): World
      reads this, mide, pico, ram
    {
      World(ram[..], mide.media, pico.media)
    }

    constructor (m: Device, p: Device, memory: array<byte>, bases: seq<u32>)
      requires m != p && m.Valid() && p.Valid() && m.Paced() && |bases| == NUM_PDRV
      ensures Valid() && mide == m && pico == p && ram == memory && base == bases && fresh(bounce)
    {
      mide, pico, ram, base := m, p, memory, bases;
      bounce := new nat[256](_ => 0);
      ataDev, ataBase := ATA_DEV_MIDE, ATA_BASE_MIDE;
    }

    /** `ata_select_device`. */
    method AtaSelectDevice(dev: int) returns (ok: bool)
      modifies this`ataDev, this`ataBase
      ensures ok <==> dev == 0 || dev == 1
      ensures ok ==> ataDev == dev && ataBase == if dev == 0 then 0x00FF4400 else 0x00FF4000
      ensures !ok ==> ataDev == old(ataDev) && ataBase == old(ataBase)
    {
      if dev == ATA_DEV_MIDE {
        ataDev, ataBase := dev, ATA_BASE_MIDE;
        return true;
      }
      if dev == ATA_DEV_PICOIDE {
        ataDev, ataBase := dev, ATA_BASE_PICOIDE;
        return true;
      }
      ok := false;
    }

    /** `select_pdrv`: both drives are enabled. */
    method SelectPdrv(pdrv: byte) returns (ok: bool)
      requires Valid()
      modifies this`ataDev, this`ataBase
      ensures Valid() && (ok <==> pdrv < NUM_PDRV) && (ok ==> ataDev == pdrv)
      ensures !ok ==> ataDev == old(ataDev) && ataBase == old(ataBase)
    {
      if pdrv >= NUM_PDRV {
        return false;
      }
      ok := AtaSelectDevice(pdrv);
    }

    /** The device whose registers are at ataBase. */
    function Current(): Device
      reads this
    {
      if ataBase == ATA_BASE_MIDE then mide else pico
    }

    /** `ata_read_sector`. */
    method AtaReadSector(lba: u32, addr: nat) returns (r: nat)
      requires Valid() && addr + 512 <= ram.Length
      modifies mide, pico, ram, bounce
      ensures Valid() && (r == 0 || r == 512) && (old(Healthy()) ==> Healthy() && r == 512)
      ensures r == 512 ==>
                var s := SectorAt(DiskOf(old(Now()), ataDev), lba % LBA_LIMIT);
                Now() == old(Now()).(ram := Poke(old(ram[..]), addr, s))
      ensures mide.media == old(mide.media) && pico.media == old(pico.media)
      ensures Outside(old(ram[..]), ram[..], addr, 512)
    {
      hide SectorAt, Transfer, Device.Silent, Device.Shown;
      ghost var was := ram[..];
      if ataDev == ATA_DEV_PICOIDE {
        r := PicoRead(Current(), lba, ram, addr, bounce);
      } else {
        r := MideRead(Current(), lba, ram, addr);
      }
      if r == 512 {
        Poked(was, ram[..], addr, ram[addr..addr + 512]);
      }
    }

    /** `ata_write_sector`: `kept` says whether the sector reached the disk. It did whenever the result is 512 and the
        device is the picoIDE one or healthy. */
    method AtaWriteSector(lba: u32, addr: nat) returns (r: nat, ghost kept: bool)
      requires Valid() && addr + 512 <= ram.Length
      modifies mide, pico, bounce
      ensures Valid() && (r == 0 || r == 512) && ram[..] == old(ram[..])
      ensures old(Healthy()) ==> Healthy() && r == 512 && kept
      ensures r == 512 && ataDev == ATA_DEV_PICOIDE ==> kept
      ensures ataDev == ATA_DEV_MIDE && mide.Silent() ==>
                r == 512 && kept == !mide.drops(old(mide.writes)) && mide.writes == old(mide.writes) + 1
      ensures var m := DiskOf(old(Now()), ataDev);
              DiskOf(Now(), ataDev) == if kept then m[lba % LBA_LIMIT := ram[addr..addr + 512]] else m
      ensures DiskOf(Now(), 1 - ataDev) == DiskOf(old(Now()), 1 - ataDev)
    {
      hide Transfer, SectorAt, Device.Silent, Device.Shown, Device.Paced, Device.ErrorFree;
      if ataDev == ATA_DEV_PICOIDE {
        r := PicoWrite(Current(), lba, ram, addr, bounce);
        kept := r == 512 || pico.media != old(pico.media);
      } else {
        var first, last;
        r, first, last := MideWrite(Current(), lba, ram, addr);
        kept := r == 512 && !Err(last);
      }
    }

    /** `disk_read`. */
    method DiskRead(pdrv: byte, addr: nat, sector: u32, count: nat) returns (res: DResult)
      requires Valid() && addr + 512 * count <= ram.Length
      modifies this`ataDev, this`ataBase, mide, pico, ram, bounce
      ensures Valid() && (res == ResParErr <==> pdrv >= NUM_PDRV)
      ensures old(Healthy()) ==> Healthy() && res != ResError
      ensures res != ResError ==> Now() == Apply(old(Now()), base, Read(pdrv, addr, sector, count))
      ensures mide.media == old(mide.media) && pico.media == old(pico.media)
      ensures Outside(old(ram[..]), ram[..], addr, 512 * count)
    {
      hide SectorAt, Phys, Gather, Poke, Device.ErrorFree, Device.Prompt, Device.Paced, Device.Valid;
      var ok := SelectPdrv(pdrv);
      if !ok {
        return ResParErr;
      }
      var physical := (base[pdrv] + sector) % 0x1_0000_0000;
      ghost var w := Now();
      ghost var m := DiskOf(w, pdrv);
      var i: nat := 0;
      GatherNone(m, base[pdrv], sector);
      PokedNothing(w.ram, addr);
      while i < count
        invariant i <= count && Valid() && ataDev == pdrv && (old(Healthy()) ==> Healthy())
        invariant Now() == w.(ram := Poke(w.ram, addr, Gather(m, base[pdrv], sector, i)))
        invariant Outside(w.ram, ram[..], addr, 512 * count)
      {
        ghost var before := ram[..];
        var r := AtaReadSector((physical + i) % 0x1_0000_0000, addr + 512 * i);
        OutsideMore(w.ram, before, ram[..], addr, count, i);
        if r == 0 {
          return ResError;
        }
        PhysOf(base[pdrv], sector, i);
        GatherMore(m, base[pdrv], sector, i);
        PokeMore(w.ram, addr, Gather(m, base[pdrv], sector, i), SectorAt(m, Phys(base[pdrv], sector, i)));
        i := i + 1;
      }
      res := ResOk;
    }

    /** `disk_write`. On any device exactly the sectors marked in `kept` are new. A MIDE device that shows no other
        errors always gives RES_OK, and for new data the effect is then the intended one exactly when it drops none. */
    method DiskWrite(pdrv: byte, addr: nat, sector: u32, count: nat) returns (res: DResult, ghost kept: seq<bool>)
      requires Valid() && addr + 512 * count <= ram.Length
      modifies this`ataDev, this`ataBase, mide, pico, bounce
      ensures Valid() && (res == ResParErr <==> pdrv >= NUM_PDRV) && ram[..] == old(ram[..])
      ensures old(Healthy()) ==> Healthy() && res != ResError
      ensures res != ResError && (old(Healthy()) || pdrv != ATA_DEV_MIDE) ==>
                Now() == Apply(old(Now()), base, Write(pdrv, addr, sector, count))
      ensures res == ResParErr ==> Now() == old(Now())
      ensures res != ResParErr ==>
                var bytes := ram[addr..addr + 512 * count];
                && DiskOf(Now(), 1 - pdrv) == DiskOf(old(Now()), 1 - pdrv)
                && Mixed(DiskOf(old(Now()), pdrv), DiskOf(Now(), pdrv), base[pdrv], sector, bytes, count)
                && |kept| <= count
                && DiskOf(Now(), pdrv) == ScatterKept(DiskOf(old(Now()), pdrv), base[pdrv], sector, bytes, kept)
      ensures pdrv == ATA_DEV_MIDE && mide.Silent() ==>
                && res == ResOk && |kept| == count
                && (NewData(old(mide.media), base[0], sector, ram[addr..addr + 512 * count], count) ==>
                      (Now() == Apply(old(Now()), base, Write(pdrv, addr, sector, count)) <==>
                       mide.StoresAll(old(mide.writes), count)))
    {
      hide Phys, Mixed, Scatter, ScatterKept, SectorAt, NewData, KeptAre, Apply;
      hide Device.ErrorFree, Device.Prompt, Device.Paced, Device.Valid, Device.Silent, Device.StoresAll;
      kept := [];
      var ok := SelectPdrv(pdrv);
      if !ok {
        Refused(Now(), base, Write(pdrv, addr, sector, count));
        return ResParErr, kept;
      }
      var physical := (base[pdrv] + sector) % 0x1_0000_0000;
      ghost var w := Now();
      ghost var m, bytes := DiskOf(w, pdrv), ram[addr..addr + 512 * count];
      ghost var sure := old(Healthy()) || pdrv != ATA_DEV_MIDE;
      ghost var quiet, writes0 := pdrv == ATA_DEV_MIDE && mide.Silent(), mide.writes;
      var i: nat := 0;
      NoneKept(m, base[pdrv], sector, bytes, mide, writes0);
      while i < count
        invariant i <= count && Valid() && ataDev == pdrv && ram[..] == w.ram && (old(Healthy()) ==> Healthy())
        invariant |kept| == i && DiskOf(Now(), pdrv) == ScatterKept(m, base[pdrv], sector, bytes, kept)
        invariant sure ==> forall k :: 0 <= k < i ==> kept[k]
        invariant quiet ==> mide.writes == writes0 + i && KeptAre(mide, writes0, kept)
        invariant DiskOf(Now(), 1 - pdrv) == DiskOf(w, 1 - pdrv)
      {
        var r;
        ghost var stored;
        r, stored := AtaWriteSector((physical + i) % 0x1_0000_0000, addr + 512 * i);
        PhysOf(base[pdrv], sector, i);
        ChunkIs(w.ram, addr, count, i);
        ScatterKeptMore(m, base[pdrv], sector, bytes, kept, stored);
        KeptMore(mide, writes0, kept, stored);
        kept := kept + [stored];
        if r == 0 {
          KeptIsMixed(m, base[pdrv], sector, bytes, kept, count);
          return ResError, kept;
        }
        i := i + 1;
      }
      KeptIsAll(m, base[pdrv], sector, bytes, kept, count);
      KeptIsMixed(m, base[pdrv], sector, bytes, kept, count);
      AllStored(mide, writes0, kept);
      WriteIs(w, base, pdrv, addr, sector, count);
      res := ResOk;
    }
  }

  /** The sectors kept are those that the device does not drop, from its n-th on. */
  ghost predicate KeptAre(d: Device, n: nat, kept: seq<bool>) {
    forall k :: n <= k < n + |kept| ==> kept[k - n] == !d.drops(k)
  }

  lemma KeptMore(d: Device, n: nat, kept: seq<bool>, stored: bool)
    ensures KeptAre(d, n, kept) && stored == !d.drops(n + |kept|) ==> KeptAre(d, n, kept + [stored])
  {
  }

  lemma AllStored(d: Device, n: nat, kept: seq<bool>)
    ensures KeptAre(d, n, kept) ==> (d.StoresAll(n, |kept|) <==> forall i :: 0 <= i < |kept| ==> kept[i])
  {
    if KeptAre(d, n, kept) && d.StoresAll(n, |kept|) {
      forall i | 0 <= i < |kept| ensures kept[i] {
        assert kept[n + i - n] == !d.drops(n + i);
      }
    }
  }

  lemma WriteIs(w: World, base: seq<u32>, pdrv: byte, addr: nat, sector: u32, count: nat)
    requires |base| == NUM_PDRV && addr + 512 * count <= |w.ram| && pdrv < NUM_PDRV
    ensures var m := Scatter(DiskOf(w, pdrv), base[pdrv], sector, w.ram[addr..addr + 512 * count], count);
            Apply(w, base, Write(pdrv, addr, sector, count)) == if pdrv == 0 then w.(disk0 := m) else w.(disk1 := m)
  {
    hide Scatter;
  }

  lemma Refused(w: World, base: seq<u32>, op: Op)
    requires |base| == NUM_PDRV && InRam(op, |w.ram|) && op.pdrv >= NUM_PDRV
    ensures Apply(w, base, op) == w
  {
  }

  lemma NoneKept(m: Media, base: u32, sector: u32, bytes: seq<byte>, d: Device, n: nat)
    ensures ScatterKept(m, base, sector, bytes, []) == m && KeptAre(d, n, [])
  {
  }

  lemma {:induction false} KeptIsMixed(m: Media, base: u32, sector: u32, bytes: seq<byte>, kept: seq<bool>, count: nat)
    requires |bytes| == 512 * count && |kept| <= count
    ensures Mixed(m, ScatterKept(m, base, sector, bytes, kept), base, sector, bytes, count)
    decreases |kept|
  {
    hide Phys, SectorAt, Mixed;
    if kept == [] {
      NothingMixed(m, base, sector, bytes, count);
    } else {
      var n := |kept| - 1;
      KeptIsMixed(m, base, sector, bytes, kept[..n], count);
      MixedMore(m, ScatterKept(m, base, sector, bytes, kept[..n]), base, sector, bytes, count, n);
    }
  }

  lemma NothingMixed(m: Media, base: u32, sector: u32, bytes: seq<byte>, count: nat)
    requires |bytes| == 512 * count
    ensures Mixed(m, m, base, sector, bytes, count)
  {
  }

  /** The disk after the sectors marked have been written, in order. */
  ghost function ScatterKept(m: Media, base: u32, sector: u32, bytes: seq<byte>, kept: seq<bool>): Media
    requires 512 * |kept| <= |bytes|
    decreases |kept|
  {
    if kept == [] then m
    else
      var n := |kept| - 1;
      var before := ScatterKept(m, base, sector, bytes, kept[..n]);
      if kept[n] then before[Phys(base, sector, n) := Chunk(bytes, n)] else before
  }

  lemma ScatterKeptMore(m: Media, base: u32, sector: u32, bytes: seq<byte>, kept: seq<bool>, stored: bool)
    requires 512 * (|kept| + 1) <= |bytes|
    ensures var before := ScatterKept(m, base, sector, bytes, kept);
            ScatterKept(m, base, sector, bytes, kept + [stored]) ==
            if stored then before[Phys(base, sector, |kept|) := Chunk(bytes, |kept|)] else before
  {
    hide Phys;
    assert (kept + [stored])[..|kept|] == kept;
  }

  /** Every part of the bytes differs from the sector it is for, and there are not so many that sectors repeat. */
  ghost predicate NewData(m: Media, base: u32, sector: u32, bytes: seq<byte>, count: nat)
    requires |bytes| == 512 * count
  {
    count <= LBA_LIMIT && forall i :: 0 <= i < count ==> SectorAt(m, Phys(base, sector, i)) != Chunk(bytes, i)
  }

  lemma {:induction false} KeptElsewhere(m: Media, base: u32, sector: u32, bytes: seq<byte>, kept: seq<bool>, k: nat)
    requires 512 * |kept| <= |bytes| && forall i :: 0 <= i < |kept| && kept[i] ==> Phys(base, sector, i) != k
    ensures SectorAt(ScatterKept(m, base, sector, bytes, kept), k) == SectorAt(m, k)
    decreases |kept|
  {
    if kept != [] {
      KeptElsewhere(m, base, sector, bytes, kept[..|kept| - 1], k);
    }
  }

  lemma {:induction false} AllKept(m: Media, base: u32, sector: u32, bytes: seq<byte>, kept: seq<bool>)
    requires 512 * |kept| <= |bytes| && forall i :: 0 <= i < |kept| ==> kept[i]
    ensures ScatterKept(m, base, sector, bytes, kept) == Scatter(m, base, sector, bytes, |kept|)
    decreases |kept|
  {
    hide Phys, SectorAt;
    if kept != [] {
      AllKept(m, base, sector, bytes, kept[..|kept| - 1]);
    }
  }

  /** For new data the disk is as intended exactly when every sector is kept. */
  lemma KeptIsAll(m: Media, base: u32, sector: u32, bytes: seq<byte>, kept: seq<bool>, count: nat)
    requires |bytes| == 512 * count && |kept| == count
    ensures NewData(m, base, sector, bytes, count) ==>
      (ScatterKept(m, base, sector, bytes, kept) == Scatter(m, base, sector, bytes, count) <==>
       forall i :: 0 <= i < count ==> kept[i])
    ensures (forall i :: 0 <= i < count ==> kept[i]) ==>
      ScatterKept(m, base, sector, bytes, kept) == Scatter(m, base, sector, bytes, count)
  {
    hide SectorAt, ScatterKept, Scatter, Phys;
    if forall i :: 0 <= i < count ==> kept[i] {
      AllKept(m, base, sector, bytes, kept);
    } else if NewData(m, base, sector, bytes, count) {
      var i :| 0 <= i < count && !kept[i];
      forall j | 0 <= j < count && kept[j] ensures Phys(base, sector, j) != Phys(base, sector, i) {
        PhysDistinct(base, sector, if i < j then i else j, if i < j then j else i);
      }
      KeptElsewhere(m, base, sector, bytes, kept, Phys(base, sector, i));
      ScatterHere(m, base, sector, bytes, count, i);
    }
  }

  /** Every sector of `now` is as it was, or is one of the `count` named and holds its part of the bytes. */
  ghost predicate Mixed(was: Media, now: Media, base: u32, sector: u32, bytes: seq<byte>, count: nat)
    requires |bytes| == 512 * count
  {
    forall k: nat :: SectorAt(now, k) == SectorAt(was, k) || Placed(now, k, base, sector, bytes, count)
  }

  ghost predicate Placed(now: Media, k: nat, base: u32, sector: u32, bytes: seq<byte>, count: nat)
    requires |bytes| == 512 * count
  {
    exists i: nat :: i < count && Phys(base, sector, i) == k && SectorAt(now, k) == Chunk(bytes, i)
  }

  lemma MixedMore(was: Media, now: Media, base: u32, sector: u32, bytes: seq<byte>, count: nat, i: nat)
    requires |bytes| == 512 * count && i < count && Mixed(was, now, base, sector, bytes, count)
    ensures Mixed(was, now[Phys(base, sector, i) := Chunk(bytes, i)], base, sector, bytes, count)
  {
    hide Phys;
    var j := Phys(base, sector, i);
    var next := now[j := Chunk(bytes, i)];
    forall k: nat ensures SectorAt(next, k) == SectorAt(was, k) || Placed(next, k, base, sector, bytes, count) {
      if k == j {
        assert Placed(next, k, base, sector, bytes, count);
      } else if SectorAt(now, k) != SectorAt(was, k) {
        assert Placed(now, k, base, sector, bytes, count);
        assert Placed(next, k, base, sector, bytes, count);
      }
    }
  }

  lemma OutsideMore(was: seq<byte>, before: seq<byte>, now: seq<byte>, addr: nat, count: nat, i: nat)
    requires i < count && Outside(was, before, addr, 512 * count) && Outside(before, now, addr + 512 * i, 512)
    ensures Outside(was, now, addr, 512 * count)
  {
  }

  /** Any sequence of reads and writes on the two drives: memory and disks end up as the two
      independent sector arrays say. */
  method RunOps(d: Disks, ops: seq<Op>)
    requires d.Valid() && d.Healthy() && forall i :: 0 <= i < |ops| ==> InRam(ops[i], d.ram.Length)
    modifies d`ataDev, d`ataBase, d.mide, d.pico, d.ram, d.bounce
    ensures d.Valid() && d.Healthy() && d.Now() == ApplyAll(old(d.Now()), d.base, ops)
  {
    hide Apply;
    var i := 0;
    ghost var w := d.Now();
    while i < |ops|
      invariant 0 <= i <= |ops| && d.Valid() && d.Healthy()
      invariant ApplyAll(w, d.base, ops) == ApplyAll(d.Now(), d.base, ops[i..])
    {
      assert ops[i..][0] == ops[i] && ops[i..][1..] == ops[i + 1..];
      var res;
      match ops[i] {
        case Read(p, a, s, n) => res := d.DiskRead(p, a, s, n);
        case Write(p, a, s, n) =>
          ghost var kept;
          res, kept := d.DiskWrite(p, a, s, n);
      }
      i := i + 1;
    }
  }

  lemma Poked(was: seq<byte>, now: seq<byte>, addr: nat, data: seq<byte>)
    requires addr + |data| <= |was| && Outside(was, now, addr, |data|) && now[addr..addr + |data|] == data
    ensures now == Poke(was, addr, data)
  {
    assert now == now[..addr] + now[addr..addr + |data|] + now[addr + |data|..];
  }

  lemma PokedNothing(ram: seq<byte>, addr: nat)
    requires addr <= |ram|
    ensures Poke(ram, addr, []) == ram
  {
  }

  lemma PokeMore(ram: seq<byte>, addr: nat, a: seq<byte>, b: seq<byte>)
    requires addr + |a| + |b| <= |ram|
    ensures Poke(Poke(ram, addr, a), addr + |a|, b) == Poke(ram, addr, a + b)
  {
    var x := Poke(ram, addr, a);
    assert x[..addr + |a|] == ram[..addr] + a;
    assert x[addr + |a| + |b|..] == ram[addr + |a| + |b|..];
  }

  lemma GatherNone(m: Media, base: u32, sector: u32)
    ensures Gather(m, base, sector, 0) == []
  {
  }

  lemma GatherMore(m: Media, base: u32, sector: u32, i: nat)
    ensures Gather(m, base, sector, i + 1) == Gather(m, base, sector, i) + SectorAt(m, Phys(base, sector, i))
  {
  }

  lemma PhysOf(base: u32, sector: u32, i: nat)
    ensures ((base + sector) % 0x1_0000_0000 + i) % 0x1_0000_0000 % LBA_LIMIT == Phys(base, sector, i)
  {
    var n := base + sector + i;
    assert ((base + sector) % 0x1_0000_0000 + i) % 0x1_0000_0000 == n % 0x1_0000_0000;
    assert 0x1_0000_0000 == 16 * LBA_LIMIT;
    var q := n / 0x1_0000_0000;
    assert n == q * 16 * LBA_LIMIT + n % 0x1_0000_0000;
    ModShift(q * 16, n % 0x1_0000_0000);
  }

  lemma ModShift(q: nat, x: nat)
    ensures (q * LBA_LIMIT + x) % LBA_LIMIT == x % LBA_LIMIT
  {
  }

  lemma ChunkIs(ram: seq<byte>, addr: nat, count: nat, i: nat)
    requires addr + 512 * count <= |ram| && i < count
    ensures Chunk(ram[addr..addr + 512 * count], i) == ram[addr + 512 * i..addr + 512 * i + 512]
  {
    var bytes, part := ram[addr..addr + 512 * count], ram[addr + 512 * i..addr + 512 * i + 512];
    var c := Chunk(bytes, i);
    forall k | 0 <= k < 512 ensures c[k] == part[k] {
      var j := 512 * i + k;
      assert c[k] == bytes[j] == ram[addr + j];
    }
  }
}
