/** The keyboard ring buffer: 256 slots, 8-bit indices that wrap by themselves, one
    interrupt-time producer that only moves head and one consumer that only moves tail. */
module KbdRing {
  import opened Machine

  const SIZE := 256

  function Wrap8(n: int): (r: nat)
    ensures r < SIZE
  {
    n % SIZE
  }

  function Occupancy(head: nat, tail: nat): (r: nat)
    ensures r < SIZE
  {
    (head + SIZE - tail % SIZE) % SIZE
  }

  /** The slot i places after `base`. */
  function Slot(base: nat, i: nat): (r: nat)
    ensures r < SIZE
  {
    (base + i) % SIZE
  }

  lemma NextSlot(base: nat, i: nat)
    ensures Slot(Wrap8(base + 1), i) == Slot(base, i + 1)
  {
  }

  lemma OccupancyFacts(head: nat, tail: nat)
    requires head < SIZE && tail < SIZE
    ensures Wrap8(head + 1) == tail <==> Occupancy(head, tail) == SIZE - 1
    ensures Wrap8(head + 1) != tail ==> Occupancy(Wrap8(head + 1), tail) == Occupancy(head, tail) + 1
    ensures head != tail ==> Occupancy(head, Wrap8(tail + 1)) == Occupancy(head, tail) - 1
    ensures head == tail ==> Occupancy(head, Wrap8(tail + 1)) == SIZE - 1
    ensures Slot(tail, Occupancy(head, tail)) == head && Slot(tail, 0) == tail
    ensures head == tail <==> Occupancy(head, tail) == 0
  {
    hide Occupancy;
    OccupancyCases(head, tail);
    OccupancyCases(Wrap8(head + 1), tail);
    OccupancyCases(head, Wrap8(tail + 1));
  }

  lemma OccupancyCases(head: nat, tail: nat)
    requires head < SIZE && tail < SIZE
    ensures Occupancy(head, tail) == if tail <= head then head - tail else head + SIZE - tail
  {
  }

  lemma OtherSlots(head: nat, tail: nat, i: nat)
    requires head < SIZE && tail < SIZE && i < Occupancy(head, tail)
    ensures Slot(tail, i) != head
  {
  }

  /** The n bytes from slot `tail` on, wrapping. */
  function Slice(buf: seq<byte>, tail: nat, n: nat): (r: seq<byte>)
    requires |buf| == SIZE
    ensures |r| == n
    ensures forall i :: 0 <= i < n ==> r[i] == buf[Slot(tail, i)]
  {
    seq(n, i requires 0 <= i < n => buf[Slot(tail, i)])
  }

  // --------------------------------------------------------- one call at a time

  class Ring {
    const buffer: array<byte>
    var head: nat
    var tail: nat

    ghost predicate Valid()
      reads this
    {
      buffer.Length == 256 && head < 256 && tail < 256
    }

    ghost function Contents(): (s: seq<byte>)
      requires Valid()
      reads this, buffer
      ensures |s| < 256
    {
      Slice(buffer[..], tail, Occupancy(head, tail))
    }

    constructor ()
      ensures Valid() && Contents() == [] && fresh(buffer)
    {
      buffer := new byte[SIZE];
      head, tail := 0, 0;
    }

    method IsEmpty() returns (r: bool)
      requires Valid()
      ensures r <==> Contents() == []
    {
      OccupancyFacts(head, tail);
      r := head == tail;
    }

    method IsFull() returns (r: bool)
      requires Valid()
      ensures r <==> |Contents()| == 255
    {
      OccupancyFacts(head, tail);
      r := Wrap8(head + 1) == tail;
    }

    /** Appends c, or drops it when 255 bytes are waiting. */
    method Put(c: byte)
      requires Valid()
      modifies this`head, buffer
      ensures Valid()
      ensures Contents() == if |old(Contents())| < 255 then old(Contents()) + [c] else old(Contents())
    {
      hide Slot, Occupancy, Wrap8, Slice;
      OccupancyFacts(head, tail);
      var nextHead := Wrap8(head + 1);
      if nextHead == tail {
        return;
      }
      ghost var n := Occupancy(head, tail);
      forall i | 0 <= i < n ensures Slot(tail, i) != head {
        OtherSlots(head, tail, i);
      }
      buffer[head] := c;
      head := nextHead;
      assert Contents() == old(Contents()) + [c];
    }

    /** Takes the oldest byte. There is no guard: on an empty ring the tail overtakes
        the head, and the ring then claims to hold 255 bytes. */
    method Get() returns (r: byte)
      requires Valid()
      modifies this`tail
      ensures Valid()
      ensures old(Contents()) != [] ==> r == old(Contents())[0] && Contents() == old(Contents())[1..]
      ensures old(Contents()) == [] ==> |Contents()| == 255
    {
      hide Slot, Occupancy, Wrap8, Slice;
      OccupancyFacts(head, tail);
      r := buffer[tail];
      tail := Wrap8(tail + 1);
      ghost var was := old(Contents());
      if was != [] {
        forall i | 0 <= i < |was| - 1 ensures Slot(tail, i) == Slot(old(tail), i + 1) {
          NextSlot(old(tail), i);
        }
        assert Contents() == was[1..];
      }
    }
  }

  // ------------------------------------------- every interleaving of micro-steps

  /** Where `ring_buf_put` is: before its check, before its store, before it publishes the new head. */
  datatype Producer = PIdle | PCheck(c: byte, next: nat) | PStore(c: byte, next: nat) | PPublish(c: byte, next: nat)

  /** Where `ring_buf_get_char` is: waiting, past the empty test, holding the byte with tail still to move. */
  datatype Consumer = CWait | CRead | CAdvance(c: byte)

  /** The shared variables, the two program counters, and the history of bytes accepted and taken. */
  datatype Sys = Sys(
    buf: seq<byte>, head: nat, tail: nat, prod: Producer, cons: Consumer,
    accepted: seq<byte>, taken: seq<byte>, drops: nat)

  datatype Step =
    | Arrive(c: byte)  // a byte comes in: compute the next head
    | Check            // compare it with tail: go on, or drop the byte
    | Store            // write the slot at head
    | Publish          // move head
    | Poll             // compare head with tail: go on, or keep waiting
    | Fetch            // read the slot at tail
    | Advance          // move tail

  predicate Init(s: Sys) {
    |s.buf| == SIZE && s.head == s.tail == 0 && s.prod == PIdle && s.cons == CWait
    && s.accepted == [] && s.taken == [] && s.drops == 0
  }

  predicate Enabled(s: Sys, a: Step) {
    match a
    case Arrive(_) => s.prod.PIdle?
    case Check => s.prod.PCheck?
    case Store => s.prod.PStore? && s.head < |s.buf|
    case Publish => s.prod.PPublish?
    case Poll => s.cons.CWait?
    case Fetch => s.cons.CRead? && s.tail < |s.buf|
    case Advance => s.cons.CAdvance?
  }

  function Do(s: Sys, a: Step): Sys
    requires Enabled(s, a)
  {
    match a
    case Arrive(c) => s.(prod := PCheck(c, Wrap8(s.head + 1)))
    case Check =>
      if s.prod.next == s.tail then s.(prod := PIdle, drops := s.drops + 1)
      else s.(prod := PStore(s.prod.c, s.prod.next))
    case Store => s.(buf := s.buf[s.head := s.prod.c], prod := PPublish(s.prod.c, s.prod.next))
    case Publish => s.(head := s.prod.next, accepted := s.accepted + [s.prod.c], prod := PIdle)
    case Poll => if s.head == s.tail then s else s.(cons := CRead)
    case Fetch => s.(cons := CAdvance(s.buf[s.tail]))
    case Advance => s.(tail := Wrap8(s.tail + 1), taken := s.taken + [s.cons.c], cons := CWait)
  }

  /** The slot numbered k of the stream: byte k of the accepted bytes lives there until it is taken. */
  function SlotOf(k: nat): (r: nat)
    ensures r < SIZE
  {
    k % SIZE
  }

  /** What every interleaving keeps. */
  predicate Inv(s: Sys) {
    && |s.buf| == SIZE
    && |s.taken| <= |s.accepted| < |s.taken| + SIZE
    && s.head == SlotOf(|s.accepted|) && s.tail == SlotOf(|s.taken|)
    && s.taken == s.accepted[..|s.taken|]
    && (forall k :: |s.taken| <= k < |s.accepted| ==> s.buf[SlotOf(k)] == s.accepted[k])
    && ProducerOk(s) && ConsumerOk(s)
  }

  predicate ProducerOk(s: Sys) {
    match s.prod
    case PIdle => true
    case PCheck(_, n) => n == SlotOf(|s.accepted| + 1)
    case PStore(_, n) => n == SlotOf(|s.accepted| + 1) && |s.accepted| + 1 < |s.taken| + SIZE
    case PPublish(c, n) =>
      && n == SlotOf(|s.accepted| + 1) && |s.accepted| + 1 < |s.taken| + SIZE
      && SlotOf(|s.accepted|) < |s.buf| && s.buf[SlotOf(|s.accepted|)] == c
  }

  predicate ConsumerOk(s: Sys) {
    match s.cons
    case CWait => true
    case CRead => |s.taken| < |s.accepted|
    case CAdvance(c) => |s.taken| < |s.accepted| && c == s.accepted[|s.taken|]
  }

  lemma SlotsApart(i: nat, j: nat)
    requires i < j < i + SIZE
    ensures SlotOf(i) != SlotOf(j)
  {
  }

  /** The producer never writes a slot whose byte has not been taken, in particular not the one being read. */
  lemma StoreIsSafe(s: Sys)
    requires Inv(s) && s.prod.PStore?
    ensures forall k :: |s.taken| <= k < |s.accepted| ==> SlotOf(k) != s.head
    ensures !s.cons.CWait? ==> s.head != s.tail
  {
    forall k | |s.taken| <= k < |s.accepted| ensures SlotOf(k) != s.head {
      SlotsApart(k, |s.accepted|);
    }
  }

  /** A byte is dropped exactly when 255 bytes are waiting at the moment of the check. */
  lemma DropsOnlyWhenFull(s: Sys)
    requires Inv(s) && s.prod.PCheck?
    ensures Do(s, Check).drops == s.drops + 1 <==> |s.accepted| - |s.taken| == 255
  {
    if |s.accepted| + 1 < |s.taken| + SIZE {
      SlotsApart(|s.taken|, |s.accepted| + 1);
    }
  }

  lemma StepKeepsInv(s: Sys, a: Step)
    requires Inv(s) && Enabled(s, a)
    ensures Inv(Do(s, a))
  {
    hide SlotOf, Wrap8;
    match a
    case Arrive(_) => NextOf(|s.accepted|);
    case Check => CheckKeepsInv(s);
    case Store => StoreKeepsInv(s);
    case Publish => PublishKeepsInv(s);
    case Poll => PollKeepsInv(s);
    case Fetch =>
    case Advance => AdvanceKeepsInv(s);
  }

  lemma NextOf(k: nat)
    ensures Wrap8(SlotOf(k) + 1) == SlotOf(k + 1)
  {
  }

  lemma CheckKeepsInv(s: Sys)
    requires Inv(s) && s.prod.PCheck?
    ensures Inv(Do(s, Check))
  {
    hide SlotOf;
    DropsOnlyWhenFull(s);
  }

  lemma StoreKeepsInv(s: Sys)
    requires Inv(s) && s.prod.PStore? && s.head < |s.buf|
    ensures Inv(Do(s, Store))
  {
    hide SlotOf;
    StoreIsSafe(s);
  }

  lemma PollKeepsInv(s: Sys)
    requires Inv(s) && s.cons.CWait?
    ensures Inv(Do(s, Poll))
  {
    hide SlotOf;
  }

  lemma PublishKeepsInv(s: Sys)
    requires Inv(s) && s.prod.PPublish?
    ensures Inv(Do(s, Publish))
  {
    hide SlotOf;
    var t := Do(s, Publish);
    assert t.accepted[..|s.taken|] == s.accepted[..|s.taken|];
  }

  lemma AdvanceKeepsInv(s: Sys)
    requires Inv(s) && s.cons.CAdvance?
    ensures Inv(Do(s, Advance))
  {
    hide SlotOf, Wrap8;
    NextOf(|s.taken|);
    assert s.accepted[..|s.taken| + 1] == s.taken + [s.cons.c];
  }

  /** The producer's steps put a byte in whenever fewer than 255 are waiting at the check. */
  lemma ByteGoesIn(s: Sys, c: byte)
    requires Inv(s) && s.prod == PIdle
    ensures var t := Do(Do(s, Arrive(c)), Check);
            if |s.accepted| - |s.taken| < 255
            then t.prod.PStore? && t.head < |t.buf| && Do(Do(t, Store), Publish).accepted == s.accepted + [c]
            else t == s.(drops := s.drops + 1)
  {
    hide Inv, SlotOf, Wrap8;
    var a := Do(s, Arrive(c));
    StepKeepsInv(s, Arrive(c));
    DropsOnlyWhenFull(a);
    HeadInRing(s);
  }

  lemma HeadInRing(s: Sys)
    requires Inv(s)
    ensures s.head < |s.buf| && s.tail < |s.buf| && |s.accepted| - |s.taken| <= 255
  {
    hide SlotOf;
  }

  /** The consumer's steps take the oldest byte whenever one is waiting at the poll, and none otherwise. */
  lemma ByteComesOut(s: Sys)
    requires Inv(s) && s.cons == CWait
    ensures if s.taken == s.accepted then Do(s, Poll) == s
            else
              var t := Do(s, Poll);
              && t.cons.CRead? && t.tail < |t.buf| && |s.taken| < |s.accepted|
              && Do(Do(t, Fetch), Advance).taken == s.taken + [s.accepted[|s.taken|]]
  {
    hide SlotOf, Wrap8;
    HeadInRing(s);
    var n := |s.accepted| - |s.taken|;
    if n > 0 {
      SlotsApart(|s.taken|, |s.accepted|);
      assert s.buf[SlotOf(|s.taken|)] == s.accepted[|s.taken|];
    }
  }

  /** A run: any sequence of enabled steps from an initial state. */
  ghost predicate Run(states: seq<Sys>, steps: seq<Step>) {
    && |states| == |steps| + 1
    && Init(states[0])
    && forall i :: 0 <= i < |steps| ==> Enabled(states[i], steps[i]) && states[i + 1] == Do(states[i], steps[i])
  }

  lemma {:induction false} RunKeepsInv(states: seq<Sys>, steps: seq<Step>, i: nat)
    requires Run(states, steps) && i < |states|
    ensures Inv(states[i])
    decreases i
  {
    if i > 0 {
      RunKeepsInv(states, steps, i - 1);
      StepKeepsInv(states[i - 1], steps[i - 1]);
    }
  }

  /** In every state of every interleaving the bytes taken are a prefix of the bytes accepted, at
      most 255 bytes are waiting, they sit in their slots in order, and a step that drops a byte
      starts from a full ring. */
  lemma RingIsFifo(states: seq<Sys>, steps: seq<Step>, i: nat)
    requires Run(states, steps) && i < |states|
    ensures states[i].taken <= states[i].accepted
    ensures |states[i].accepted| - |states[i].taken| <= 255
    ensures |states[i].buf| == 256 && Slice(states[i].buf, states[i].tail, Occupancy(states[i].head, states[i].tail))
            == states[i].accepted[|states[i].taken|..]
    ensures i + 1 < |states| && states[i + 1].drops != states[i].drops ==>
              |states[i].accepted| - |states[i].taken| == 255
  {
    RunKeepsInv(states, steps, i);
    var s := states[i];
    WaitingBytes(s);
    if i + 1 < |states| && steps[i].Check? {
      DropsOnlyWhenFull(s);
    }
  }

  lemma WaitingBytes(s: Sys)
    requires Inv(s)
    ensures Slice(s.buf, s.tail, Occupancy(s.head, s.tail)) == s.accepted[|s.taken|..]
  {
    hide SlotOf, Slot, Occupancy, Slice;
    var n := |s.accepted| - |s.taken|;
    OccupancyOf(|s.taken|, |s.accepted|);
    forall i | 0 <= i < n ensures s.buf[Slot(s.tail, i)] == s.accepted[|s.taken|..][i] {
      SlotOfSlot(|s.taken|, i);
    }
  }

  lemma OccupancyOf(taken: nat, accepted: nat)
    requires taken <= accepted < taken + SIZE
    ensures Occupancy(SlotOf(accepted), SlotOf(taken)) == accepted - taken
  {
  }

  lemma SlotOfSlot(k: nat, i: nat)
    ensures Slot(SlotOf(k), i) == SlotOf(k + i)
  {
  }
}
