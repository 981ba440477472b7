/** The program store of Tiny BASIC: packed lines edited in place in one byte array.
    Addresses are offsets into `mem`, whose base is even, so an address and its
    offset have the same parity. */
module BasicStore {
  import opened Ascii
  import opened Machine
  import opened BasicProgram

  // ------------------------------------------------------------- block moves

  function At(a: seq<byte>, i: nat, p: nat): byte
    requires i + p < |a|
  {
    a[i + p]
  }

  /** The n bytes of a at i are the n bytes of b at j. */
  ghost predicate Same(a: seq<byte>, i: nat, b: seq<byte>, j: nat, n: nat) {
    i + n <= |a| && j + n <= |b| && forall p :: 0 <= p < n ==> At(a, i, p) == At(b, j, p)
  }

  lemma SamePart(a: seq<byte>, i: nat, b: seq<byte>, j: nat, n: nat, p: nat, m: nat)
    requires Same(a, i, b, j, n) && p + m <= n
    ensures Same(a, i + p, b, j + p, m)
  {
    var i', j' := i + p, j + p;
    forall q | 0 <= q < m ensures At(a, i', q) == At(b, j', q) {
      assert At(a, i, p + q) == At(b, j, p + q);
    }
  }

  lemma SameJoin(a: seq<byte>, i: nat, b: seq<byte>, j: nat, n: nat, m: nat)
    requires Same(a, i, b, j, n) && Same(a, i + n, b, j + n, m)
    ensures Same(a, i, b, j, n + m)
  {
    forall q | 0 <= q < n + m ensures At(a, i, q) == At(b, j, q) {
      if q >= n {
        assert At(a, i + n, q - n) == At(b, j + n, q - n);
      }
    }
  }

  lemma SameSlices(a: seq<byte>, i: nat, b: seq<byte>, j: nat, n: nat)
    requires i + n <= |a| && j + n <= |b|
    ensures Same(a, i, b, j, n) <==> a[i..i + n] == b[j..j + n]
  {
    var x, y := a[i..i + n], b[j..j + n];
    if Same(a, i, b, j, n) {
      forall p | 0 <= p < n ensures x[p] == y[p] {
        assert At(a, i, p) == At(b, j, p);
      }
    } else {
      var p :| 0 <= p < n && At(a, i, p) != At(b, j, p);
      assert x[p] != y[p];
    }
  }

  /** `now` is `was` with the n bytes at `from` copied to `dest`. */
  ghost predicate Copied(was: seq<byte>, now: seq<byte>, from: nat, dest: nat, n: nat)
    requires from + n <= |was| && dest + n <= |was|
  {
    && |now| == |was|
    && Same(now, 0, was, 0, dest)
    && Same(now, dest, was, from, n)
    && Same(now, dest + n, was, dest + n, |was| - (dest + n))
  }

  /** Copies n bytes upward from `from` to `dest`, last byte first, so the ranges may overlap. */
  method MoveUp(mem: array<byte>, from: nat, dest: nat, n: nat)
    requires from <= dest && dest + n <= mem.Length
    modifies mem
    ensures Copied(old(mem[..]), mem[..], from, dest, n)
  {
    var k: nat := n;
    while k > 0
      invariant k <= n
      invariant forall i :: 0 <= i < dest + k || dest + n <= i < mem.Length ==> mem[i] == old(mem[i])
      invariant forall i :: dest + k <= i < dest + n ==> mem[i] == old(mem[i - dest + from])
    {
      k := k - 1;
      mem[dest + k] := mem[from + k];
    }
  }

  /** Copies n bytes downward from `from` to `dest`, first byte first, so the ranges may overlap. */
  method MoveDown(mem: array<byte>, from: nat, dest: nat, n: nat)
    requires dest <= from && from + n <= mem.Length
    modifies mem
    ensures Copied(old(mem[..]), mem[..], from, dest, n)
  {
    var k: nat := 0;
    while k < n
      invariant k <= n
      invariant forall i :: 0 <= i < dest || dest + k <= i < mem.Length ==> mem[i] == old(mem[i])
      invariant forall i :: dest <= i < dest + k ==> mem[i] == old(mem[i - dest + from])
    {
      mem[dest + k] := mem[from + k];
      k := k + 1;
    }
  }

  /** The memory after `done` bytes of the line waiting at `txt` have gone in at `start`. */
  ghost predicate Shuffled(was: seq<byte>, now: seq<byte>, start: nat, end: nat, txt: nat, done: nat)
    requires start <= end <= txt && txt + done <= |was|
  {
    && |now| == |was|
    && Same(now, 0, was, 0, start)
    && Same(now, start, was, txt, done)
    && Same(now, start + done, was, start, end - start)
    && Same(now, txt + done, was, txt + done, |was| - (txt + done))
  }

  /** One shuffle: the tail of the program slides up by k, then the next k bytes of the line come down. */
  lemma ShuffleStep(was: seq<byte>, m0: seq<byte>, m1: seq<byte>, m2: seq<byte>,
                    start: nat, end: nat, txt: nat, done: nat, k: nat)
    requires start <= end && end + k <= txt && txt + done + k <= |was|
    requires Shuffled(was, m0, start, end, txt, done)
    requires Copied(m0, m1, start + done, start + done + k, end - start)
    requires Copied(m1, m2, txt + done, start + done, k)
    ensures Shuffled(was, m2, start, end, txt, done + k)
  {
    var s := start + done;
    var e := end + done;
    var t := txt + done;
    // the part below the insertion point
    SamePart(m1, 0, m0, 0, s + k, 0, s);
    SamePart(m2, 0, m1, 0, s, 0, start);
    SamePart(m1, 0, m0, 0, s, 0, start);
    SamePart(m2, 0, m1, 0, s, start, done);
    SamePart(m1, 0, m0, 0, s, start, done);
    // the bytes that come down
    SamePart(m1, e + k, m0, e + k, |was| - (e + k), t - (e + k), k);
    SamePart(m0, t, was, t, |was| - t, 0, k);
    SameJoin(m2, start, was, txt, done, k);
    // the tail that has slid up
    SamePart(m2, s + k, m1, s + k, |was| - (s + k), 0, end - start);
    // the rest of the line
    SamePart(m2, s + k, m1, s + k, |was| - (s + k), t + k - (s + k), |was| - (t + k));
    SamePart(m1, e + k, m0, e + k, |was| - (e + k), t + k - (e + k), |was| - (t + k));
    SamePart(m0, t, was, t, |was| - t, k, |was| - (t + k));
  }

  /** The insert loop's variables and the memory. */
  datatype Merge = Merge(mem: seq<byte>, start: nat, end: nat, txt: nat, linelen: nat)

  predicate MergeOk(m: Merge) { m.start <= m.end <= m.txt && m.txt + m.linelen <= |m.mem| }

  /** The memory with the program's tail moved up by k and the next k bytes of the line put into the room made. */
  function RoundBytes(m: seq<byte>, start: nat, end: nat, txt: nat, k: nat): (r: seq<byte>)
    requires start <= end && end + k <= txt && txt + k <= |m|
    ensures |r| == |m|
  {
    m[..start] + m[txt..txt + k] + m[start..end] + m[end + k..]
  }

  /** One round of the insert loop, on values. */
  function Round(m: Merge): (r: Merge)
    requires MergeOk(m)
    ensures MergeOk(r) && r.txt - r.end == m.txt - m.end
  {
    var k := if m.txt - m.end > m.linelen then m.linelen else m.txt - m.end;
    Merge(RoundBytes(m.mem, m.start, m.end, m.txt, k), m.start + k, m.end + k, m.txt + k, m.linelen - k)
  }

  function Rounds(m: Merge, n: nat): (r: Merge)
    requires MergeOk(m)
    ensures MergeOk(r) && r.txt - r.end == m.txt - m.end
  {
    if n == 0 then m else Round(Rounds(m, n - 1))
  }

  /** With no gap a round changes nothing at all, so neither do any number of them. */
  lemma {:induction false} NoGapNoProgress(m: Merge, n: nat)
    requires MergeOk(m) && m.txt == m.end
    ensures Rounds(m, n) == m
  {
    hide Round;
    if n > 0 {
      NoGapNoProgress(m, n - 1);
      StuckRound(m);
    }
  }

  lemma StuckRound(m: Merge)
    requires MergeOk(m) && m.txt == m.end
    ensures Round(m) == m
  {
    Rejoin(m.mem, m.start, m.end);
  }

  lemma Rejoin(s: seq<byte>, i: nat, j: nat)
    requires i <= j <= |s|
    ensures s[..i] + s[j..j] + s[i..j] + s[j..] == s
  {
  }

  lemma RoundShrinks(m: Merge)
    requires MergeOk(m)
    ensures Round(m).linelen == if m.txt - m.end > m.linelen then 0 else m.linelen - (m.txt - m.end)
  {
  }

  lemma {:induction false} GapMakesProgress(m: Merge, n: nat)
    requires MergeOk(m) && m.txt > m.end && n <= m.linelen
    ensures Rounds(m, n).linelen <= m.linelen - n
  {
    hide Round;
    if n > 0 {
      GapMakesProgress(m, n - 1);
      RoundShrinks(Rounds(m, n - 1));
    }
  }

  /** The insert loop runs for ever. */
  ghost predicate Endless(m: Merge)
    requires MergeOk(m)
  {
    forall n: nat :: Rounds(m, n).linelen != 0
  }

  /** The insert loop ends exactly when nothing is left to insert or there is a gap to work in. */
  lemma MergeEndsIff(m: Merge)
    requires MergeOk(m)
    ensures (exists n: nat :: Rounds(m, n).linelen == 0) <==> m.linelen == 0 || m.end < m.txt
    ensures Endless(m) <==> m.linelen != 0 && m.end == m.txt
  {
    if m.linelen == 0 {
      assert Rounds(m, 0).linelen == 0;
    } else if m.end < m.txt {
      GapMakesProgress(m, m.linelen);
      assert Rounds(m, m.linelen).linelen == 0;
    } else {
      forall n: nat ensures Rounds(m, n).linelen != 0 {
        NoGapNoProgress(m, n);
      }
    }
  }

  lemma CopiedIs(was: seq<byte>, now: seq<byte>, from: nat, dest: nat, n: nat)
    requires from + n <= |was| && dest + n <= |was| && Copied(was, now, from, dest, n)
    ensures now == was[..dest] + was[from..from + n] + was[dest + n..]
  {
    SameSlices(now, 0, was, 0, dest);
    SameSlices(now, dest, was, from, n);
    SameSlices(now, dest + n, was, dest + n, |was| - (dest + n));
    assert now == now[0..0 + dest] + now[dest..dest + n] + now[dest + n..dest + n + (|was| - (dest + n))];
  }

  /** What one shuffle leaves is one round. */
  lemma RoundIs(m0: seq<byte>, m1: seq<byte>, m2: seq<byte>, start: nat, end: nat, txt: nat, k: nat)
    requires start <= end && end + k <= txt && txt + k <= |m0|
    requires Copied(m0, m1, start, start + k, end - start) && |m1| == |m0|
    requires Copied(m1, m2, txt, start, k)
    ensures m2 == RoundBytes(m0, start, end, txt, k)
  {
    hide Copied, RoundBytes;
    CopiedIs(m0, m1, start, start + k, end - start);
    CopiedIs(m1, m2, txt, start, k);
    assert start + (end - start) == end && start + k + (end - start) == end + k;
    RoundPieces(m0, start, end, txt, k);
  }

  lemma RoundPieces(m0: seq<byte>, start: nat, end: nat, txt: nat, k: nat)
    requires start <= end && end + k <= txt && txt + k <= |m0|
    ensures var m1 := m0[..start + k] + m0[start..end] + m0[end + k..];
            m1[..start] + m1[txt..txt + k] + m1[start + k..] == RoundBytes(m0, start, end, txt, k)
  {
    var a, b, c := m0[..start + k], m0[start..end], m0[end + k..];
    ThreeParts(a, b, c, start, txt, k);
    SliceOfStart(m0, start, k);
    SliceOfRest(m0, end + k, txt, k);
  }

  lemma SliceOfStart(m: seq<byte>, i: nat, k: nat)
    requires i + k <= |m|
    ensures m[..i + k][..i] == m[..i]
  {
  }

  lemma SliceOfRest(m: seq<byte>, i: nat, t: nat, k: nat)
    requires i <= t && t + k <= |m|
    ensures m[i..][t - i..][..k] == m[t..t + k]
  {
  }

  lemma ThreeParts(a: seq<byte>, b: seq<byte>, c: seq<byte>, i: nat, t: nat, k: nat)
    requires i <= |a| && |a| + |b| <= t && t + k <= |a| + |b| + |c|
    ensures (a + b + c)[..i] == a[..i] && (a + b + c)[|a|..] == b + c
    ensures (a + b + c)[t..t + k] == c[t - (|a| + |b|)..][..k]
  {
  }

  method Shuffle(mem: array<byte>, start: nat, end: nat, txt: nat, k: nat,
                 ghost was: seq<byte>, ghost start0: nat, ghost end0: nat, ghost txt0: nat, ghost done: nat)
    requires start0 <= end0 && end0 + k <= txt0 && txt0 + done + k <= mem.Length == |was|
    requires start == start0 + done && end == end0 + done && txt == txt0 + done
    requires Shuffled(was, mem[..], start0, end0, txt0, done)
    modifies mem
    ensures Shuffled(was, mem[..], start0, end0, txt0, done + k)
    ensures mem[..] == RoundBytes(old(mem[..]), start, end, txt, k)
  {
    hide RoundBytes, Shuffled, Copied;
    ghost var m0 := mem[..];
    MoveUp(mem, start, start + k, end - start);
    ghost var m1 := mem[..];
    assert |m1| == |m0|;
    MoveDown(mem, txt, start, k);
    ShuffleStep(was, m0, m1, mem[..], start0, end0, txt0, done, k);
    RoundIs(m0, m1, mem[..], start, end, txt, k);
  }

  lemma NoShuffle(m: seq<byte>, start: nat, end: nat, txt: nat)
    requires start <= end <= txt <= |m|
    ensures Shuffled(m, m, start, end, txt, 0)
  {
  }

  lemma NoRounds(m: Merge)
    requires MergeOk(m)
    ensures Rounds(m, 0) == m
  {
  }

  lemma NextRound(m: Merge, n: nat)
    requires MergeOk(m)
    ensures Rounds(m, n + 1) == Round(Rounds(m, n))
  {
  }

  lemma RoundParts(m: Merge, now: seq<byte>, k: nat)
    requires MergeOk(m) && k == (if m.txt - m.end > m.linelen then m.linelen else m.txt - m.end)
    requires now == RoundBytes(m.mem, m.start, m.end, m.txt, k)
    ensures Round(m) == Merge(now, m.start + k, m.end + k, m.txt + k, m.linelen - k)
  {
  }

  /** Puts the `linelen` bytes waiting at `txt` into the program at `start`, in as many rounds as it takes:
      each one moves as much as the gap allows.
      The gap `txt - end` never changes, so a positive gap is what makes the loop end. */
  method MergeBytes(mem: array<byte>, start0: nat, end0: nat, txt0: nat, linelen0: nat)
    returns (end: nat, ghost rounds: nat)
    requires start0 <= end0 <= txt0 && txt0 + linelen0 <= mem.Length
    requires linelen0 > 0 ==> end0 < txt0
    modifies mem
    ensures end == end0 + linelen0
    ensures Shuffled(old(mem[..]), mem[..], start0, end0, txt0, linelen0)
    ensures Rounds(Merge(old(mem[..]), start0, end0, txt0, linelen0), rounds) ==
            Merge(mem[..], start0 + linelen0, end, txt0 + linelen0, 0)
  {
    hide Shuffled, Round, Rounds, RoundBytes;
    var start, txt, linelen := start0, txt0, linelen0;
    end, rounds := end0, 0;
    ghost var m := Merge(mem[..], start0, end0, txt0, linelen0);
    NoShuffle(mem[..], start0, end0, txt0);
    NoRounds(m);
    ghost var was, done := mem[..], 0;
    while linelen > 0
      invariant 0 <= done && linelen == linelen0 - done >= 0
      invariant start == start0 + done && end == end0 + done && txt == txt0 + done
      invariant Shuffled(was, mem[..], start0, end0, txt0, done)
      invariant Rounds(m, rounds) == Merge(mem[..], start, end, txt, linelen)
    {
      var room := txt - end;
      if room > linelen { room := linelen; }
      ghost var before := Merge(mem[..], start, end, txt, linelen);
      Shuffle(mem, start, end, txt, room, was, start0, end0, txt0, done);
      RoundParts(before, mem[..], room);
      NextRound(m, rounds);
      rounds := rounds + 1;
      start, txt, end, linelen := start + room, txt + room, end + room, linelen - room;
      done := done + room;
    }
  }

  /** Raises byte c in place and returns the quote state after it. */
  method RaiseByte(mem: array<byte>, c: nat, quote: byte) returns (next: byte)
    requires c < mem.Length
    modifies mem
    ensures mem[c] == UpperByte(old(mem[c]), quote) && next == NextQuote(old(mem[c]), quote)
    ensures forall i :: 0 <= i < mem.Length && i != c ==> mem[i] == old(mem[i])
  {
    next := quote;
    if mem[c] == quote {
      next := 0;
    } else if mem[c] == DQUOTE || mem[c] == SQUOTE {
      next := mem[c];
    } else if quote == 0 && IsLower(mem[c]) {
      mem[c] := mem[c] - 32;
    }
  }

  /** Raises the line that starts at b and ends with the newline at e. */
  method RaiseUntilNewline(mem: array<byte>, b: nat, ghost e: nat, ghost s: seq<byte>)
    requires b <= e < mem.Length && mem[e] == NL && |s| == e - b
    requires forall i :: b <= i < e ==> mem[i] == s[i - b] != NL
    modifies mem
    ensures forall i :: b <= i < e ==> mem[i] == Upper(s, 0)[i - b]
    ensures forall i :: 0 <= i < b || e <= i < mem.Length ==> mem[i] == old(mem[i])
  {
    var c := b;
    var quote: byte := 0;
    while mem[c] != NL
      invariant b <= c <= e
      invariant forall i :: 0 <= i < b || c <= i < mem.Length ==> mem[i] == old(mem[i])
      invariant forall i :: b <= i < c ==> mem[i] == Upper(s, 0)[i - b]
      invariant quote == QuoteAt(s, 0, c - b)
      decreases e - c
    {
      UpperAt(s, 0, c - b);
      quote := RaiseByte(mem, c, quote);
      c := c + 1;
    }
  }

  // ------------------------------------------------------- reading the typed line

  /** The bytes s are at p, followed by a newline, and hold no newline themselves. */
  ghost predicate LineAt(mem: array<byte>, p: nat, s: seq<byte>)
    reads mem
  {
    && p + |s| < mem.Length
    && mem[p + |s|] == NL
    && forall i :: p <= i < p + |s| ==> mem[i] == s[i - p] != NL
  }

  lemma LineAtSuffix(mem: array<byte>, p: nat, s: seq<byte>, k: nat)
    requires LineAt(mem, p, s) && k <= |s|
    ensures LineAt(mem, p + k, s[k..])
  {
  }

  /** `ignore_blanks` from p. */
  method SkipFrom(mem: array<byte>, p: nat, ghost s: seq<byte>) returns (q: nat)
    requires LineAt(mem, p, s)
    ensures LineAt(mem, q, SkipBlanks(s)) && q + |SkipBlanks(s)| == p + |s|
  {
    q := p;
    while mem[q] == SPACE || mem[q] == TAB
      invariant p <= q <= p + |s|
      invariant SkipBlanks(s) == SkipBlanks(s[q - p..])
      decreases p + |s| - q
    {
      assert s[q - p..][1..] == s[q + 1 - p..];
      q := q + 1;
    }
    LineAtSuffix(mem, p, s, q - p);
  }

  /** `testnum` from p, once blanks are skipped; num never leaves 16 bits. */
  method NumberFrom(mem: array<byte>, p: nat, ghost s: seq<byte>) returns (num: nat, q: nat)
    requires LineAt(mem, p, s)
    ensures num == ScanNumber(s, 0).0
    ensures LineAt(mem, q, ScanNumber(s, 0).1) && q + |ScanNumber(s, 0).1| == p + |s|
  {
    q := p;
    num := 0;
    while 48 <= mem[q] <= 57
      invariant p <= q <= p + |s| && num <= MAX_LINENUM
      invariant ScanNumber(s, 0) == ScanNumber(s[q - p..], num)
      decreases p + |s| - q
    {
      if num >= 0xFFFF / 10 {
        num := 0xFFFF;
        break;
      }
      assert s[q - p..][1..] == s[q + 1 - p..];
      num := num * 10 + mem[q] - 48;
      q := q + 1;
    }
    LineAtSuffix(mem, p, s, q - p);
  }

  /** The number and the start of the text of the line at p. */
  method TakeApart(mem: array<byte>, p: nat, ghost s: seq<byte>) returns (num: nat, txt: nat)
    requires LineAt(mem, p, s)
    ensures num == ScanNumber(SkipBlanks(s), 0).0
    ensures var text := SkipBlanks(ScanNumber(SkipBlanks(s), 0).1);
            LineAt(mem, txt, text) && txt + |text| == p + |s|
  {
    ghost var a := SkipBlanks(s);
    var q := SkipFrom(mem, p, s);
    num, q := NumberFrom(mem, q, a);
    txt := SkipFrom(mem, q, ScanNumber(a, 0).1);
  }

  /** The measuring loop stops after k rounds: its 8-bit counter has then reached a newline. */
  predicate StopsAt(m: seq<byte>, p: nat, k: nat) { p + k % 256 < |m| && m[p + k % 256] == NL }

  /** Past 255 the counter wraps onto bytes it has already seen, so the loop ends, after |s| rounds, exactly when
      the text is no longer than that. */
  lemma MeasureEndsIff(m: seq<byte>, p: nat, s: seq<byte>)
    requires p + |s| < |m| && m[p + |s|] == NL && forall i :: p <= i < p + |s| ==> m[i] != NL
    ensures (exists k: nat :: StopsAt(m, p, k)) <==> |s| <= 255
    ensures |s| <= 255 ==> StopsAt(m, p, |s|) && forall k: nat :: k < |s| ==> !StopsAt(m, p, k)
  {
    if |s| <= 255 {
      assert StopsAt(m, p, |s|);
      forall k: nat | k < |s| ensures !StopsAt(m, p, k) {
        assert k % 256 == k;
      }
    } else {
      forall k: nat ensures !StopsAt(m, p, k) {
        assert k % 256 < |s|;
      }
    }
  }

  /** Counts the text bytes in an 8-bit counter. The firmware has no test for 255: found is false where its loop
      never ends. */
  method MeasureFrom(mem: array<byte>, p: nat, ghost s: seq<byte>) returns (found: bool, n: nat)
    requires LineAt(mem, p, s)
    ensures found <==> |s| <= 255
    ensures found ==> n == |s| && StopsAt(mem[..], p, n) && forall k: nat :: k < n ==> !StopsAt(mem[..], p, k)
    ensures !found ==> forall k: nat :: !StopsAt(mem[..], p, k)
  {
    MeasureEndsIff(mem[..], p, s);
    n := 0;
    while n <= 255 && mem[p + n] != NL
      invariant 0 <= n <= 256 && n <= |s|
    {
      n := n + 1;
    }
    found := n <= 255;
  }

  /** Makes room for a 3-byte header below the n text bytes at `txt`, whose newline is the
      last byte below `top`. When that would start the line at an odd address, it starts
      one byte lower and the text follows it down. Lengths are 8-bit. */
  method AlignLine(mem: array<byte>, txt: nat, top: nat, n: nat, ghost text: seq<byte>)
    returns (start: nat, linelen: byte)
    requires LineAt(mem, txt, text) && n == |text| <= 255 && txt + n == top - 1
    requires top % 2 == 0 && 4 <= txt && mem[txt - 1] != NL
    modifies mem
    ensures start == top - LineSize(n) && linelen == LineSize(n) % 256
    ensures n <= MAX_TEXT ==> forall i :: start + 3 <= i < start + 3 + n ==> mem[i] == text[i - (start + 3)]
    ensures n <= MAX_TEXT ==> mem[start + 3 + n] == NL && mem[top - 1] == NL
    ensures mem[start + 3] == NL <==> n == 0
    ensures forall i :: 0 <= i < start ==> mem[i] == old(mem[i])
  {
    linelen := (n + 1 + 3) % 256;
    start := txt - 3;
    if start % 2 != 0 {
      start := start - 1;
      linelen := (linelen + 1) % 256;
      if linelen > 4 {
        ShiftText(mem, start, linelen - 5);
      }
    }
  }

  lemma PackedLine(m: seq<byte>, start: nat, top: nat, l: Line)
    requires l.num < 0x10000 && |l.text| <= MAX_TEXT && top <= |m| && start + LineSize(|l.text|) == top
    requires m[start] == l.num / 256 && m[start + 1] == l.num % 256 && m[start + 2] == LineSize(|l.text|)
    requires forall i :: start + 3 <= i < start + 3 + |l.text| ==> m[i] == l.text[i - (start + 3)]
    requires m[start + 3 + |l.text|] == NL && m[top - 1] == NL
    ensures m[start..top] == EncodeLine(l)
  {
    var e := EncodeLine(l);
    forall i | 0 <= i < |e| ensures m[start..top][i] == e[i] {
    }
  }

  /** Writes the header; the bytes from start up to top are then the packed line. */
  method PlaceHeader(mem: array<byte>, txt: nat, top: nat, num: nat, n: nat, ghost text: seq<byte>)
    returns (start: nat, linelen: byte)
    requires LineAt(mem, txt, text) && n == |text| <= 255 && txt + n == top - 1
    requires top % 2 == 0 && num < 0x10000 && 4 <= txt && mem[txt - 1] != NL
    modifies mem
    ensures start == top - LineSize(n) && linelen == LineSize(n) % 256
    ensures n <= MAX_TEXT ==> mem[start..top] == EncodeLine(Line(num, text))
    ensures mem[start + 3] == NL <==> n == 0
    ensures forall i :: 0 <= i < start ==> mem[i] == old(mem[i])
  {
    start, linelen := AlignLine(mem, txt, top, n, text);
    mem[start], mem[start + 1], mem[start + 2] := num / 256, num % 256, linelen;
    if n <= MAX_TEXT {
      PackedLine(mem[..], start, top, Line(num, text));
      assert mem[..][start..top] == mem[start..top];
    }
  }

  /** Moves the n text bytes and the newline at start+4 down by one. */
  method ShiftText(mem: array<byte>, start: nat, n: nat)
    requires start + 4 + (n + 1) <= mem.Length
    modifies mem
    ensures forall i :: 0 <= i < start + 3 || start + 4 + n <= i < mem.Length ==> mem[i] == old(mem[i])
    ensures forall i :: start + 3 <= i < start + 4 + n ==> mem[i] == old(mem[i + 1])
  {
    ghost var was := mem[..];
    MoveDown(mem, start + 4, start + 3, n + 1);
    ShiftedText(was, mem[..], start, n);
  }

  lemma ShiftedText(was: seq<byte>, now: seq<byte>, start: nat, n: nat)
    requires start + 4 + (n + 1) <= |was| && Copied(was, now, start + 4, start + 3, n + 1)
    ensures forall i :: 0 <= i < start + 3 ==> now[i] == was[i]
    ensures forall i :: start + 3 <= i < start + 4 + n ==> now[i] == was[i + 1]
    ensures forall i :: start + 4 + n <= i < |was| ==> now[i] == was[i]
  {
    var from, dest := start + 4, start + 3;
    assert forall i :: 0 <= i < dest ==> now[i] == At(now, 0, i) == At(was, 0, i);
    forall i | dest <= i < dest + n + 1 ensures now[i] == was[i + 1] {
      assert At(now, dest, i - dest) == At(was, from, i - dest);
    }
    forall i | dest + n + 1 <= i < |was| ensures now[i] == was[i] {
      var p := i - (dest + n + 1);
      assert At(now, dest + (n + 1), p) == At(was, dest + (n + 1), p);
    }
  }

  // ------------------------------------------------- finding and removing a line

  ghost function Offset(p: seq<Line>, k: nat): nat
    requires Numbered(p) && k <= |p|
  {
    |Encode(p[..k])|
  }

  lemma OffsetNext(p: seq<Line>, k: nat)
    requires Numbered(p) && k < |p|
    ensures Offset(p, k + 1) == Offset(p, k) + LineSize(|p[k].text|) <= |Encode(p)|
  {
    hide Encode, EncodeLine;
    EncodeAround(p, k);
    EncodeConcat(p[..k], [p[k]]);
    assert p[..k + 1] == p[..k] + [p[k]];
    EncodeSingle(p[k]);
  }

  lemma EncodeSingle(l: Line)
    requires l.num < 0x10000
    ensures Encode([l]) == EncodeLine(l) && |EncodeLine(l)| == LineSize(|l.text|)
  {
    assert [l][1..] == [];
  }

  lemma LineHeader(l: Line)
    requires l.num < 0x10000 && |l.text| <= MAX_TEXT
    ensures var e := EncodeLine(l); Word16(e[0], e[1]) == l.num && e[2] == LineSize(|l.text|)
  {
  }

  lemma Pieces(a: seq<byte>, e: seq<byte>, b: seq<byte>)
    ensures var m := a + e + b;
            m[..|a|] == a && m[|a| + |e|..] == b && m[|a|..] == e + b
  {
  }

  /** What the header of line k of a packed program says. */
  lemma HeaderAt(p: seq<Line>, k: nat)
    requires Numbered(p) && k < |p| && |p[k].text| <= MAX_TEXT
    ensures var m := Encode(p);
            var o := Offset(p, k);
            && o + 3 < |m|
            && Word16(m[o], m[o + 1]) == p[k].num
            && m[o + 2] == LineSize(|p[k].text|)
  {
    EncodeAround(p, k);
    LineHeader(p[k]);
    HeaderIn(Encode(p), Encode(p[..k]), EncodeLine(p[k]), Encode(p[k + 1..]));
  }

  lemma HeaderIn(m: seq<byte>, a: seq<byte>, e: seq<byte>, b: seq<byte>)
    requires m == a + e + b && |e| >= 4
    ensures |a| + 3 < |m| && m[|a|] == e[0] && m[|a| + 1] == e[1] && m[|a| + 2] == e[2]
  {
  }

  /** `findline`: the address of the first line numbered linenum or more, else programEnd. */
  method FindLine(mem: array<byte>, programEnd: nat, linenum: nat, ghost prog: seq<Line>) returns (line: nat)
    requires programEnd <= mem.Length && ValidProgram(prog)
    requires mem[..programEnd] == Encode(prog)
    ensures line == Offset(prog, Position(prog, linenum)) <= programEnd
  {
    line := 0;
    ghost var k := 0;
    ghost var bytes := mem[..programEnd];
    while line != programEnd
      invariant k <= Position(prog, linenum) && line == Offset(prog, k) <= programEnd
      decreases |prog| - k
    {
      OffsetAtEnd(prog, k);
      HeaderAt(prog, k);
      OffsetNext(prog, k);
      assert mem[line] == bytes[line] && mem[line + 1] == bytes[line + 1] && mem[line + 2] == bytes[line + 2];
      if Word16(mem[line], mem[line + 1]) >= linenum {
        assert k == Position(prog, linenum);
        return;
      }
      line := line + mem[line + 2];
      k := k + 1;
    }
    OffsetAtEnd(prog, k);
    OffsetAtEnd(prog, Position(prog, linenum));
  }

  /** Only the end of the program lies at its length: every line takes room. */
  lemma OffsetAtEnd(p: seq<Line>, k: nat)
    requires Numbered(p) && k <= |p|
    ensures Offset(p, k) <= |Encode(p)|
    ensures Offset(p, k) == |Encode(p)| <==> k == |p|
  {
    EncodeConcat(p[..k], p[k..]);
    assert p == p[..k] + p[k..];
  }

  /** Closes up the program over line k. */
  method RemoveAt(mem: array<byte>, start: nat, programEnd: nat, ghost prog: seq<Line>, ghost k: nat) returns (end: nat)
    requires programEnd <= mem.Length && ValidProgram(prog) && k < |prog|
    requires mem[..programEnd] == Encode(prog) && start == Offset(prog, k)
    modifies mem
    ensures end <= programEnd && mem[..end] == Encode(prog[..k] + prog[k + 1..])
    ensures forall i :: programEnd <= i < mem.Length ==> mem[i] == old(mem[i])
  {
    hide Encode, EncodeLine, Offset;
    HeaderAt(prog, k);
    OffsetNext(prog, k);
    assert mem[start + 2] == mem[..programEnd][start + 2];
    end := CloseUp(mem, start, start + mem[start + 2], programEnd);
    RemovedBytes(prog, k);
  }

  method CloseUp(mem: array<byte>, start: nat, from: nat, programEnd: nat) returns (end: nat)
    requires start <= from <= programEnd <= mem.Length
    modifies mem
    ensures end == start + (programEnd - from)
    ensures mem[..end] == old(mem[..programEnd])[..start] + old(mem[..programEnd])[from..]
    ensures forall i :: programEnd <= i < mem.Length ==> mem[i] == old(mem[i])
  {
    ghost var was := mem[..];
    MoveDown(mem, from, start, programEnd - from);
    end := start + (programEnd - from);
    ClosedUp(was, mem[..], start, from, programEnd);
    assert was[..programEnd][..start] == was[..start];
    assert was[..programEnd][from..] == was[from..programEnd];
  }

  lemma ClosedUp(was: seq<byte>, now: seq<byte>, start: nat, from: nat, end: nat)
    requires start <= from <= end <= |was| && Copied(was, now, from, start, end - from)
    ensures now[..start + (end - from)] == was[..start] + was[from..end]
    ensures forall i :: end <= i < |was| ==> now[i] == was[i]
  {
    SameSlices(now, 0, was, 0, start);
    SameSlices(now, start, was, from, end - from);
    var e := start + (end - from);
    assert now[..e] == now[0..start] + now[start..e];
    forall i | end <= i < |was| ensures now[i] == was[i] {
      assert At(now, e, i - e) == At(was, e, i - e);
    }
  }

  lemma RemovedBytes(p: seq<Line>, k: nat)
    requires Numbered(p) && k < |p|
    ensures Offset(p, k) <= Offset(p, k + 1) <= |Encode(p)|
    ensures Encode(p[..k] + p[k + 1..]) == Encode(p)[..Offset(p, k)] + Encode(p)[Offset(p, k + 1)..]
  {
    OffsetNext(p, k);
    EncodeAround(p, k);
    EncodeConcat(p[..k], p[k + 1..]);
    Pieces(Encode(p[..k]), EncodeLine(p[k]), Encode(p[k + 1..]));
  }

  /** Removes the line numbered linenum, if that is what `findline` stopped at. */
  method RemoveNumbered(mem: array<byte>, start: nat, programEnd: nat, linenum: nat, ghost prog: seq<Line>)
    returns (end: nat)
    requires programEnd <= mem.Length && ValidProgram(prog)
    requires mem[..programEnd] == Encode(prog) && start == Offset(prog, Position(prog, linenum))
    modifies mem
    ensures end <= programEnd && mem[..end] == Encode(Remove(prog, linenum))
    ensures forall i :: programEnd <= i < mem.Length ==> mem[i] == old(mem[i])
  {
    ghost var k := Position(prog, linenum);
    RemoveAtPosition(prog, linenum);
    OffsetAtEnd(prog, k);
    end := programEnd;
    if start != programEnd {
      HeaderAt(prog, k);
      assert mem[start] == mem[..programEnd][start] && mem[start + 1] == mem[..programEnd][start + 1];
      if Word16(mem[start], mem[start + 1]) == linenum {
        end := RemoveAt(mem, start, programEnd, prog, k);
      }
    }
  }

  /** After that many rounds nothing is left to insert and the memory is `now`. */
  ghost predicate Emptied(m: Merge, rounds: nat, now: seq<byte>) {
    MergeOk(m) && Rounds(m, rounds).linelen == 0 && Rounds(m, rounds).mem == now
  }

  /** The second way for an entry never to return is exactly that its insert loop never runs empty. */
  lemma FullMemoryIsEndless(p: seq<Line>, l: Line, limit: nat, m: Merge)
    requires Numbered(p) && l.text != [] && |l.text| <= 255 && MergeOk(m)
    requires m.end == |Encode(Remove(p, l.num))| && m.txt + LineSize(|l.text|) == limit
    requires m.linelen == LineSize(|l.text|) % 256
    ensures NeverReturns(p, l, limit) <==> Endless(m)
  {
    hide Encode, Remove, Rounds, LineSize;
    MergeEndsIff(m);
  }

  /** Merges the packed line l, which lies from txt for linelen bytes. */
  method InsertAt(mem: array<byte>, start: nat, programEnd: nat, txt: nat, linelen: nat,
                  ghost prog: seq<Line>, ghost l: Line)
    returns (end: nat, ghost rounds: nat)
    requires Numbered(prog) && l.num < 0x10000
    requires programEnd < txt && txt + linelen <= mem.Length
    requires mem[..programEnd] == Encode(prog) && mem[txt..txt + linelen] == EncodeLine(l)
    requires start == Offset(prog, Position(prog, l.num)) <= programEnd
    modifies mem
    ensures end == programEnd + linelen && mem[..end] == Encode(Insert(prog, l))
    ensures Emptied(Merge(old(mem[..]), start, programEnd, txt, linelen), rounds, mem[..])
  {
    ghost var was := mem[..];
    end, rounds := MergeBytes(mem, start, programEnd, txt, linelen);
    MergedBytes(was, mem[..], start, programEnd, txt, linelen);
    InsertedBytes(prog, l);
    assert was[..programEnd] == Encode(prog) && was[txt..txt + linelen] == EncodeLine(l);
    assert mem[..end] == mem[..][..end];
  }

  /** With a wrapped length the same loop takes in too little of the line. */
  method InsertWrapped(mem: array<byte>, start: nat, programEnd: nat, txt: nat, linelen: nat,
                       ghost prog: seq<Line>, ghost l: Line)
    returns (end: nat, ghost rounds: nat)
    requires Numbered(prog) && l.num < 0x10000 && linelen < LineSize(|l.text|)
    requires start <= programEnd <= txt && txt + linelen <= mem.Length
    requires linelen > 0 ==> programEnd < txt
    requires mem[..programEnd] == Encode(prog)
    modifies mem
    ensures end == programEnd + linelen && mem[..end] != Encode(Insert(prog, l))
    ensures Emptied(Merge(old(mem[..]), start, programEnd, txt, linelen), rounds, mem[..])
  {
    InsertedSize(prog, l);
    ghost var size := |mem[..programEnd]|;
    end, rounds := MergeBytes(mem, start, programEnd, txt, linelen);
    assert |mem[..end]| == size + linelen;
  }

  lemma KeptSlice(was: seq<byte>, now: seq<byte>, from: nat, txt: nat, size: nat)
    requires |now| == |was| && from <= txt && txt + size <= |was|
    requires forall i :: from <= i < |was| ==> now[i] == was[i]
    ensures now[txt..txt + size] == was[txt..txt + size]
  {
  }

  /** Finds where the line belongs and removes the old line of that number. */
  method FindAndRemove(mem: array<byte>, programEnd: nat, linenum: nat, txt: nat,
                       ghost size: nat, ghost prog: seq<Line>)
    returns (start: nat, end: nat)
    requires programEnd <= txt && txt + size <= mem.Length && linenum < 0x10000
    requires ValidProgram(prog) && mem[..programEnd] == Encode(prog)
    modifies mem
    ensures end <= programEnd && mem[..end] == Encode(Remove(prog, linenum))
    ensures start == Offset(Remove(prog, linenum), Position(Remove(prog, linenum), linenum)) <= end
    ensures mem[txt..txt + size] == old(mem[txt..txt + size])
  {
    ghost var was := mem[..];
    start := FindLine(mem, programEnd, linenum, prog);
    end := RemoveNumbered(mem, start, programEnd, linenum, prog);
    KeptSlice(was, mem[..], programEnd, txt, size);
    assert mem[..][txt..txt + size] == mem[txt..txt + size];
    StillAt(prog, linenum);
    ghost var r := Remove(prog, linenum);
    OffsetAtEnd(r, Position(r, linenum));
  }

  /** From the measured text on: header, old line out, new line in. */
  method MergeEntry(mem: array<byte>, programEnd: nat, txt: nat, top: nat, linenum: nat, n: nat,
                    ghost prog: seq<Line>, ghost l: Line)
    returns (o: Outcome, start: nat, end: nat)
    requires ValidProgram(prog) && programEnd <= mem.Length && mem[..programEnd] == Encode(prog)
    requires 0 < l.num == linenum < OVERFLOW && n == |l.text| <= 255 && top % 2 == 0
    requires LineAt(mem, txt, l.text) && txt + n == top - 1
    requires programEnd + 4 <= txt && mem[txt - 1] != NL
    modifies mem
    ensures o == EntryOutcome(prog, l, top)
    ensures end <= top
    ensures o !in {Hangs, Wrapped} ==> mem[..end] == Encode(Entered(prog, l))
    ensures o == Wrapped ==> mem[..end] != Encode(Upsert(prog, l))
  {
    var linelen;
    start, linelen := PlaceHeader(mem, txt, top, linenum, n, l.text);
    assert mem[..programEnd] == old(mem[..programEnd]);
    ghost var m, rounds;
    o, end, m, rounds := MergePlaced(mem, programEnd, start, linelen, linenum, n, prog, l);
  }

  lemma ValidIsNumbered(p: seq<Line>)
    requires ValidProgram(p)
    ensures Numbered(p)
  {
  }

  /** From the placed header on: old line out, new line in. */
  method MergePlaced(mem: array<byte>, programEnd: nat, start: nat, linelen: byte, linenum: nat, n: nat,
                     ghost prog: seq<Line>, ghost l: Line)
    returns (o: Outcome, end: nat, ghost m: Merge, ghost rounds: nat)
    requires ValidProgram(prog) && programEnd <= start && start + LineSize(n) <= mem.Length
    requires mem[..programEnd] == Encode(prog)
    requires 0 < l.num == linenum < OVERFLOW && n == |l.text| <= 255 && linelen == LineSize(n) % 256
    requires n <= MAX_TEXT ==> mem[start..start + LineSize(n)] == EncodeLine(l)
    requires mem[start + 3] == NL <==> n == 0
    modifies mem
    ensures o == EntryOutcome(prog, l, start + LineSize(n))
    ensures end <= start + LineSize(n)
    ensures o !in {Hangs, Wrapped} ==> mem[..end] == Encode(Entered(prog, l))
    ensures o == Wrapped ==> mem[..end] != Encode(Upsert(prog, l))
    ensures n != 0 ==> MergeOk(m) && m.end == |Encode(Remove(prog, linenum))| && m.txt == start && m.linelen == linelen
    ensures n != 0 ==> if o == Hangs then Endless(m) else Emptied(m, rounds, mem[..])
  {
    hide Encode, Remove, Rounds, Endless, Emptied, LineSize, Insert, EncodeLine, ValidProgram, Numbered;
    ghost var size := LineSize(n);
    assert mem[start + 3] == mem[start..start + size][3];
    ValidIsNumbered(prog);
    var at;
    at, end := FindAndRemove(mem, programEnd, linenum, start, size, prog);
    m, rounds := Merge(mem[..], at, end, start, linelen), 0;
    assert |mem[..end]| == end;
    assert mem[start + 3] == mem[start..start + size][3];
    if mem[start + 3] == NL {
      o := Deleted;
    } else if linelen > 0 && start == end {
      o := Hangs;
      MergeEndsIff(m);
    } else if n <= MAX_TEXT {
      end, rounds := InsertAt(mem, at, end, start, linelen, Remove(prog, linenum), l);
      o := Stored;
    } else {
      end, rounds := InsertWrapped(mem, at, end, start, linelen, Remove(prog, linenum), l);
      o := Wrapped;
    }
  }

  // --------------------------------------------------------------- the store

  class Store {
    const mem: array<byte>
    const variablesBegin: nat
    var programEnd: nat
    var txtpos: nat
    var linenum: nat
    ghost var prog: seq<Line>

    /** The bytes below programEnd are the packed form of a sorted, well-formed program. */
    ghost predicate Valid()
      reads this, mem
    {
      && variablesBegin % 2 == 0
      && programEnd <= variablesBegin <= mem.Length
      && ValidProgram(prog)
      && mem[..programEnd] == Encode(prog)
    }

    constructor (memory: array<byte>, top: nat)
      requires top % 2 == 0 && top <= memory.Length
      ensures Valid() && prog == [] && mem == memory && variablesBegin == top
    {
      mem, variablesBegin := memory, top;
      programEnd, txtpos, linenum, prog := 0, 0, 0, [];
    }

    /** What `getln` leaves: a line at programEnd+2 whose only newline is at e, one byte below the top at most. */
    ghost predicate Typed(e: nat)
      reads this, mem
    {
      && programEnd + 2 <= e <= variablesBegin - 2
      && variablesBegin <= mem.Length
      && mem[e] == NL
      && (forall i :: programEnd + 2 <= i < e ==> mem[i] != NL)
    }

    method ToUppercaseBuffer(ghost e: nat)
      requires Typed(e)
      modifies mem
      ensures mem[programEnd + 2..e] == Upper(old(mem[programEnd + 2..e]), 0)
      ensures mem[..programEnd] == old(mem[..programEnd])
      ensures Typed(e)
    {
      ghost var s := mem[programEnd + 2..e];
      RaiseUntilNewline(mem, programEnd + 2, e, s);
      assert mem[programEnd + 2..e] == Upper(s, 0);
      forall i | programEnd + 2 <= i < e ensures mem[i] != NL {
        UpperAt(s, 0, i - (programEnd + 2));
      }
    }

    method FindNewline(ghost e: nat)
      requires Typed(e)
      modifies this`txtpos
      ensures txtpos == e
    {
      txtpos := programEnd + 2;
      while mem[txtpos] != NL
        invariant programEnd + 2 <= txtpos <= e
        decreases e - txtpos
      {
        txtpos := txtpos + 1;
      }
    }

    /** Moves the typed line up against variablesBegin; the program below it is not touched. */
    method MoveToTop(ghost e: nat)
      requires Typed(e)
      modifies mem, this`txtpos
      ensures txtpos == variablesBegin - 1 - (e - (programEnd + 2))
      ensures LineAt(mem, txtpos, old(mem[programEnd + 2..e]))
      ensures mem[..programEnd] == old(mem[..programEnd])
    {
      hide LineAt, At;
      FindNewline(e);
      var len := txtpos - (programEnd + 2);
      var dest := variablesBegin - 1 - len;
      MoveUp(mem, programEnd + 2, dest, len + 1);
      txtpos := dest;
      SameSlices(mem[..], dest, old(mem[..]), programEnd + 2, len + 1);
      SameSlices(mem[..], 0, old(mem[..]), 0, dest);
      MovedLine(mem, dest, variablesBegin, old(mem[programEnd + 2..e]));
    }

    /** Raises the typed line, moves it up and takes it apart; txtpos ends on the text. */
    method ReadEntry(ghost e: nat)
      requires Valid() && Typed(e)
      modifies mem, this`txtpos, this`linenum
      ensures var l := ParseEntry(old(mem[programEnd + 2..e]));
              && linenum == l.num
              && LineAt(mem, txtpos, l.text)
              && txtpos + |l.text| == variablesBegin - 1
              && (l.num != 0 ==> txtpos - 1 >= programEnd + 3 && mem[txtpos - 1] != NL)
      ensures mem[..programEnd] == old(mem[..programEnd])
    {
      ghost var typed := mem[programEnd + 2..e];
      ToUppercaseBuffer(e);
      ghost var s := mem[programEnd + 2..e];
      MoveToTop(e);
      ParseEntryShape(typed);
      linenum, txtpos := TakeApart(mem, txtpos, s);
    }

    /** Deals with one typed line, from `prompt` on. The program becomes the sorted-map update
        that the line stands for, unless the firmware never returns or the 8-bit length wraps;
        the outcome says which, and in the last case the stored bytes are wrong. */
    method EnterLine(ghost e: nat) returns (o: Outcome)
      requires Valid() && Typed(e)
      modifies mem, this`txtpos, this`linenum, this`programEnd, this`prog
      ensures var l := ParseEntry(old(mem[programEnd + 2..e]));
              && o == EntryOutcome(old(prog), l, variablesBegin)
              && (o !in {Hangs, Wrapped} ==> Valid() && prog == Entered(old(prog), l))
              && (o == Wrapped ==> programEnd <= mem.Length && mem[..programEnd] != Encode(Upsert(old(prog), l)))
    {
      ghost var l := ParseEntry(mem[programEnd + 2..e]);
      EntryIsValid(mem[programEnd + 2..e]);
      ReadEntry(e);
      if linenum == 0 {
        return Direct;
      }
      if linenum == 0xFFFF {
        return BadNumber;
      }
      var found, n := MeasureFrom(mem, txtpos, l.text);
      if !found {
        return Hangs;
      }
      UpsertKeepsValid(prog, l);
      o, txtpos, programEnd := MergeEntry(mem, programEnd, txtpos, variablesBegin, linenum, n, prog, l);
      prog := Entered(prog, l);
    }
  }

  lemma EntryIsValid(s: seq<byte>)
    requires NoNewline(s)
    ensures var l := ParseEntry(s);
            0 < l.num != OVERFLOW && 0 < |l.text| <= MAX_TEXT ==> ValidLine(l)
  {
    ParsedTextIsRaised(s);
  }

  /** Removing the line at a position leaves that position in place. */
  lemma StillAt(p: seq<Line>, n: nat)
    requires ValidProgram(p)
    ensures Position(Remove(p, n), n) == Position(p, n)
    ensures Remove(p, n)[..Position(p, n)] == p[..Position(p, n)]
  {
    RemoveAtPosition(p, n);
    var k, r := Position(p, n), Remove(p, n);
    assert k < |r| && r != p ==> r[k] == p[k + 1];
    PositionIs(r, n, k);
  }

  lemma {:induction false} PositionIs(p: seq<Line>, n: nat, k: nat)
    requires k <= |p| && (forall i :: 0 <= i < k ==> p[i].num < n) && (k < |p| ==> p[k].num >= n)
    ensures Position(p, n) == k
  {
  }

  lemma InsertedBytes(p: seq<Line>, l: Line)
    requires Numbered(p) && l.num < 0x10000
    ensures var o := Offset(p, Position(p, l.num));
            && o <= |Encode(p)|
            && Encode(Insert(p, l)) == Encode(p)[..o] + EncodeLine(l) + Encode(p)[o..]
  {
    hide Encode, EncodeLine, Insert, Position;
    var k := Position(p, l.num);
    InsertAtPosition(p, l);
    EncodeConcat(p[..k], p[k..]);
    assert p == p[..k] + p[k..];
    Pieces(Encode(p[..k]), [], Encode(p[k..]));
    EncodeOneBetween(p[..k], l, p[k..]);
  }

  lemma InsertedSize(p: seq<Line>, l: Line)
    requires Numbered(p) && l.num < 0x10000
    ensures |Encode(Insert(p, l))| == |Encode(p)| + LineSize(|l.text|)
  {
    InsertedBytes(p, l);
  }

  lemma EncodeOneBetween(a: seq<Line>, l: Line, b: seq<Line>)
    requires Numbered(a) && Numbered(b) && l.num < 0x10000
    ensures Encode(a + [l] + b) == Encode(a) + EncodeLine(l) + Encode(b)
  {
    var p := a + [l] + b;
    EncodeAround(p, |a|);
    assert p[..|a|] == a && p[|a| + 1..] == b;
  }

  lemma MergedBytes(was: seq<byte>, now: seq<byte>, start: nat, end: nat, txt: nat, n: nat)
    requires start <= end <= txt && txt + n <= |was| && Shuffled(was, now, start, end, txt, n)
    ensures now[..end + n] == was[..end][..start] + was[txt..txt + n] + was[..end][start..]
  {
    SameSlices(now, 0, was, 0, start);
    SameSlices(now, start, was, txt, n);
    SameSlices(now, start + n, was, start, end - start);
    assert now[..end + n] == now[0..start] + now[start..start + n] + now[start + n..start + n + (end - start)];
    assert was[..end][start..] == was[start..end];
    assert was[..end][..start] == was[..start];
  }

  lemma MovedLine(mem: array<byte>, p: nat, top: nat, s: seq<byte>)
    requires 0 < top <= mem.Length && p + |s| + 1 == top
    requires mem[p..top] == s + [NL] && NoNewline(s)
    ensures LineAt(mem, p, s)
  {
    forall i | p <= i < p + |s| ensures mem[i] == s[i - p] {
      assert mem[i] == mem[p..top][i - p];
    }
    assert mem[p + |s|] == mem[p..top][|s|];
  }
}
