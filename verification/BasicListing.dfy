/** LIST, and typing its output back in. */
module BasicListing {
  import opened Ascii
  import opened Machine
  import opened BasicProgram
  import opened BasicStore

  // ------------------------------------------------------------------- LIST

  const INT_MIN := -0x8000_0000

  /** `num % 10` and `num / 10` as C has them: truncated toward zero. */
  function LastDigit(num: int): int { if num < 0 then -(-num % 10) else num % 10 }

  function WithoutLast(num: int): int { if num < 0 then -(-num / 10) else num / 10 }

  /** `printnum` on a 32-bit int: the digits are pushed low end first and popped back. The smallest int, whose
      negation wraps to itself, comes out as a sign and a parenthesis. */
  method PrintNum(num: int) returns (out: seq<byte>)
    requires INT_MIN <= num < 0x8000_0000
    ensures out == if num >= 0 then Digits(num) else if num > INT_MIN then [45] + Digits(-num) else [45, 40]
  {
    var n := num;
    out := [];
    if n < 0 {
      n := if n == INT_MIN then INT_MIN else -n;
      out := [45];
    }
    var digits := PrintDigits(n);
    out := out + digits;
  }

  method PrintDigits(num: int) returns (out: seq<byte>)
    requires num >= 0 || num == INT_MIN
    ensures num >= 0 ==> out == Digits(num)
    ensures num == INT_MIN ==> out == [40]
  {
    var stack: seq<byte> := [];
    var n := num;
    var more := true;
    ghost var whole: seq<byte> := if num >= 0 then Digits(num) else [40];
    while more
      invariant more ==> n >= 0 || (n == num == INT_MIN && stack == [])
      invariant more && n >= 0 ==> whole == Digits(n) + stack
      invariant !more ==> whole == stack
      decreases more, if n >= 0 then n else 0
    {
      stack := [48 + LastDigit(n)] + stack;
      n := WithoutLast(n);
      more := n > 0;
    }
    out := [];
    while stack != []
      invariant whole == out + stack
      decreases |stack|
    {
      out := out + [stack[0]];
      stack := stack[1..];
    }
  }

  /** What LIST prints for one line, its newline apart. */
  function ListLine(l: Line): (r: seq<byte>) { Digits(l.num) + [SPACE] + l.text }

  /** `printline`: prints the line at p and steps to the next one. It looks for the newline
      and rounds up to an even address, and that is where the length byte leads too. */
  method PrintLine(mem: array<byte>, p: nat, ghost l: Line) returns (out: seq<byte>, next: nat)
    requires ValidLine(l) && p % 2 == 0 && p + LineSize(|l.text|) <= mem.Length
    requires mem[p..p + LineSize(|l.text|)] == EncodeLine(l)
    ensures out == ListLine(l) + [NL]
    ensures next == p + LineSize(|l.text|) == p + mem[p + 2]
  {
    ghost var size := LineSize(|l.text|);
    ghost var b := mem[p..p + size];
    LineHeader(l);
    assert mem[p] == b[0] && mem[p + 1] == b[1] && mem[p + 2] == b[2];
    var number := PrintNum(Word16(mem[p], mem[p + 1]));
    TextIn(mem, p, l);
    var text;
    text, next := PrintText(mem, p + 3, l.text);
    out := number + [SPACE] + text;
    next := next + 1;
    if next % 2 != 0 {
      next := next + 1;
    }
    out := out + [NL];
  }

  lemma TextIn(mem: array<byte>, p: nat, l: Line)
    requires ValidLine(l) && p + LineSize(|l.text|) <= mem.Length
    requires mem[p..p + LineSize(|l.text|)] == EncodeLine(l)
    ensures LineAt(mem, p + 3, l.text)
  {
    var b := mem[p..p + LineSize(|l.text|)];
    forall i | p + 3 <= i < p + 3 + |l.text| ensures mem[i] == l.text[i - (p + 3)] {
      assert mem[i] == b[i - p];
    }
    assert mem[p + 3 + |l.text|] == b[3 + |l.text|];
  }

  method PrintText(mem: array<byte>, p: nat, ghost text: seq<byte>) returns (out: seq<byte>, next: nat)
    requires LineAt(mem, p, text)
    ensures out == text && next == p + |text|
  {
    out, next := [], p;
    while mem[next] != NL
      invariant p <= next <= p + |text| && out == text[..next - p]
      decreases p + |text| - next
    {
      out := out + [mem[next]];
      next := next + 1;
    }
  }

  function Listing(p: seq<Line>): (r: seq<byte>) {
    if p == [] then [] else ListLine(p[0]) + [NL] + Listing(p[1..])
  }

  /** The LIST command from line number `from` on. */
  method List(mem: array<byte>, programEnd: nat, from: nat, ghost prog: seq<Line>) returns (out: seq<byte>)
    requires programEnd <= mem.Length && ValidProgram(prog) && mem[..programEnd] == Encode(prog)
    ensures out == Listing(prog[Position(prog, from)..])
  {
    hide Encode, Position, ListLine, Offset;
    var line := FindLine(mem, programEnd, from, prog);
    ghost var k := Position(prog, from);
    ghost var rest := prog[k..];
    out := [];
    while line != programEnd
      invariant k <= |prog| && line == Offset(prog, k) <= programEnd
      invariant Listing(rest) == out + Listing(prog[k..])
      decreases |prog| - k
    {
      OffsetAtEnd(prog, k);
      var printed;
      printed, line := PrintAt(mem, programEnd, line, prog, k);
      ListingStep(prog, k);
      out := out + printed;
      k := k + 1;
    }
    OffsetAtEnd(prog, k);
  }

  method PrintAt(mem: array<byte>, programEnd: nat, line: nat, ghost prog: seq<Line>, ghost k: nat)
    returns (out: seq<byte>, next: nat)
    requires programEnd <= mem.Length && ValidProgram(prog) && mem[..programEnd] == Encode(prog)
    requires k < |prog| && line == Offset(prog, k)
    ensures out == ListLine(prog[k]) + [NL] && next == Offset(prog, k + 1) <= programEnd
  {
    hide Encode, EncodeLine, ListLine, Offset, LineSize;
    OffsetNext(prog, k);
    ghost var m, size := mem[..programEnd], LineSize(|prog[k].text|);
    LineBytes(prog, k, m);
    assert m[line..line + size] == mem[line..line + size];
    out, next := PrintLine(mem, line, prog[k]);
  }

  lemma ListingStep(p: seq<Line>, k: nat)
    requires k < |p|
    ensures Listing(p[k..]) == ListLine(p[k]) + [NL] + Listing(p[k + 1..])
  {
    assert p[k..][1..] == p[k + 1..];
  }

  lemma LineBytes(p: seq<Line>, k: nat, m: seq<byte>)
    requires Numbered(p) && k < |p| && m == Encode(p)
    ensures Offset(p, k) % 2 == 0 && Offset(p, k) + LineSize(|p[k].text|) <= |m|
    ensures m[Offset(p, k)..Offset(p, k) + LineSize(|p[k].text|)] == EncodeLine(p[k])
  {
    EncodeAround(p, k);
    MiddlePiece(m, Encode(p[..k]), EncodeLine(p[k]), Encode(p[k + 1..]));
  }

  lemma MiddlePiece(m: seq<byte>, a: seq<byte>, e: seq<byte>, b: seq<byte>)
    requires m == a + e + b
    ensures m[|a|..|a| + |e|] == e
  {
  }

  // ----------------------------------------------------------- typing it back

  /** Reading back a printed number. Numbers past 65529 read as the overflow value. */
  lemma {:induction false} PrintedNumber(n: nat, rest: seq<byte>)
    requires rest == [] || !IsDigit(rest[0])
    ensures n <= MAX_LINENUM ==> ScanNumber(Digits(n) + rest, 0) == (n, rest)
    ensures n > MAX_LINENUM ==> ScanNumber(Digits(n) + rest, 0).0 == OVERFLOW
  {
    if n <= MAX_LINENUM {
      ScanDigits(n, rest);
    } else {
      ScanTooMany(n, rest);
    }
  }

  lemma {:induction false} ScanDigits(n: nat, rest: seq<byte>)
    requires n <= MAX_LINENUM
    ensures ScanNumber(Digits(n) + rest, 0) == ScanNumber(rest, n)
  {
    if n < 10 {
      assert (Digits(n) + rest)[1..] == rest;
    } else {
      var tail := [48 + n % 10] + rest;
      ScanDigits(n / 10, tail);
      assert Digits(n) + rest == Digits(n / 10) + tail;
      assert tail[1..] == rest;
    }
  }

  lemma {:induction false} ScanTooMany(n: nat, rest: seq<byte>)
    requires n > MAX_LINENUM
    ensures ScanNumber(Digits(n) + rest, 0).0 == OVERFLOW
  {
    var tail := [48 + n % 10] + rest;
    assert Digits(n) + rest == Digits(n / 10) + tail;
    if n / 10 <= MAX_LINENUM {
      ScanDigits(n / 10, tail);
    } else {
      ScanTooMany(n / 10, tail);
    }
  }

  /** Typing what LIST prints for a line reads back as that line. */
  lemma ListedLineParses(l: Line)
    requires ValidLine(l)
    ensures ParseEntry(ListLine(l)) == l
  {
    hide Upper, Digits, ScanNumber;
    var d := Digits(l.num);
    assert ListLine(l) == (d + [SPACE]) + l.text;
    UpperAfterPrefix(d + [SPACE], l.text);
    var tail := [SPACE] + l.text;
    assert ListLine(l) == d + tail;
    PrintedNumber(l.num, tail);
    assert IsDigit(d[0]) && SkipBlanks(d + tail) == d + tail;
    assert tail[1..] == l.text && SkipBlanks(tail) == l.text;
  }

  /** A store being typed into; Broken once the firmware hangs, corrupts the store or has
      no room left for its input buffer. */
  datatype Session = Running(prog: seq<Line>) | Broken

  /** What `getln` keeps of s: it beeps and drops characters once the buffer is full. */
  function Keyed(s: seq<byte>, p: seq<Line>, top: nat): seq<byte>
    requires Numbered(p) && |Encode(p)| + 4 <= top
  {
    var room := top - 4 - |Encode(p)|;
    if |s| <= room then s else s[..room]
  }

  function TypeLine(p: seq<Line>, s: seq<byte>, top: nat): (r: Session)
    requires Numbered(p)
    ensures r.Running? ==> Numbered(r.prog)
  {
    if |Encode(p)| + 4 > top then Broken
    else
      var l := ParseEntry(Keyed(s, p, top));
      if EntryOutcome(p, l, top) in {Hangs, Wrapped} then Broken else Running(Entered(p, l))
  }

  function TypeNext(st: Session, l: Line, top: nat): (r: Session)
    requires st.Running? ==> Numbered(st.prog)
    ensures r.Running? ==> Numbered(r.prog)
  {
    if st.Broken? then Broken else TypeLine(st.prog, ListLine(l), top)
  }

  /** Typing the first k listed lines of p into an empty store. */
  function TypeListing(p: seq<Line>, k: nat, top: nat): (r: Session)
    requires k <= |p|
    ensures r.Running? ==> Numbered(r.prog)
  {
    if k == 0 then Running([]) else TypeNext(TypeListing(p, k - 1, top), p[k - 1], top)
  }

  /** The input buffer holds listed line k when the lines before it are already stored. */
  predicate Fits(p: seq<Line>, k: nat, top: nat)
    requires Numbered(p) && k < |p|
  {
    |Encode(p[..k])| + |ListLine(p[k])| + 4 <= top
  }

  /** LIST and re-entry undo each other exactly when every listed line fits the input buffer. */
  lemma RelistRebuilds(p: seq<Line>, top: nat)
    requires ValidProgram(p)
    ensures TypeListing(p, |p|, top) == Running(p) <==> forall k :: 0 <= k < |p| ==> Fits(p, k, top)
  {
    if forall k :: 0 <= k < |p| ==> Fits(p, k, top) {
      RetypePrefix(p, |p|, top);
      assert p[..|p|] == p;
    } else {
      var j := FirstMisfit(p, top);
      RetypePrefix(p, j, top);
      NeverAgain(p, j, |p|, top);
      assert p[j] in p;
    }
  }

  lemma FirstMisfit(p: seq<Line>, top: nat) returns (j: nat)
    requires Numbered(p) && exists k :: 0 <= k < |p| && !Fits(p, k, top)
    ensures j < |p| && !Fits(p, j, top) && forall k :: 0 <= k < j ==> Fits(p, k, top)
  {
    j := 0;
    while Fits(p, j, top)
      invariant j < |p| && forall k :: 0 <= k < j ==> Fits(p, k, top)
      invariant exists k :: j <= k < |p| && !Fits(p, k, top)
      decreases |p| - j
    {
      j := j + 1;
    }
  }

  lemma {:induction false} RetypePrefix(p: seq<Line>, k: nat, top: nat)
    requires ValidProgram(p) && k <= |p| && forall i :: 0 <= i < k ==> Fits(p, i, top)
    ensures TypeListing(p, k, top) == Running(p[..k])
  {
    if k > 0 {
      RetypePrefix(p, k - 1, top);
      assert Fits(p, k - 1, top);
      assert AllBelow(p[..k - 1], p[k - 1].num);
      RetypeOne(p[..k - 1], p[k - 1], top);
      PrefixPlusOne(p, k);
    }
  }

  lemma PrefixPlusOne(p: seq<Line>, k: nat)
    requires 0 < k <= |p|
    ensures p[..k] == p[..k - 1] + [p[k - 1]]
  {
  }

  lemma RetypeOne(q: seq<Line>, l: Line, top: nat)
    requires ValidLine(l) && Numbered(q) && AllBelow(q, l.num)
    requires |Encode(q)| + |ListLine(l)| + 4 <= top
    ensures TypeLine(q, ListLine(l), top) == Running(q + [l])
  {
    ListedLineParses(l);
    AppendLast(q, l);
  }

  predicate AllBelow(p: seq<Line>, n: nat) { forall i :: 0 <= i < |p| ==> p[i].num < n }

  lemma {:induction false} AppendLast(q: seq<Line>, l: Line)
    requires AllBelow(q, l.num)
    ensures Remove(q, l.num) == q && Insert(q, l) == q + [l]
  {
    if q != [] {
      AppendLast(q[1..], l);
      assert q == [q[0]] + q[1..];
    }
  }

  predicate Lacks(st: Session, x: Line) { st.Running? ==> x !in st.prog }

  /** Once line j has been cut short, no later listed line can bring it back. */
  lemma {:induction false} NeverAgain(p: seq<Line>, j: nat, k: nat, top: nat)
    requires ValidProgram(p) && j < k <= |p| && !Fits(p, j, top)
    requires TypeListing(p, j, top) == Running(p[..j])
    ensures Lacks(TypeListing(p, k, top), p[j])
    decreases k
  {
    hide *;
    if k == j + 1 {
      FirstCut(p, j, top);
    } else {
      NeverAgain(p, j, k - 1, top);
      NextCut(p, j, k - 1, top);
    }
  }

  lemma FirstCut(p: seq<Line>, j: nat, top: nat)
    requires ValidProgram(p) && j < |p| && !Fits(p, j, top)
    requires TypeListing(p, j, top) == Running(p[..j])
    ensures Lacks(TypeListing(p, j + 1, top), p[j])
  {
    hide Encode, ListLine, TypeLine, TypeNext, Lacks;
    NotBefore(p, j);
    CutShort(p[..j], p[j], top);
  }

  lemma NextCut(p: seq<Line>, j: nat, k: nat, top: nat)
    requires ValidProgram(p) && j < k < |p| && Lacks(TypeListing(p, k, top), p[j])
    ensures Lacks(TypeListing(p, k + 1, top), p[j])
  {
    hide Encode, ListLine, TypeLine, TypeNext, Lacks;
    StillMissing(TypeListing(p, k, top), p[k], p[j], top);
  }

  lemma NotBefore(p: seq<Line>, j: nat)
    requires Sorted(p) && j < |p|
    ensures p[j] !in p[..j]
  {
  }

  lemma CutShort(q: seq<Line>, l: Line, top: nat)
    requires ValidLine(l) && Numbered(q) && l !in q && |Encode(q)| + |ListLine(l)| + 4 > top
    ensures Lacks(TypeNext(Running(q), l, top), l)
  {
    if |Encode(q)| + 4 <= top {
      var s := ListLine(l);
      var keyed := Keyed(s, q, top);
      PartParses(l, |keyed|);
      EnteredLines(q, ParseEntry(keyed), l);
    }
  }

  lemma StillMissing(st: Session, l: Line, x: Line, top: nat)
    requires ValidLine(l) && ValidLine(x) && (st.Running? ==> Numbered(st.prog))
    requires x.num != l.num && Lacks(st, x)
    ensures Lacks(TypeNext(st, l, top), x)
  {
    if st.Running? && |Encode(st.prog)| + 4 <= top {
      var s := ListLine(l);
      var keyed := Keyed(s, st.prog, top);
      assert keyed == s[..|keyed|];
      PartParses(l, |keyed|);
      EnteredLines(st.prog, ParseEntry(keyed), x);
    }
  }

  lemma {:induction false} ScanStops(s: seq<byte>, num: nat)
    ensures var (n, rest) := ScanNumber(s, num); rest == [] || !IsDigit(rest[0]) || n == OVERFLOW
  {
    if s != [] && IsDigit(s[0]) && num < 0xFFFF / 10 {
      ScanStops(s[1..], num * 10 + s[0] - 48);
    }
  }

  /** Any part of a listed line reads as its number with at most that much text, as no text, or as an overflow. */
  lemma PartParses(l: Line, n: nat)
    requires ValidLine(l) && n <= |ListLine(l)|
    ensures var r := ParseEntry(ListLine(l)[..n]);
            r.text == [] || r.num == OVERFLOW || (r.num == l.num && |r.text| <= n - |Digits(l.num)| - 1)
  {
    var d := Digits(l.num);
    var s := ListLine(l)[..n];
    if n <= |d| {
      assert s == d[..n];
      UpperAfterPrefix(s, []);
      assert s + [] == s;
      assert SkipBlanks(s) == s;
      ScanStops(s, 0);
      ScanNumberShape(s, 0);
      var rest := ScanNumber(s, 0).1;
      assert rest != [] ==> rest[0] == s[|s| - |rest|];
    } else {
      var m := n - |d| - 1;
      assert s == (d + [SPACE]) + l.text[..m];
      UpperAfterPrefix(d + [SPACE], l.text[..m]);
      var tail := [SPACE] + Upper(l.text[..m], 0);
      assert Upper(s, 0) == d + tail;
      PrintedNumber(l.num, tail);
      assert IsDigit(d[0]) && SkipBlanks(d + tail) == d + tail;
      assert SkipBlanks(tail) == SkipBlanks(tail[1..]);
    }
  }

  lemma EnteredLines(q: seq<Line>, r: Line, x: Line)
    requires x !in q && x != r
    ensures x !in Entered(q, r)
  {
    RemoveLines(q, r.num, x);
    InsertLines(Remove(q, r.num), r, x);
  }

  lemma {:induction false} RemoveLines(q: seq<Line>, n: nat, x: Line)
    requires x !in q
    ensures x !in Remove(q, n)
  {
    if q != [] && q[0].num < n {
      RemoveLines(q[1..], n, x);
    }
  }

  lemma {:induction false} InsertLines(q: seq<Line>, l: Line, x: Line)
    requires x !in q && x != l
    ensures x !in Insert(q, l)
  {
    if q != [] && q[0].num < l.num {
      InsertLines(q[1..], l, x);
    }
  }
}
