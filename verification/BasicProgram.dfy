/** What a stored Tiny BASIC program means: a strictly sorted list of numbered
    lines, its packed byte form, and the update that entering a line stands for. */
module BasicProgram {
  import opened Ascii
  import opened Machine

  datatype Line = Line(num: nat, text: seq<byte>)

  /** The longest text whose packed line still fits the one-byte length field. */
  const MAX_TEXT := 250
  /** The largest number that `testnum` can return short of its overflow value. */
  const MAX_LINENUM := 65529
  const OVERFLOW := 0xFFFF

  // ---------------------------------------------------------------- packing

  /** Header (3), text, newline, and one pad byte when that makes the size even. */
  function LineSize(n: nat): (r: nat)
    ensures r % 2 == 0 && n + 4 <= r <= n + 5
  {
    if n % 2 == 0 then n + 4 else n + 5
  }

  function EncodeLine(l: Line): (r: seq<byte>)
    requires l.num < 0x10000
    ensures |r| == LineSize(|l.text|)
  {
    [l.num / 256, l.num % 256, LineSize(|l.text|) % 256] + l.text + [NL]
    + if |l.text| % 2 == 0 then [] else [NL]
  }

  predicate ValidLine(l: Line) {
    && 0 < l.num <= MAX_LINENUM
    && 0 < |l.text| <= MAX_TEXT
    && NoNewline(l.text)
    && !IsBlank(l.text[0])
    && Upper(l.text, 0) == l.text
  }

  predicate Numbered(p: seq<Line>) { forall i :: 0 <= i < |p| ==> p[i].num < 0x10000 }

  predicate Sorted(p: seq<Line>) { forall i, j :: 0 <= i < j < |p| ==> p[i].num < p[j].num }

  predicate ValidProgram(p: seq<Line>) {
    Sorted(p) && AllValid(p)
  }

  function Encode(p: seq<Line>): (r: seq<byte>)
    requires Numbered(p)
    ensures |r| % 2 == 0
  {
    if p == [] then [] else EncodeLine(p[0]) + Encode(p[1..])
  }

  lemma {:induction false} EncodeConcat(p: seq<Line>, q: seq<Line>)
    requires Numbered(p) && Numbered(q)
    ensures Encode(p + q) == Encode(p) + Encode(q)
  {
    if p == [] {
      assert p + q == q;
    } else {
      EncodeConcat(p[1..], q);
      assert (p + q)[1..] == p[1..] + q;
    }
  }

  /** The packed form splits around any line k. */
  lemma EncodeAround(p: seq<Line>, k: nat)
    requires Numbered(p) && k < |p|
    ensures Encode(p) == Encode(p[..k]) + EncodeLine(p[k]) + Encode(p[k + 1..])
  {
    EncodeConcat(p[..k], p[k..]);
    assert p == p[..k] + p[k..];
    assert p[k..][1..] == p[k + 1..];
  }

  // ----------------------------------------------------------------- update

  /** The index of the first line numbered n or more: where `findline` stops. */
  function Position(p: seq<Line>, n: nat): (k: nat)
    ensures k <= |p|
    ensures forall i :: 0 <= i < k ==> p[i].num < n
    ensures k < |p| ==> p[k].num >= n
  {
    if p == [] || p[0].num >= n then 0 else 1 + Position(p[1..], n)
  }

  function Remove(p: seq<Line>, n: nat): (r: seq<Line>)
    ensures Numbered(p) ==> Numbered(r)
  {
    if p == [] || p[0].num > n then p
    else if p[0].num == n then p[1..]
    else [p[0]] + Remove(p[1..], n)
  }

  function Insert(p: seq<Line>, l: Line): (r: seq<Line>)
    ensures Numbered(p) && l.num < 0x10000 ==> Numbered(r)
  {
    if p == [] || p[0].num >= l.num then [l] + p else [p[0]] + Insert(p[1..], l)
  }

  function Upsert(p: seq<Line>, l: Line): (r: seq<Line>) { Insert(Remove(p, l.num), l) }

  lemma {:induction false} RemoveAtPosition(p: seq<Line>, n: nat)
    requires Sorted(p)
    ensures var k := Position(p, n);
            Remove(p, n) == if k < |p| && p[k].num == n then p[..k] + p[k + 1..] else p
  {
    if p != [] && p[0].num < n {
      RemoveAtPosition(p[1..], n);
      var k := Position(p, n);
      if k < |p| {
        Without(p, k);
      }
      assert p == [p[0]] + p[1..];
    }
  }

  lemma Without(p: seq<Line>, k: nat)
    requires 0 < k < |p|
    ensures p[..k] + p[k + 1..] == [p[0]] + (p[1..][..k - 1] + p[1..][k..])
  {
    assert p[..k] == [p[0]] + p[1..][..k - 1] && p[k + 1..] == p[1..][k..];
  }

  lemma {:induction false} InsertAtPosition(p: seq<Line>, l: Line)
    ensures var k := Position(p, l.num); Insert(p, l) == p[..k] + [l] + p[k..]
  {
    if p != [] && p[0].num < l.num {
      InsertAtPosition(p[1..], l);
      var k := Position(p, l.num);
      assert p[..k] == [p[0]] + p[1..][..k - 1] && p[k..] == p[1..][k - 1..];
    }
  }

  /** The program as the finite map from line number to text that it stands for. */
  function AsMap(p: seq<Line>): (m: map<nat, seq<byte>>) {
    if p == [] then map[] else AsMap(p[1..])[p[0].num := p[0].text]
  }

  lemma {:induction false} MapNumbers(p: seq<Line>, n: nat)
    requires n in AsMap(p)
    ensures exists i :: 0 <= i < |p| && p[i].num == n
  {
    if p[0].num != n {
      MapNumbers(p[1..], n);
      var i :| 0 <= i < |p[1..]| && p[1..][i].num == n;
      assert p[i + 1].num == n;
    } else {
      assert p[0].num == n;
    }
  }

  lemma HeadNotInTail(p: seq<Line>, n: nat)
    requires Sorted(p) && p != [] && n <= p[0].num
    ensures n !in AsMap(p[1..])
  {
    if n in AsMap(p[1..]) {
      MapNumbers(p[1..], n);
    }
  }

  predicate AllAbove(p: seq<Line>, n: nat) { forall i :: 0 <= i < |p| ==> p[i].num > n }

  lemma SortedCons(l: Line, p: seq<Line>)
    requires Sorted(p) && AllAbove(p, l.num)
    ensures Sorted([l] + p)
  {
  }

  lemma {:induction false} RemoveIsMapRemove(p: seq<Line>, n: nat)
    requires Sorted(p)
    ensures Sorted(Remove(p, n))
    ensures forall b :: AllAbove(p, b) ==> AllAbove(Remove(p, n), b)
    ensures AsMap(Remove(p, n)) == AsMap(p) - {n}
  {
    hide Sorted, AllAbove;
    RemoveKeepsSorted(p, n);
    if p == [] {
    } else if p[0].num >= n {
      HeadNotInTail(p, n);
    } else {
      SortedTail(p);
      RemoveIsMapRemove(p[1..], n);
      assert Remove(p, n)[1..] == Remove(p[1..], n);
    }
  }

  lemma SortedTail(p: seq<Line>)
    requires Sorted(p) && p != []
    ensures Sorted(p[1..])
  {
  }

  lemma {:induction false} RemoveKeepsSorted(p: seq<Line>, n: nat)
    requires Sorted(p)
    ensures Sorted(Remove(p, n))
    ensures forall b :: AllAbove(p, b) ==> AllAbove(Remove(p, n), b)
  {
    if p != [] && p[0].num < n {
      RemoveKeepsSorted(p[1..], n);
      assert AllAbove(p[1..], p[0].num);
      SortedCons(p[0], Remove(p[1..], n));
      assert Remove(p, n)[1..] == Remove(p[1..], n);
    }
  }

  lemma {:induction false} InsertKeepsSorted(p: seq<Line>, l: Line)
    requires Sorted(p) && l.num !in AsMap(p)
    ensures Sorted(Insert(p, l))
    ensures forall b :: AllAbove(p, b) && l.num > b ==> AllAbove(Insert(p, l), b)
  {
    if p == [] {
    } else if p[0].num >= l.num {
      SortedCons(l, p);
    } else {
      InsertKeepsSorted(p[1..], l);
      assert AllAbove(p[1..], p[0].num);
      SortedCons(p[0], Insert(p[1..], l));
    }
  }

  lemma {:induction false} InsertIsMapUpdate(p: seq<Line>, l: Line)
    requires Sorted(p) && l.num !in AsMap(p)
    ensures AsMap(Insert(p, l)) == AsMap(p)[l.num := l.text]
  {
    if p == [] || p[0].num >= l.num {
      assert ([l] + p)[1..] == p;
    } else {
      InsertIsMapUpdate(p[1..], l);
      assert Insert(p, l)[1..] == Insert(p[1..], l);
    }
  }

  /** Entering a line is exactly a sorted-map update. */
  lemma UpsertIsMapUpdate(p: seq<Line>, l: Line)
    requires Sorted(p)
    ensures Sorted(Upsert(p, l))
    ensures AsMap(Upsert(p, l)) == AsMap(p)[l.num := l.text]
  {
    RemoveIsMapRemove(p, l.num);
    InsertKeepsSorted(Remove(p, l.num), l);
    InsertIsMapUpdate(Remove(p, l.num), l);
  }

  /** A sorted program is determined by its map, so the map fixes every stored byte. */
  lemma {:induction false} SortedProgramIsUnique(p: seq<Line>, q: seq<Line>)
    requires Sorted(p) && Sorted(q) && AsMap(p) == AsMap(q)
    ensures p == q
  {
    assert p != [] ==> p[0].num in AsMap(p);
    assert q != [] ==> q[0].num in AsMap(q);
    if p != [] && q != [] {
      HeadIsLeast(p, q[0].num);
      HeadIsLeast(q, p[0].num);
      assert p[0] == q[0];
      TailMap(p);
      TailMap(q);
      SortedProgramIsUnique(p[1..], q[1..]);
      assert p == [p[0]] + p[1..] && q == [q[0]] + q[1..];
    }
  }

  lemma HeadIsLeast(p: seq<Line>, n: nat)
    requires Sorted(p) && p != [] && n in AsMap(p)
    ensures p[0].num <= n
  {
    MapNumbers(p, n);
  }

  lemma TailMap(p: seq<Line>)
    requires Sorted(p) && p != []
    ensures AsMap(p[1..]) == AsMap(p) - {p[0].num}
  {
    HeadNotInTail(p, p[0].num);
  }

  predicate AllValid(p: seq<Line>) { forall i :: 0 <= i < |p| ==> ValidLine(p[i]) }

  lemma {:induction false} RemoveKeepsLines(p: seq<Line>, n: nat)
    requires AllValid(p)
    ensures AllValid(Remove(p, n))
  {
    if p != [] && p[0].num < n {
      RemoveKeepsLines(p[1..], n);
    }
  }

  lemma {:induction false} InsertKeepsLines(p: seq<Line>, l: Line)
    requires AllValid(p) && ValidLine(l)
    ensures AllValid(Insert(p, l))
  {
    if p != [] && p[0].num < l.num {
      InsertKeepsLines(p[1..], l);
    }
  }

  lemma UpsertKeepsValid(p: seq<Line>, l: Line)
    requires ValidProgram(p)
    ensures ValidProgram(Remove(p, l.num))
    ensures ValidLine(l) ==> ValidProgram(Upsert(p, l))
  {
    RemoveIsMapRemove(p, l.num);
    RemoveKeepsLines(p, l.num);
    if ValidLine(l) {
      UpsertIsMapUpdate(p, l);
      InsertKeepsLines(Remove(p, l.num), l);
    }
  }

  // --------------------------------------------------------- reading an entry

  /** The quote state after byte c, as `toUppercaseBuffer` tracks it (0: outside quotes). */
  function NextQuote(c: byte, quote: byte): byte {
    if c == quote then 0
    else if c == DQUOTE || c == SQUOTE then c
    else quote
  }

  function UpperByte(c: byte, quote: byte): byte {
    if c != quote && c != DQUOTE && c != SQUOTE && quote == 0 && IsLower(c) then c - 32 else c
  }

  /** s with its lower-case letters outside quotes raised, starting in the given quote state. */
  function Upper(s: seq<byte>, quote: byte): (r: seq<byte>)
    ensures |r| == |s|
  {
    if s == [] then [] else [UpperByte(s[0], quote)] + Upper(s[1..], NextQuote(s[0], quote))
  }

  /** The quote state on reaching byte k of s. */
  function QuoteAt(s: seq<byte>, quote: byte, k: nat): byte
    requires k <= |s|
  {
    if k == 0 then quote else NextQuote(s[k - 1], QuoteAt(s, quote, k - 1))
  }

  lemma {:induction false} QuoteAtTail(s: seq<byte>, quote: byte, k: nat)
    requires 0 < k <= |s|
    ensures QuoteAt(s, quote, k) == QuoteAt(s[1..], NextQuote(s[0], quote), k - 1)
  {
    if k > 1 {
      QuoteAtTail(s, quote, k - 1);
    }
  }

  lemma {:induction false} UpperAt(s: seq<byte>, quote: byte, k: nat)
    requires k < |s|
    ensures Upper(s, quote)[k] == UpperByte(s[k], QuoteAt(s, quote, k))
    ensures QuoteAt(s, quote, k + 1) == NextQuote(s[k], QuoteAt(s, quote, k))
  {
    if k > 0 {
      UpperAt(s[1..], NextQuote(s[0], quote), k - 1);
      QuoteAtTail(s, quote, k);
    }
  }

  lemma UpperNoNewline(s: seq<byte>)
    requires NoNewline(s)
    ensures NoNewline(Upper(s, 0))
  {
    forall k | 0 <= k < |s| ensures Upper(s, 0)[k] != NL {
      UpperAt(s, 0, k);
    }
  }

  lemma {:induction false} UpperIdempotent(s: seq<byte>, quote: byte)
    ensures Upper(Upper(s, quote), quote) == Upper(s, quote)
  {
    if s != [] {
      var u := Upper(s, quote);
      UpperIdempotent(s[1..], NextQuote(s[0], quote));
      assert NextQuote(u[0], quote) == NextQuote(s[0], quote);
      assert u[1..] == Upper(s[1..], NextQuote(s[0], quote));
    }
  }

  /** Bytes that neither change nor open a quote leave the rest of the line to be raised on its own. */
  lemma {:induction false} UpperAfterPrefix(a: seq<byte>, b: seq<byte>)
    requires Plain(a)
    ensures Upper(a + b, 0) == a + Upper(b, 0)
  {
    if a == [] {
      assert a + b == b;
    } else {
      UpperAfterPrefix(a[1..], b);
      assert (a + b)[1..] == a[1..] + b;
    }
  }

  /** `testnum` on s with num accumulated so far: the number and what is left to read. */
  function ScanNumber(s: seq<byte>, num: nat): (r: (nat, seq<byte>))
    ensures |r.1| <= |s|
    ensures num < 0x10000 ==> r.0 < 0x10000
    ensures r.0 != OVERFLOW && num <= MAX_LINENUM ==> r.0 <= MAX_LINENUM
    ensures num == 0 && r.0 != 0 ==> |r.1| < |s|
  {
    if s == [] || !IsDigit(s[0]) then (num, s)
    else if num >= 0xFFFF / 10 then (OVERFLOW, s)
    else ScanNumber(s[1..], num * 10 + s[0] - 48)
  }

  lemma {:induction false} ScanNumberShape(s: seq<byte>, num: nat)
    ensures var r := ScanNumber(s, num).1;
            s == s[..|s| - |r|] + r && Plain(s[..|s| - |r|])
  {
    if s != [] && IsDigit(s[0]) && num < 0xFFFF / 10 {
      ScanNumberShape(s[1..], num * 10 + s[0] - 48);
      var r := ScanNumber(s, num).1;
      assert s[..|s| - |r|] == [s[0]] + s[1..][..|s| - 1 - |r|];
    }
  }

  /** A typed line taken apart: its number (0 if none, 0xFFFF if too big) and its text. */
  function ParseEntry(s: seq<byte>): (r: Line)
    ensures |r.text| <= |s| && r.num < 0x10000
    ensures r.num != OVERFLOW ==> r.num <= MAX_LINENUM
  {
    var (n, rest) := ScanNumber(SkipBlanks(Upper(s, 0)), 0);
    Line(n, SkipBlanks(rest))
  }

  /** A raised line is digits and blanks, then the text; a digit is there when the number is not zero. */
  lemma ParseEntryShape(s: seq<byte>)
    ensures var r := ParseEntry(s);
            var u := Upper(s, 0);
            && u == u[..|s| - |r.text|] + r.text
            && Plain(u[..|s| - |r.text|])
            && (r.num != 0 ==> |r.text| < |s|)
  {
    var u := Upper(s, 0);
    var a := SkipBlanks(u);
    var rest := ScanNumber(a, 0).1;
    var text := SkipBlanks(rest);
    SkipBlanksShape(u);
    ScanNumberShape(a, 0);
    SkipBlanksShape(rest);
    ThreePieces(u, u[..|u| - |a|], a[..|a| - |rest|], rest[..|rest| - |text|], text);
  }

  lemma ThreePieces(u: seq<byte>, x: seq<byte>, y: seq<byte>, z: seq<byte>, t: seq<byte>)
    requires u == x + (y + (z + t)) && Plain(x) && Plain(y) && Plain(z)
    ensures u == u[..|u| - |t|] + t && Plain(u[..|u| - |t|])
  {
    assert u[..|u| - |t|] == x + y + z;
  }

  lemma ParsedTextIsRaised(s: seq<byte>)
    requires NoNewline(s)
    ensures NoNewline(ParseEntry(s).text) && Upper(ParseEntry(s).text, 0) == ParseEntry(s).text
  {
    ParseEntryShape(s);
    var u := Upper(s, 0);
    var text := ParseEntry(s).text;
    var pre := u[..|s| - |text|];
    UpperIdempotent(s, 0);
    UpperNoNewline(s);
    UpperAfterPrefix(pre, text);
    assert text == u[|pre|..];
    assert Upper(text, 0) == (pre + Upper(text, 0))[|pre|..];
  }

  // --------------------------------------------------- the effect of an entry

  datatype Outcome =
    | Direct      // no line number: the line is a command
    | BadNumber   // number too big
    | Deleted     // number alone: that line is removed
    | Stored      // the line is now in the program
    | Wrapped     // the one-byte length overflowed: the line is not in the program
    | Hangs       // the firmware loops forever

  /** Whether the measuring or the merging loop fails to make progress. A caller can
      check it beforehand: the text runs past 255 bytes, or the packed line would
      fill the memory below `limit` to the last byte. */
  predicate NeverReturns(p: seq<Line>, l: Line, limit: nat)
    requires Numbered(p)
  {
    || |l.text| > 255
    || (l.text != [] && LineSize(|l.text|) % 256 != 0
        && |Encode(Remove(p, l.num))| + LineSize(|l.text|) == limit)
  }

  function EntryOutcome(p: seq<Line>, l: Line, limit: nat): (o: Outcome)
    requires Numbered(p)
  {
    if l.num == 0 then Direct
    else if l.num == OVERFLOW then BadNumber
    else if NeverReturns(p, l, limit) then Hangs
    else if l.text == [] then Deleted
    else if |l.text| <= MAX_TEXT then Stored
    else Wrapped
  }

  /** The program once entry l has been dealt with (for the outcomes that keep a well-formed store). */
  function Entered(p: seq<Line>, l: Line): (r: seq<Line>) {
    if l.num == 0 || l.num == OVERFLOW then p
    else if l.text == [] then Remove(p, l.num)
    else Upsert(p, l)
  }
}
