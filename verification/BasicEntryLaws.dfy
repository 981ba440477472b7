/** What a typed line is read as, in terms of the bytes typed: which letters are raised, which number and text are
    found, and that capitals and small letters enter the same program. */
module BasicEntryLaws {
  import opened Ascii
  import opened Machine
  import opened BasicProgram
  import opened BasicListing

  // ------------------------------------------------------------------- raising

  predicate QuoteFree(s: seq<byte>) { 34 !in s && 39 !in s }

  /** A line without quotes, its letters a to z as capitals. */
  function Capitals(s: seq<byte>): (r: seq<byte>)
    ensures |r| == |s|
  {
    seq(|s|, k requires 0 <= k < |s| => if 97 <= s[k] <= 122 then s[k] - 32 else s[k])
  }

  /** Bytes that are no quote are raised as Capitals says, and do not matter to what follows them. */
  lemma {:induction false} RaisedOutsideQuotes(a: seq<byte>, b: seq<byte>)
    requires QuoteFree(a)
    ensures Upper(a + b, 0) == Capitals(a) + Upper(b, 0)
  {
    hide Capitals, QuoteFree, Upper;
    NoCapitals();
    if a == [] {
      assert a + b == b;
    } else {
      CapitalsStep(a);
      RaisedOutsideQuotes(a[1..], b);
      FirstStep(a[0], a[1..] + b);
      assert a + b == [a[0]] + (a[1..] + b);
    }
  }

  lemma NoCapitals()
    ensures Capitals([]) == []
  {
  }

  lemma CapitalsStep(a: seq<byte>)
    requires a != []
    ensures Capitals(a) == [if 97 <= a[0] <= 122 then a[0] - 32 else a[0]] + Capitals(a[1..])
    ensures QuoteFree(a) ==> a[0] !in {34, 39} && QuoteFree(a[1..])
  {
  }

  lemma FirstStep(c: byte, s: seq<byte>)
    requires c !in {34, 39}
    ensures Upper([c] + s, 0) == [if 97 <= c <= 122 then c - 32 else c] + Upper(s, 0)
  {
    assert ([c] + s)[1..] == s;
  }

  lemma RaisedAlone(a: seq<byte>)
    requires QuoteFree(a)
    ensures Upper(a, 0) == Capitals(a)
  {
    RaisedOutsideQuotes(a, []);
    assert a + [] == a;
  }

  lemma {:induction false} KeptInside(q: byte, t: seq<byte>, b: seq<byte>)
    requires q != 0 && QuoteFree(t) && q !in t
    ensures Upper(t + b, q) == t + Upper(b, q)
  {
    if t == [] {
      assert t + b == b;
    } else {
      KeptInside(q, t[1..], b);
      assert (t + b)[1..] == t[1..] + b;
    }
  }

  /** A quote up to the next quote is kept. The same quote there ends it; the other one (39 for 34, 34 for 39) does not
      belong to it but opens a quote of its own. */
  lemma RaisedAroundQuoted(a: seq<byte>, q: byte, t: seq<byte>, b: seq<byte>)
    requires QuoteFree(a) && QuoteFree(t) && q in {34, 39}
    ensures Upper(a + [q] + t, 0) == Capitals(a) + [q] + t
    ensures Upper(a + [q] + t + [q] + b, 0) == Capitals(a) + [q] + t + [q] + Upper(b, 0)
    ensures Upper(a + [q] + t + [73 - q] + b, 0) == Capitals(a) + [q] + t + Upper([73 - q] + b, 0)
  {
    hide Capitals, QuoteFree;
    Opened(q, t, []);
    assert Upper([], q) == [];
    RaisedOutsideQuotes(a, [q] + (t + []));
    assert a + ([q] + (t + [])) == a + [q] + t;
    forall x: byte | x in {q, 73 - q}
      ensures Upper(a + [q] + t + [x] + b, 0) == Capitals(a) + [q] + t + Upper([x] + b, q)
    {
      QuotedUpTo(a, q, t, x, b);
    }
    assert ([q] + b)[1..] == b && ([73 - q] + b)[1..] == b;
  }

  lemma QuotedUpTo(a: seq<byte>, q: byte, t: seq<byte>, x: byte, b: seq<byte>)
    requires QuoteFree(a) && QuoteFree(t) && q in {34, 39}
    ensures Upper(a + [q] + t + [x] + b, 0) == Capitals(a) + [q] + t + Upper([x] + b, q)
  {
    hide Upper, Capitals, QuoteFree;
    Opened(q, t, [x] + b);
    RaisedOutsideQuotes(a, [q] + (t + ([x] + b)));
    assert a + ([q] + (t + ([x] + b))) == a + [q] + t + [x] + b;
  }

  lemma Opened(q: byte, t: seq<byte>, b: seq<byte>)
    requires QuoteFree(t) && q in {34, 39}
    ensures Upper([q] + (t + b), 0) == [q] + t + Upper(b, q)
  {
    KeptInside(q, t, b);
    assert ([q] + (t + b))[1..] == t + b;
  }

  /** A literal in quotes is kept and what follows it is raised on its own. */
  predicate Closes(q: byte, t: seq<byte>, b: seq<byte>) {
    Upper([q] + t + [q] + b, 0) == [q] + t + [q] + Upper(b, 0)
  }

  /** Once the other quote has been met inside it, the closing quote opens a literal instead of ending one. */
  lemma {:induction false} LeftOpen(state: byte, q: byte, t: seq<byte>)
    requires q in {34, 39} && q !in t
    requires state in {0, 73 - q} || (state == q && 73 - q in t)
    ensures Upper(t + [q, 97], state)[|t| + 1] == 97
    decreases |t|
  {
    if t == [] {
      assert [] + [q, 97] == [q, 97] && [q, 97][1..] == [97];
      assert Upper([97], q) == [97];
    } else {
      LeftOpen(NextQuote(t[0], state), q, t[1..]);
      assert (t + [q, 97])[1..] == t[1..] + [q, 97];
    }
  }

  /** What follows a literal is raised on its own, whatever it is, if and only if the literal holds no quote of the
      other kind. */
  lemma QuotedClosesIff(q: byte, t: seq<byte>)
    requires q in {34, 39} && q !in t
    ensures (forall b :: Closes(q, t, b)) <==> 73 - q !in t
  {
    if 73 - q !in t {
      forall b ensures Closes(q, t, b) {
        RaisedAroundQuoted([], q, t, b);
        assert [] + [q] + t + [q] + b == [q] + t + [q] + b;
      }
    } else {
      LeftOpen(q, q, t);
      var s := [q] + t + [q] + [97];
      assert s[1..] == t + [q, 97];
      assert Upper(s, 0)[|t| + 2] == 97;
      assert Upper([97], 0) == [65];
      assert !Closes(q, t, [97]);
    }
  }

  /** The line "a'b'c"d, where c is raised inside its quotes and d behind them is not. */
  lemma OtherQuoteIsMisread()
    ensures Upper([34, 97, 39, 98, 39, 99, 34, 100], 0) == [34, 97, 39, 98, 39, 67, 34, 100]
  {
    hide Upper, Capitals;
    NoCapitals();
    CapitalsStep([99]);
    RaisedAroundQuoted([], 34, [97], [98, 39, 99, 34, 100]);
    assert [] + [34] + [97] + [39] + [98, 39, 99, 34, 100] == [34, 97, 39, 98, 39, 99, 34, 100];
    RaisedAroundQuoted([], 39, [98], [99, 34, 100]);
    assert [] + [39] + [98] + [39] + [99, 34, 100] == [39] + [98, 39, 99, 34, 100];
    RaisedAroundQuoted([99], 34, [100], []);
    assert [99] + [34] + [100] == [99, 34, 100];
  }

  // ------------------------------------------------------------- number and text

  predicate DigitBytes(d: seq<byte>) { forall i :: 0 <= i < |d| ==> 48 <= d[i] <= 57 }

  predicate BlankBytes(g: seq<byte>) { forall i :: 0 <= i < |g| ==> g[i] in {9, 32} }

  /** The number that decimal digits stand for. */
  function Decimal(d: seq<byte>): (n: nat)
    requires DigitBytes(d)
  {
    if d == [] then 0 else 10 * Decimal(d[..|d| - 1]) + d[|d| - 1] - 48
  }

  /** What may stand behind a line number: nothing, or text that starts with neither a blank nor, when the number
      touches it, a digit. */
  predicate Separate(gap: seq<byte>, text: seq<byte>) {
    text != [] ==> text[0] !in {9, 32} && (gap == [] ==> !(48 <= text[0] <= 57))
  }

  lemma {:induction false} SkipsBlanks(g: seq<byte>, t: seq<byte>)
    requires BlankBytes(g) && (t != [] ==> t[0] !in {9, 32})
    ensures SkipBlanks(g + t) == t
  {
    if g == [] {
      assert g + t == t;
    } else {
      SkipsBlanks(g[1..], t);
      assert (g + t)[1..] == g[1..] + t;
    }
  }

  lemma {:induction false} DecimalGrows(d: seq<byte>, k: nat)
    requires DigitBytes(d) && k <= |d|
    ensures Decimal(d[..k]) <= Decimal(d)
    decreases |d|
  {
    if k < |d| {
      var e := d[..|d| - 1];
      DecimalGrows(e, k);
      assert e[..k] == d[..k];
    } else {
      assert d[..k] == d;
      if d != [] {
        DecimalGrows(d[..|d| - 1], |d| - 1);
      }
    }
  }

  /** Having read k digits without overflow, `testnum` reads the rest of them or gives up. */
  lemma {:induction false} ReadsDigits(d: seq<byte>, k: nat, t: seq<byte>)
    requires DigitBytes(d) && k <= |d| && Decimal(d[..k]) <= 65529
    requires t != [] ==> !(48 <= t[0] <= 57)
    ensures var r := ScanNumber(d[k..] + t, Decimal(d[..k]));
            if Decimal(d) <= 65529 then r == (Decimal(d), t) else r.0 == 65535
    decreases |d| - k
  {
    var rest := d[k..] + t;
    DecimalGrows(d, k);
    if k == |d| {
      assert d[..k] == d && rest == t;
    } else {
      var n, n' := Decimal(d[..k]), Decimal(d[..k + 1]);
      assert d[..k + 1][..k] == d[..k];
      assert rest[0] == d[k] && rest[1..] == d[k + 1..] + t;
      DecimalGrows(d, k + 1);
      if n < 6553 {
        ReadsDigits(d, k + 1, t);
      }
    }
  }

  lemma FrontIsKept(f: seq<byte>)
    requires forall i :: 0 <= i < |f| ==> 48 <= f[i] <= 57 || f[i] in {9, 32}
    ensures QuoteFree(f) && Capitals(f) == f
  {
  }

  lemma FirstRaised(t: seq<byte>)
    requires t != []
    ensures Upper(t, 0)[0] == if 97 <= t[0] <= 122 then t[0] - 32 else t[0]
  {
  }

  /** Blanks, digits, blanks and text are read as that number and the raised text, up to 65529; a larger number is
      refused. */
  lemma EntryIsRead(g: seq<byte>, d: seq<byte>, h: seq<byte>, t: seq<byte>, p: seq<Line>, limit: nat)
    requires BlankBytes(g) && BlankBytes(h) && d != [] && DigitBytes(d) && Separate(h, t) && Numbered(p)
    ensures Decimal(d) <= 65529 ==> ParseEntry(g + d + h + t) == Line(Decimal(d), Upper(t, 0))
    ensures Decimal(d) > 65529 ==> EntryOutcome(p, ParseEntry(g + d + h + t), limit) == BadNumber
  {
    hide Capitals, Upper, SkipBlanks, ScanNumber, Decimal, QuoteFree, NeverReturns;
    var front, u := g + d + h, Upper(t, 0);
    FrontIsKept(front);
    RaisedOutsideQuotes(front, t);
    if t != [] {
      FirstRaised(t);
    }
    assert front + u == g + (d + (h + u));
    SkipsBlanks(g, d + (h + u));
    var n := Decimal(d[..0]);
    assert n == 0 by { None(d); }
    ReadsDigits(d, 0, h + u);
    assert d[0..] + (h + u) == d + (h + u);
    SkipsBlanks(h, u);
  }

  lemma None(d: seq<byte>)
    requires DigitBytes(d)
    ensures Decimal(d[..0]) == 0
  {
  }

  // ----------------------------------------------------- small letters and capitals

  /** A line without quotes is read the same in small letters as in capitals, so it enters the same program. */
  lemma SmallLettersEnterTheSame(s: seq<byte>, p: seq<Line>, top: nat)
    requires QuoteFree(s) && Numbered(p)
    ensures ParseEntry(s) == ParseEntry(Capitals(s)) && TypeLine(p, s, top) == TypeLine(p, Capitals(s), top)
  {
    hide QuoteFree, Upper, Capitals, ScanNumber, SkipBlanks;
    SameReading(s);
    if |Encode(p)| + 4 <= top {
      var room := top - 4 - |Encode(p)|;
      if room < |s| {
        CutCapitals(s, room);
        SameReading(s[..room]);
      }
    }
  }

  lemma CutCapitals(s: seq<byte>, n: nat)
    requires QuoteFree(s) && n <= |s|
    ensures QuoteFree(s[..n]) && Capitals(s)[..n] == Capitals(s[..n])
  {
  }

  lemma SameReading(s: seq<byte>)
    requires QuoteFree(s)
    ensures ParseEntry(s) == ParseEntry(Capitals(s))
  {
    assert QuoteFree(Capitals(s)) && Capitals(Capitals(s)) == Capitals(s);
    RaisedAlone(s);
    RaisedAlone(Capitals(s));
  }

  /** The line 10 print 1 is read as line 10 with the text PRINT 1. */
  lemma PrintIsRaised()
    ensures ParseEntry([49, 48, 32, 112, 114, 105, 110, 116, 32, 49]) == Line(10, [80, 82, 73, 78, 84, 32, 49])
  {
    hide Upper, ParseEntry, Decimal;
    var t := [112, 114, 105, 110, 116, 32, 49];
    EntryIsRead([], [49, 48], [32], t, [], 0);
    assert [] + [49, 48] + [32] + t == [49, 48, 32, 112, 114, 105, 110, 116, 32, 49];
    Ten();
    RaisedAlone(t);
  }

  lemma Ten()
    ensures Decimal([49, 48]) == 10
  {
    assert [49, 48][..1] == [49] && [49][..0] == [];
    assert Decimal([49]) == 1;
  }
}
