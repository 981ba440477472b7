/** Typed lines that meet each way an entry goes wrong: from an empty store every one of them is reachable. */
module BasicEntryCases {
  import opened Ascii
  import opened Machine
  import opened BasicProgram
  import opened BasicStore
  import opened BasicListing

  /** An empty store in whose input buffer s has been typed. */
  ghost predicate EmptyWith(st: Store, s: seq<byte>)
    reads st, st.mem
  {
    && st.Valid() && st.programEnd == 0 && 2 + |s| + 2 <= st.variablesBegin
    && st.mem[2..2 + |s|] == s && st.mem[2 + |s|] == NL && NoNewline(s)
  }

  lemma EmptyIsTyped(st: Store, s: seq<byte>)
    requires EmptyWith(st, s)
    ensures st.prog == [] && st.Typed(2 + |s|)
  {
    forall i | 2 <= i < 2 + |s| ensures st.mem[i] != NL {
      assert st.mem[i] == st.mem[2..2 + |s|][i - 2];
    }
  }

  /** A number directly followed by raised text reads back as both. */
  lemma NumberedEntry(n: nat, t: seq<byte>)
    requires 0 < n <= MAX_LINENUM && t != [] && !IsBlank(t[0]) && !IsDigit(t[0]) && Upper(t, 0) == t
    ensures ParseEntry(Digits(n) + t) == Line(n, t)
  {
    hide Upper, Digits, ScanNumber;
    var d := Digits(n);
    UpperAfterPrefix(d, t);
    PrintedNumber(n, t);
    assert IsDigit(d[0]) && SkipBlanks(d + t) == d + t;
  }

  /** 1A into an empty store with six bytes below the variables: the packed line would fill them to the last, and
      the insert loop never ends. With two bytes more it is stored. */
  lemma FullMemoryHangs(st: Store)
    requires EmptyWith(st, [49, 65]) && st.variablesBegin == 6
    ensures st.Typed(4) && st.prog == [] && ParseEntry(st.mem[2..4]) == Line(1, [65])
    ensures EntryOutcome([], Line(1, [65]), 6) == Hangs && EntryOutcome([], Line(1, [65]), 8) == Stored
  {
    EmptyIsTyped(st, [49, 65]);
    assert Upper([65], 0) == [65];
    assert Digits(1) == [49];
    NumberedEntry(1, [65]);
    assert Remove([], 1) == [];
  }

  function Letters(n: nat): (t: seq<byte>)
    ensures |t| == n && forall i :: 0 <= i < n ==> t[i] == 65
  {
    seq(n, _ => 65)
  }

  lemma {:induction false} LettersAreRaised(t: seq<byte>)
    requires forall i :: 0 <= i < |t| ==> t[i] == 65
    ensures Upper(t, 0) == t && NoNewline(t)
  {
    if t != [] {
      LettersAreRaised(t[1..]);
    }
  }

  lemma LettersEntry(n: nat)
    requires n > 0
    ensures ParseEntry([49] + Letters(n)) == Line(1, Letters(n))
  {
    hide Upper, ParseEntry;
    LettersAreRaised(Letters(n));
    assert Digits(1) == [49];
    NumberedEntry(1, Letters(n));
  }

  lemma LongOutcomes(limit: nat)
    ensures EntryOutcome([], Line(1, Letters(251)), limit) == Wrapped
    ensures EntryOutcome([], Line(1, Letters(256)), limit) == Hangs
  {
    hide Letters, Encode;
    assert LineSize(251) == 256;
  }

  /** 1 followed by 251 letters: the length byte wraps to zero and the line is lost, however much memory there is. */
  lemma LongLineWraps(st: Store)
    requires EmptyWith(st, [49] + Letters(251))
    ensures st.Typed(254) && st.prog == [] && ParseEntry(st.mem[2..254]) == Line(1, Letters(251))
    ensures EntryOutcome([], Line(1, Letters(251)), st.variablesBegin) == Wrapped
  {
    hide Letters, ParseEntry, EntryOutcome;
    EmptyIsTyped(st, [49] + Letters(251));
    LettersEntry(251);
    LongOutcomes(st.variablesBegin);
  }

  /** 1 followed by 256 letters: the measuring loop never ends. */
  lemma LongerLineHangs(st: Store)
    requires EmptyWith(st, [49] + Letters(256))
    ensures st.Typed(259) && st.prog == [] && ParseEntry(st.mem[2..259]) == Line(1, Letters(256))
    ensures EntryOutcome([], Line(1, Letters(256)), st.variablesBegin) == Hangs
  {
    hide Letters, ParseEntry, EntryOutcome;
    EmptyIsTyped(st, [49] + Letters(256));
    LettersEntry(256);
    LongOutcomes(st.variablesBegin);
  }

  /** 10AB into an empty store of eight bytes is stored, but LIST prints it as 10 AB, which no longer fits the input
      buffer of an empty store of that size. */
  lemma ListedLineMisfits(st: Store)
    requires EmptyWith(st, [49, 48, 65, 66]) && st.variablesBegin == 8
    ensures st.Typed(6) && st.prog == [] && ParseEntry(st.mem[2..6]) == Line(10, [65, 66])
    ensures EntryOutcome([], Line(10, [65, 66]), 8) == Stored && Entered([], Line(10, [65, 66])) == [Line(10, [65, 66])]
    ensures Numbered([Line(10, [65, 66])]) && !Fits([Line(10, [65, 66])], 0, 8)
    ensures TypeListing([Line(10, [65, 66])], 1, 8) != Running([Line(10, [65, 66])])
  {
    hide ParseEntry, EntryOutcome, TypeListing, Fits, Digits, Entered;
    EmptyIsTyped(st, [49, 48, 65, 66]);
    TenEntry();
    TenOutcome();
    RelistRebuilds([Line(10, [65, 66])], 8);
  }

  lemma TenEntry()
    ensures ParseEntry([49, 48, 65, 66]) == Line(10, [65, 66]) && ValidProgram([Line(10, [65, 66])])
    ensures Digits(10) == [49, 48]
  {
    LettersRaised2();
    assert Digits(1) == [49];
    assert Digits(10) == [49, 48];
    hide Upper, ParseEntry;
    NumberedEntry(10, [65, 66]);
    assert [49, 48, 65, 66] == Digits(10) + [65, 66];
  }

  lemma TenOutcome()
    ensures EntryOutcome([], Line(10, [65, 66]), 8) == Stored && Entered([], Line(10, [65, 66])) == [Line(10, [65, 66])]
    ensures var p := [Line(10, [65, 66])]; Numbered(p) && !Fits(p, 0, 8)
  {
    TenEntry();
    var p := [Line(10, [65, 66])];
    assert Remove([], 10) == [] && |ListLine(p[0])| == 5;
    assert p[..0] == [];
  }

  lemma LettersRaised2()
    ensures Upper([65, 66], 0) == [65, 66]
  {
    assert [65, 66][1..] == [66] && [66][1..] == [];
  }

  // -------------------------------------------------------- a store of full size

  /** variables_begin on the board: 64 KB less five FOR frames of 14 bytes and 27 two-byte variables. */
  const BOARD_TOP := 0x1_0000 - 5 * 14 - 27 * 2

  /** Line 99 with n letters, and k lines of 250 letters numbered from 100 on. */
  function Filled(n: nat, k: nat): (p: seq<Line>)
    ensures |p| == k + 1
  {
    [Line(99, Letters(n))] + seq(k, i requires 0 <= i < k => Line(100 + i, Letters(250)))
  }

  /** Typing those lines, in order, into an empty store. */
  function TypeFilled(n: nat, k: nat, top: nat): (r: Session)
    ensures r.Running? ==> Numbered(r.prog)
  {
    if k == 0 then TypeLine([], Digits(99) + Letters(n), top)
    else
      var st := TypeFilled(n, k - 1, top);
      if st.Broken? then Broken else TypeLine(st.prog, Digits(99 + k) + Letters(250), top)
  }

  lemma FilledMore(n: nat, k: nat)
    ensures Filled(n, k + 1) == Filled(n, k) + [Line(100 + k, Letters(250))]
    ensures k <= 900 ==> Numbered(Filled(n, k)) && AllBelow(Filled(n, k), 100 + k)
  {
    hide Letters;
  }

  lemma {:induction false} FilledSize(n: nat, k: nat)
    requires k <= 900
    ensures Numbered(Filled(n, k)) && |Encode(Filled(n, k))| == LineSize(n) + 254 * k
  {
    hide Encode, EncodeLine, Letters, Filled;
    if k == 0 {
      FilledNone(n);
      EncodeSingle(Line(99, Letters(n)));
    } else {
      FilledMore(n, k - 1);
      FilledMore(n, k);
      FilledSize(n, k - 1);
      EncodeConcat(Filled(n, k - 1), [Line(99 + k, Letters(250))]);
      EncodeSingle(Line(99 + k, Letters(250)));
    }
  }

  lemma FilledNone(n: nat)
    ensures Filled(n, 0) == [Line(99, Letters(n))] && Numbered(Filled(n, 0))
  {
  }

  /** A numbered line of letters typed at the end of a program that leaves room for it. */
  lemma TypedAtEnd(p: seq<Line>, num: nat, n: nat, top: nat)
    requires 0 < num <= MAX_LINENUM && 0 < n <= MAX_TEXT && Numbered(p) && AllBelow(p, num)
    requires |Encode(p)| + |Digits(num)| + n + 4 <= top && |Encode(p)| + LineSize(n) != top
    ensures TypeLine(p, Digits(num) + Letters(n), top) == Running(p + [Line(num, Letters(n))])
  {
    hide Encode, Letters, Digits, LineSize;
    var l := Line(num, Letters(n));
    LettersAreRaised(Letters(n));
    hide Upper, ParseEntry;
    NumberedEntry(num, Letters(n));
    AppendLast(p, l);
  }

  lemma DigitsOf(num: nat)
    ensures num < 10 ==> Digits(num) == [48 + num]
    ensures 10 <= num < 100 ==> |Digits(num)| == 2
    ensures 100 <= num < 1000 ==> |Digits(num)| == 3
  {
    if num >= 10 {
      assert |Digits(num)| == |Digits(num / 10)| + 1;
    }
  }

  lemma {:induction false} FilledIsTyped(n: nat, k: nat, top: nat)
    requires 0 < n <= MAX_TEXT && k <= 900 && LineSize(n) + 254 * k + 4 <= top && n + 6 <= top
    ensures TypeFilled(n, k, top) == Running(Filled(n, k))
  {
    hide Encode, Letters, Filled, TypeLine, Digits, LineSize;
    SizeOfLine(n);
    if k == 0 {
      FilledNone(n);
      EncodeNothing();
      DigitsOf(99);
      assert [] + [Line(99, Letters(n))] == [Line(99, Letters(n))];
      TypedAtEnd([], 99, n, top);
    } else {
      FilledIsTyped(n, k - 1, top);
      FilledMore(n, k - 1);
      FilledSize(n, k - 1);
      DigitsOf(99 + k);
      SizeOfLine(250);
      TypedAtEnd(Filled(n, k - 1), 99 + k, 250, top);
    }
  }

  lemma SizeOfLine(n: nat)
    ensures n + 4 <= LineSize(n) && LineSize(250) == 254
  {
  }

  lemma EncodeNothing()
    ensures Encode([]) == []
  {
  }

  /** The board's store, filled by typing up to six bytes: then 1A hangs. */
  lemma BoardHangs(st: Store)
    requires st.Valid() && st.variablesBegin == BOARD_TOP && st.prog == Filled(124, 257)
    requires st.programEnd + 4 < st.mem.Length && st.mem[st.programEnd + 2..st.programEnd + 4] == [49, 65]
    requires st.mem[st.programEnd + 4] == NL
    ensures TypeFilled(124, 257, BOARD_TOP) == Running(st.prog)
    ensures st.Typed(st.programEnd + 4) && ParseEntry([49, 65]) == Line(1, [65])
    ensures EntryOutcome(st.prog, Line(1, [65]), BOARD_TOP) == Hangs
  {
    hide Filled, ParseEntry, Encode, TypeFilled, LineSize, ValidProgram;
    SizesOnBoard();
    FilledIsTyped(124, 257, BOARD_TOP);
    FilledSize(124, 257);
    assert |st.mem[..st.programEnd]| == st.programEnd;
    LettersEntry(1);
    OneLetter();
    assert [49] + [65] == [49, 65];
    NoLineOne(124, 257);
    assert st.mem[st.programEnd + 2] == [49, 65][0] && st.mem[st.programEnd + 3] == [49, 65][1];
  }

  lemma SizesOnBoard()
    ensures LineSize(124) == 128 && LineSize(122) == 126 && LineSize(1) == 6 && LineSize(2) == 6 && LineSize(250) == 254
  {
  }

  lemma OneLetter()
    ensures Letters(1) == [65] && Letters(2) == [65, 65]
  {
  }

  lemma NoLineOne(n: nat, k: nat)
    ensures Remove(Filled(n, k), 1) == Filled(n, k)
  {
    assert Filled(n, k)[0].num == 99;
  }

  /** The board's store, filled by typing to two bytes, of which a listing can no longer be typed back: the last line
      that LIST prints is cut short. */
  lemma BoardMisfits()
    ensures TypeFilled(122, 257, BOARD_TOP) == Running(Filled(122, 257)) && Numbered(Filled(122, 257))
    ensures var p := [Line(1, [65, 65])] + Filled(122, 257);
            && TypeLine(Filled(122, 257), [49, 65, 65], BOARD_TOP) == Running(p)
            && Numbered(p) && !Fits(p, 258, BOARD_TOP)
  {
    hide Filled, ParseEntry, Encode, EncodeLine, TypeFilled, LineSize, Letters, ListLine;
    var q := Filled(122, 257);
    var p := [Line(1, [65, 65])] + q;
    SizesOnBoard();
    FilledIsTyped(122, 257, BOARD_TOP);
    FilledSize(122, 257);
    LettersEntry(2);
    OneLetter();
    assert [49] + [65, 65] == [49, 65, 65];
    FrontLine(122, 257);
    FilledMore(122, 256);
    FilledSize(122, 256);
    assert p[..258] == [Line(1, [65, 65])] + Filled(122, 256);
    EncodeConcat([Line(1, [65, 65])], Filled(122, 256));
    EncodeSingle(Line(1, [65, 65]));
    ListedSize(356, 250);
    assert p[258] == Line(356, Letters(250));
  }

  /** So the board cannot rebuild that program from its own listing. */
  lemma BoardListingFails()
    ensures var p := [Line(1, [65, 65])] + Filled(122, 257);
            TypeListing(p, |p|, BOARD_TOP) != Running(p)
  {
    hide Filled, Fits, TypeListing;
    BoardMisfits();
    FilledValid(122, 257);
    RelistRebuilds([Line(1, [65, 65])] + Filled(122, 257), BOARD_TOP);
  }

  lemma FilledValid(n: nat, k: nat)
    requires 0 < n <= MAX_TEXT && k <= 900
    ensures ValidProgram([Line(1, [65, 65])] + Filled(n, k))
  {
    hide Upper, NoNewline;
    LettersAreRaised(Letters(n));
    LettersAreRaised(Letters(250));
    LettersAreRaised([65, 65]);
  }

  lemma FrontLine(n: nat, k: nat)
    ensures Remove(Filled(n, k), 1) == Filled(n, k)
    ensures Insert(Filled(n, k), Line(1, [65, 65])) == [Line(1, [65, 65])] + Filled(n, k)
  {
    assert Filled(n, k)[0].num == 99;
  }

  lemma ListedSize(num: nat, n: nat)
    requires 100 <= num < 1000
    ensures |ListLine(Line(num, Letters(n)))| == n + 4
  {
    DigitsOf(num);
  }
}
