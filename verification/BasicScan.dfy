/** What `scantable` recognises: the first word of the table that the text starts with. */
module BasicScan {
  import opened Ascii
  import opened Machine
  import opened BasicEval

  predicate Here(line: seq<byte>, p: nat, w: seq<byte>) { p + |w| <= |line| && line[p..p + |w|] == w }

  /** Neither w nor its table form, whose last byte has 128 added, is written at p. */
  predicate Absent(line: seq<byte>, p: nat, w: seq<byte>)
    requires Word(w)
  {
    !Here(line, p, w) && !Here(line, p, Marked(w))
  }

  /** No word before the first match, from word k on, is written at p in its table form. */
  predicate Unmarked(line: seq<byte>, p: nat, ws: seq<seq<byte>>, k: nat)
    requires Words(ws) && k <= |ws|
  {
    forall i :: k <= i < FirstMatch(line, p, ws, k) ==> !Here(line, p, Marked(ws[i]))
  }

  /** The index of the first word, from word k on, that the text at p starts with; |ws| if there is none. */
  function FirstMatch(line: seq<byte>, p: nat, ws: seq<seq<byte>>, k: nat): (r: nat)
    requires k <= |ws|
    ensures k <= r <= |ws|
    ensures r < |ws| ==> Here(line, p, ws[r])
    ensures forall i :: k <= i < r ==> !Here(line, p, ws[i])
    decreases |ws| - k
  {
    if k == |ws| || Here(line, p, ws[k]) then k else FirstMatch(line, p, ws, k + 1)
  }

  /** Where the cursor is after w, found at p, and the blanks behind it. */
  function After(line: seq<byte>, p: nat, w: seq<byte>): nat
    requires Here(line, p, w) && Word(w) && |line| > 0 && line[|line| - 1] == NL
  {
    assert line[p..p + |w|][|w| - 1] != NL;
    Blanks(line, p + |w|)
  }

  /** The outcome of picking from word k on at q: the first matching word and the blanks after it. */
  function PickFrom(line: seq<byte>, q: nat, ws: seq<seq<byte>>, k: nat): Scanned
    requires Words(ws) && k <= |ws| && |line| > 0 && line[|line| - 1] == NL
  {
    var j := FirstMatch(line, q, ws, k);
    if j < |ws| then Scanned(After(line, q, ws[j]), j) else Scanned(q, j)
  }

  /** `scantable` takes the first matching word and the blanks after it. Blanks before the word are
      skipped only once the first word has failed, so the first word of a table is never found behind
      blanks. The text must not hold a word that is passed over in its table form. */
  lemma ScanPicksFirst(line: seq<byte>, ws: seq<seq<byte>>, p: nat)
    requires p < |line| && line[|line| - 1] == NL && Words(ws) && ws != []
    requires Here(line, p, ws[0]) || (Absent(line, p, ws[0]) && Unmarked(line, Blanks(line, p), ws, 1))
    ensures Scan(line, Pack(ws), p, 0, 0) ==
            if Here(line, p, ws[0]) then Scanned(After(line, p, ws[0]), 0)
            else PickFrom(line, Blanks(line, p), ws, 1)
  {
    hide Scan, Pack, Blanks, Word;
    ScanHead(line, ws, 0, p);
    assert ws[0..] == ws;
    if !Here(line, p, ws[0]) {
      ScanFrom(line, ws, 1, Blanks(line, p));
    }
  }

  /** The table form of a word does fool `scantable`: "<" before a byte 190 (">" with 128 added) is taken
      for "<=", because the walk through the table loses count of its words. */
  lemma MarkedWordIsMisread()
    ensures Words(RELOPS) && Scan([60, 190, 61, NL], Pack(RELOPS), 0, 0, 0) == Scanned(1, RELOP_LE)
  {
    PackedRelops();
    MisreadFrom0([60, 190, 61, NL]);
  }

  const FROM_LT: seq<byte> := [188, 33, 189, 0]
  const FROM_LE: seq<byte> := [60, 189] + FROM_LT
  const FROM_EQ: seq<byte> := [189] + FROM_LE
  const FROM_NE: seq<byte> := [60, 190, 190] + FROM_EQ
  const FROM_GE: seq<byte> := [62, 189] + FROM_NE

  lemma MisreadFrom0(line: seq<byte>)
    requires line == [60, 190, 61, NL]
    ensures Table(FROM_GE) && Scan(line, FROM_GE, 0, 0, 0) == Scanned(1, RELOP_LE)
  {
    hide Scan, NextWord;
    MisreadFrom2(line);
    ScanSkips(line, [62], 189, FROM_NE, 0, 0, 0);
    ScanMatches(line, 60, [190, 190] + FROM_EQ, 0, 0, 1);
    ScanMatches(line, 190, [190] + FROM_EQ, 0, 1, 1);
    ScanSkips(line, [], 190, FROM_EQ, 0, 2, 1);
    assert [60] + ([190, 190] + FROM_EQ) == FROM_NE && [190] + ([190] + FROM_EQ) == [190, 190] + FROM_EQ;
    assert [62] + [189] + FROM_NE == FROM_GE && [] + [190] + FROM_EQ == [190] + FROM_EQ;
  }

  lemma MisreadFrom2(line: seq<byte>)
    requires line == [60, 190, 61, NL]
    ensures Table(FROM_EQ) && Scan(line, FROM_EQ, 0, 0, 2) == Scanned(1, RELOP_LE)
  {
    hide NextWord;
    assert Scan(line, FROM_LT, 0, 0, 4) == Scanned(1, 4);
    hide Scan;
    ScanSkips(line, [], 189, FROM_LE, 0, 0, 2);
    ScanMatches(line, 60, [189] + FROM_LT, 0, 0, 3);
    ScanSkips(line, [], 189, FROM_LT, 0, 1, 3);
    assert [] + [189] + FROM_LE == FROM_EQ && [60] + ([189] + FROM_LT) == FROM_LE;
    assert [] + [189] + FROM_LT == [189] + FROM_LT;
  }

  lemma ScanMatches(line: seq<byte>, b: byte, t: seq<byte>, p: nat, i: nat, index: nat)
    requires Table([b] + t) && b > 0 && Table(t) && p + i + 1 < |line| && line[|line| - 1] == NL && line[p + i] == b
    ensures Scan(line, [b] + t, p, i, index) == Scan(line, t, p, i + 1, index)
  {
    assert ([b] + t)[1..] == t;
  }

  /** A word whose next byte does not match is passed over. */
  lemma ScanSkips(line: seq<byte>, m: seq<byte>, last: byte, t: seq<byte>, p: nat, i: nat, index: nat)
    requires |m| <= 1 && last >= 128 && (m != [] ==> 0 < m[0] < 128)
    requires Table(m + [last] + t) && Table(t) && p + i < |line| && line[|line| - 1] == NL && !IsBlank(line[p])
    requires var b := if m == [] then last else m[0]; line[p + i] != b && line[p + i] as int + 0x80 != b as int
    ensures Scan(line, m + [last] + t, p, i, index) == Scan(line, t, p, 0, index + 1)
  {
    var u := m + [last] + t;
    if m == [] {
      assert u[1..] == t;
    } else {
      assert u[1..] == [last] + t && u[1..][1..] == t;
      assert Table([last] + t);
      assert NextWord(u) == NextWord([last] + t) == t;
    }
  }

  lemma PackedRelops()
    ensures Words(RELOPS) && Pack(RELOPS) == FROM_GE
  {
    hide Pack;
    PackNone();
    PackTwo(33, 61, [], [0]);
    assert [[33, 61]] + [] == [[33, 61]];
    PackOne(60, [[33, 61]], [33, 189] + [0]);
    assert [188] + ([33, 189] + [0]) == FROM_LT;
    PackTwo(60, 61, [[60]] + [[33, 61]], FROM_LT);
    PackOne(61, [[60, 61]] + ([[60]] + [[33, 61]]), FROM_LE);
    PackOne(62, [[61]] + ([[60, 61]] + ([[60]] + [[33, 61]])), FROM_EQ);
    PackTwo(60, 62, [[62]] + ([[61]] + ([[60, 61]] + ([[60]] + [[33, 61]]))), [190] + FROM_EQ);
    PackTwo(62, 61, [[60, 62]] + ([[62]] + ([[61]] + ([[60, 61]] + ([[60]] + [[33, 61]])))),
            [60, 190] + ([190] + FROM_EQ));
    assert [60, 190] + ([190] + FROM_EQ) == FROM_NE;
    assert RELOPS == [[62, 61]] + ([[60, 62]] + ([[62]] + ([[61]] + ([[60, 61]] + ([[60]] + [[33, 61]])))));
  }

  lemma PackNone()
    ensures Pack([]) == [0]
  {
  }

  lemma PackOne(a: byte, ws: seq<seq<byte>>, t: seq<byte>)
    requires 32 < a < 128 && Words(ws) && Pack(ws) == t
    ensures Words([[a]] + ws) && Pack([[a]] + ws) == [a + 128] + t
  {
    assert Marked([a]) == [a + 128];
  }

  lemma PackTwo(a: byte, b: byte, ws: seq<seq<byte>>, t: seq<byte>)
    requires 32 < a < 128 && 32 < b < 128 && Words(ws) && Pack(ws) == t
    ensures Words([[a, b]] + ws) && Pack([[a, b]] + ws) == [a, b + 128] + t
  {
    assert Marked([a, b]) == [a, b + 128];
  }

  lemma ScanHead(line: seq<byte>, ws: seq<seq<byte>>, k: nat, p: nat)
    requires p < |line| && line[|line| - 1] == NL && Words(ws) && k < |ws|
    requires Here(line, p, ws[k]) || Absent(line, p, ws[k])
    ensures Scan(line, Pack(ws[k..]), p, 0, k) ==
            if Here(line, p, ws[k]) then Scanned(After(line, p, ws[k]), k)
            else Scan(line, Pack(ws[k + 1..]), Blanks(line, p), 0, k + 1)
  {
    assert ws[k..][0] == ws[k] && ws[k..][1..] == ws[k + 1..];
    assert Marked(ws[k])[0..] + Pack(ws[k + 1..]) == Pack(ws[k..]);
    ScanOneWord(line, ws[k], Pack(ws[k + 1..]), p, 0, k);
  }

  lemma {:induction false} ScanFrom(line: seq<byte>, ws: seq<seq<byte>>, k: nat, q: nat)
    requires q < |line| && line[|line| - 1] == NL && Words(ws) && k <= |ws|
    requires !IsBlank(line[q]) && Unmarked(line, q, ws, k)
    ensures Scan(line, Pack(ws[k..]), q, 0, k) == PickFrom(line, q, ws, k)
    decreases |ws| - k
  {
    if k < |ws| {
      ScanHead(line, ws, k, q);
      if !Here(line, q, ws[k]) {
        ScanFrom(line, ws, k + 1, q);
      }
    } else {
      assert ws[k..] == [];
    }
  }

  /** Scanning one word, i bytes of which have matched, with `rest` of the table behind it. */
  lemma {:induction false} ScanOneWord(line: seq<byte>, w: seq<byte>, rest: seq<byte>, p: nat, i: nat, index: nat)
    requires Word(w) && Table(rest) && i < |w| && p + i < |line| && line[|line| - 1] == NL
    requires Here(line, p, w[..i]) && (Here(line, p, w) || Absent(line, p, w))
    requires Table(Marked(w)[i..] + rest)
    ensures Scan(line, Marked(w)[i..] + rest, p, i, index) ==
            if Here(line, p, w) then Scanned(After(line, p, w), index)
            else Scan(line, rest, Blanks(line, p), 0, index + 1)
    decreases |w| - i
  {
    hide Scan, NextWord, Here, Table;
    var m := Marked(w);
    var t := m[i..] + rest;
    assert t[0] == m[i] && t[1..] == m[i + 1..] + rest;
    MarkedAt(line, p, w, i);
    HereExtends(line, p, w, i);
    ScanStep(line, t, p, i, index);
    if i == |w| - 1 {
      assert m[i] == w[i] + 128 && m[i + 1..] + rest == rest;
      WordEnds(t);
    } else if line[p + i] == w[i] {
      ScanOneWord(line, w, rest, p, i + 1, index);
    } else {
      SkipWord(m, rest, i);
    }
  }

  /** With all but the last byte of w there, the last byte of its table form is not. */
  lemma MarkedAt(line: seq<byte>, p: nat, w: seq<byte>, i: nat)
    requires Word(w) && i < |w| && p + i < |line| && Here(line, p, w[..i]) && (Here(line, p, w) || Absent(line, p, w))
    ensures i == |w| - 1 ==> line[p + i] as int != w[i] as int + 128
  {
  }

  /** The byte at hand ends a word of the table: the rest of the table is behind it. */
  lemma WordEnds(t: seq<byte>)
    requires Table(t) && |t| > 1 && t[0] >= 128
    ensures NextWord(t) == t[1..]
  {
  }

  lemma HereExtends(line: seq<byte>, p: nat, w: seq<byte>, i: nat)
    requires i < |w| && p + i < |line| && Here(line, p, w[..i])
    ensures Here(line, p, w[..i + 1]) <==> line[p + i] == w[i]
    ensures Here(line, p, w) ==> line[p + i] == w[i]
    ensures i == |w| - 1 ==> (Here(line, p, w) <==> line[p + i] == w[i])
  {
    var a := line[p..p + i + 1];
    assert a == line[p..p + i] + [line[p + i]];
    assert w[..i + 1] == w[..i] + [w[i]];
    assert a[i] == line[p + i];
    if Here(line, p, w) {
      assert line[p..p + |w|][i] == line[p + i];
    }
    if i == |w| - 1 {
      assert w[..i + 1] == w;
    }
  }

  lemma {:induction false} SkipWord(m: seq<byte>, rest: seq<byte>, i: nat)
    requires i < |m| && m[|m| - 1] >= 128 && (forall k :: 0 <= k < |m| - 1 ==> m[k] < 128)
    requires Table(rest) && Table(m[i..] + rest)
    ensures NextWord(m[i..] + rest) == rest
    decreases |m| - i
  {
    var t := m[i..] + rest;
    assert t[1..] == m[i + 1..] + rest;
    if i == |m| - 1 {
      assert m[i + 1..] + rest == rest;
    } else {
      SkipWord(m, rest, i + 1);
    }
  }
}
