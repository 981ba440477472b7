/** Exactly when `scantable` recognises the first word: never once it has taken a word in its table form for text. */
module BasicScanExact {
  import opened Ascii
  import opened Machine
  import opened BasicEval
  import opened BasicScan

  /** The first word that the text at p starts with, the first word of the table being tried before blanks. */
  function Picked(line: seq<byte>, ws: seq<seq<byte>>, p: nat): Scanned
    requires p < |line| && line[|line| - 1] == NL && Words(ws) && ws != []
  {
    if Here(line, p, ws[0]) then Scanned(After(line, p, ws[0]), 0) else PickFrom(line, Blanks(line, p), ws, 1)
  }

  /** No word that is passed over is in the text with 128 added to its last byte. */
  predicate Plainly(line: seq<byte>, ws: seq<seq<byte>>, p: nat)
    requires p < |line| && line[|line| - 1] == NL && Words(ws) && ws != []
  {
    Here(line, p, ws[0]) || (Absent(line, p, ws[0]) && Unmarked(line, Blanks(line, p), ws, 1))
  }

  predicate Distinct(ws: seq<seq<byte>>) { forall i, j :: 0 <= i < j < |ws| ==> ws[i] != ws[j] }

  // --------------------------------------------------------- after a wrong step

  /** A whole word in its table form has been matched before byte i of the text at q. */
  predicate Strayed(line: seq<byte>, q: nat, i: nat, o: nat) {
    0 < o <= i && q + i < |line| && line[q + o - 1] >= 128
  }

  /** Nothing found, but the index short of the end. */
  predicate LostEnd(q: nat, n: nat, r: Scanned) { r.pos == q && r.index < n }

  /** A word found where it is, but under an earlier word's index. */
  ghost predicate LostCount(line: seq<byte>, ws: seq<seq<byte>>, q: nat, r: Scanned)
    requires Words(ws) && |line| > 0 && line[|line| - 1] == NL
  {
    exists w :: r.index < w < |ws| && Here(line, q, ws[w]) && r.pos == After(line, q, ws[w])
  }

  /** A word's end found behind a byte of 128 or more. */
  ghost predicate LostPlace(line: seq<byte>, q: nat, r: Scanned)
    requires |line| > 0 && line[|line| - 1] == NL
  {
    exists i: nat, o: nat :: EndsBehind(line, q, i, o, r)
  }

  predicate EndsBehind(line: seq<byte>, q: nat, i: nat, o: nat, r: Scanned)
    requires |line| > 0 && line[|line| - 1] == NL
  {
    Strayed(line, q, i, o) && q + i + 1 < |line| && r.pos == Blanks(line, q + i + 1)
  }

  ghost predicate Off(line: seq<byte>, ws: seq<seq<byte>>, q: nat, r: Scanned)
    requires Words(ws) && |line| > 0 && line[|line| - 1] == NL
  {
    LostEnd(q, |ws|, r) || LostCount(line, ws, q, r) || LostPlace(line, q, r)
  }

  /** At the start of word w, with fewer words counted than passed. */
  lemma {:induction false} OffFromWord(line: seq<byte>, ws: seq<seq<byte>>, w: nat, q: nat, i: nat, o: nat, index: nat)
    requires Words(ws) && index < w <= |ws| && q + i < |line| && line[|line| - 1] == NL && !IsBlank(line[q])
    requires i == 0 || Strayed(line, q, i, o)
    ensures Off(line, ws, q, Scan(line, Pack(ws[w..]), q, i, index))
    decreases |ws| - w, 1, 0
  {
    hide Scan, Pack, Strayed, Marked, Word, LostCount, LostPlace;
    if w == |ws| {
      assert ws[w..] == [];
      PackNone();
      ScanStep(line, [0], q, i, index);
    } else {
      PackedFrom(ws, w);
      var m := Marked(ws[w]);
      assert m[0..] == m && ws[w][..0] == [];
      HereNothing(line, q);
      OffInWord(line, ws, w, 0, q, i, o, index);
    }
  }

  lemma PackedFrom(ws: seq<seq<byte>>, w: nat)
    requires Words(ws) && w < |ws|
    ensures Word(ws[w]) && Pack(ws[w..]) == Marked(ws[w]) + Pack(ws[w + 1..])
  {
    assert ws[w..][0] == ws[w] && ws[w..][1..] == ws[w + 1..];
  }

  lemma HereNothing(line: seq<byte>, q: nat)
    requires q <= |line|
    ensures Here(line, q, [])
  {
  }

  /** Inside word w, at its byte j: either it has matched from q on, or the text matched lies further on. */
  lemma {:induction false} OffInWord(line: seq<byte>, ws: seq<seq<byte>>, w: nat, j: nat, q: nat, i: nat, o: nat,
                                     index: nat)
    requires Words(ws) && index < w < |ws| && j < |ws[w]|
    requires q + i < |line| && line[|line| - 1] == NL && !IsBlank(line[q])
    requires (i == j && Here(line, q, ws[w][..j])) || Strayed(line, q, i, o)
    requires Table(Marked(ws[w])[j..] + Pack(ws[w + 1..]))
    ensures Off(line, ws, q, Scan(line, Marked(ws[w])[j..] + Pack(ws[w + 1..]), q, i, index))
    decreases |ws| - w, 0, |ws[w]| - j
  {
    hide Scan, Pack, NextWord, Here, Table, Off, Strayed;
    var m, rest := Marked(ws[w]), Pack(ws[w + 1..]);
    var t := m[j..] + rest;
    assert t[0] == m[j] && t[1..] == m[j + 1..] + rest;
    ScanStep(line, t, q, i, index);
    if line[q + i] == m[j] {
      if j < |m| - 1 {
        MatchGoesOn(line, q, ws[w], j, i, o);
        OffInWord(line, ws, w, j + 1, q, i + 1, o, index);
      } else {
        assert m[j + 1..] + rest == rest;
        StraysNow(line, q, i);
        OffFromWord(line, ws, w + 1, q, i + 1, i + 1, index);
      }
    } else if line[q + i] as int + 0x80 == m[j] as int {
      WordFound(line, ws, w, j, q, i, o, Scanned(Blanks(line, q + i + 1), index));
    } else {
      SkipWord(m, rest, j);
      OffFromWord(line, ws, w + 1, q, 0, 0, index + 1);
    }
  }

  lemma MatchGoesOn(line: seq<byte>, q: nat, w: seq<byte>, j: nat, i: nat, o: nat)
    requires Word(w) && j < |w| - 1 && q + i + 1 < |line| && line[q + i] == w[j]
    requires (i == j && Here(line, q, w[..j])) || Strayed(line, q, i, o)
    ensures (i == j && Here(line, q, w[..j + 1])) || Strayed(line, q, i + 1, o)
  {
    if i == j && Here(line, q, w[..j]) {
      HereExtends(line, q, w, j);
    }
  }

  lemma StraysNow(line: seq<byte>, q: nat, i: nat)
    requires q + i + 1 < |line| && line[q + i] >= 128
    ensures Strayed(line, q, i + 1, i + 1)
  {
  }

  /** The end of a word found at byte i of the text. */
  lemma WordFound(line: seq<byte>, ws: seq<seq<byte>>, w: nat, j: nat, q: nat, i: nat, o: nat, r: Scanned)
    requires Words(ws) && r.index < w < |ws| && j < |ws[w]| && q + i + 1 < |line| && line[|line| - 1] == NL
    requires (i == j && Here(line, q, ws[w][..j])) || Strayed(line, q, i, o)
    requires line[q + i] as int + 0x80 == Marked(ws[w])[j] as int && r.pos == Blanks(line, q + i + 1)
    ensures Off(line, ws, q, r)
  {
    hide Here, Strayed, Blanks;
    if i == j && Here(line, q, ws[w][..j]) {
      HereExtends(line, q, ws[w], j);
      assert Here(line, q, ws[w]) && r.pos == After(line, q, ws[w]);
      assert LostCount(line, ws, q, r);
    } else {
      assert EndsBehind(line, q, i, o, r);
      assert LostPlace(line, q, r);
    }
  }

  // ---------------------------------------------------------- never the right one

  lemma {:induction false} BlanksStop(line: seq<byte>, p: nat, k: nat)
    requires p <= k < |line| && line[|line| - 1] == NL && !IsBlank(line[k])
    ensures Blanks(line, p) <= k
    decreases k - p
  {
    if p < k && IsBlank(line[p]) {
      BlanksStop(line, p + 1, k);
    }
  }

  lemma AfterIsBehind(line: seq<byte>, q: nat, w: seq<byte>)
    requires Here(line, q, w) && Word(w) && |line| > 0 && line[|line| - 1] == NL
    ensures After(line, q, w) >= q + |w| > q
    ensures forall k :: 0 <= k < |w| ==> line[q + k] == w[k]
  {
    forall k | 0 <= k < |w| ensures line[q + k] == w[k] {
      assert line[q..q + |w|][k] == line[q + k];
    }
  }

  /** Two words at one place that end alike are the same word. */
  lemma SameEnd(line: seq<byte>, q: nat, a: seq<byte>, b: seq<byte>)
    requires Here(line, q, a) && Word(a) && Here(line, q, b) && Word(b) && |line| > 0 && line[|line| - 1] == NL
    requires After(line, q, a) == After(line, q, b)
    ensures a == b
  {
    AfterIsBehind(line, q, a);
    AfterIsBehind(line, q, b);
  }

  lemma OffIsNotPicked(line: seq<byte>, ws: seq<seq<byte>>, q: nat, k: nat, r: Scanned)
    requires Words(ws) && Distinct(ws) && k <= |ws| && |line| > 0 && line[|line| - 1] == NL && Off(line, ws, q, r)
    ensures r != PickFrom(line, q, ws, k)
  {
    hide Here, After, Blanks, Strayed;
    var j := FirstMatch(line, q, ws, k);
    if j < |ws| {
      AfterIsBehind(line, q, ws[j]);
      if r == PickFrom(line, q, ws, k) {
        if LostCount(line, ws, q, r) {
          var w :| r.index < w < |ws| && Here(line, q, ws[w]) && r.pos == After(line, q, ws[w]);
          SameEnd(line, q, ws[j], ws[w]);
        } else {
          var i: nat, o: nat :| EndsBehind(line, q, i, o, r);
          NotBehind(line, q, ws[j], i, o);
        }
      }
    } else if LostPlace(line, q, r) {
      var i: nat, o: nat :| EndsBehind(line, q, i, o, r);
    } else if LostCount(line, ws, q, r) {
      var w :| r.index < w < |ws| && Here(line, q, ws[w]) && r.pos == After(line, q, ws[w]);
      AfterIsBehind(line, q, ws[w]);
    }
  }

  lemma NotBehind(line: seq<byte>, q: nat, w: seq<byte>, i: nat, o: nat)
    requires Here(line, q, w) && Word(w) && |line| > 0 && line[|line| - 1] == NL
    requires Strayed(line, q, i, o) && q + i + 1 < |line|
    ensures After(line, q, w) < Blanks(line, q + i + 1)
  {
    AfterIsBehind(line, q, w);
    BlanksStop(line, q + |w|, q + o - 1);
  }

  // ------------------------------------------------------------------ the theorem

  /** A word matched in its table form leads astray. */
  lemma {:induction false} MarkedStrays(line: seq<byte>, ws: seq<seq<byte>>, w: nat, j: nat, q: nat)
    requires Words(ws) && w < |ws| && j < |ws[w]| && q + j < |line| && line[|line| - 1] == NL && !IsBlank(line[q])
    requires Here(line, q, Marked(ws[w])) && Table(Marked(ws[w])[j..] + Pack(ws[w + 1..]))
    ensures Off(line, ws, q, Scan(line, Marked(ws[w])[j..] + Pack(ws[w + 1..]), q, j, w))
    decreases |ws[w]| - j
  {
    hide Scan, Pack, Table, Off, Strayed;
    var m, rest := Marked(ws[w]), Pack(ws[w + 1..]);
    var t := m[j..] + rest;
    assert t[0] == m[j] && t[1..] == m[j + 1..] + rest;
    assert line[q..q + |m|][j] == line[q + j];
    ScanStep(line, t, q, j, w);
    if j < |m| - 1 {
      MarkedStrays(line, ws, w, j + 1, q);
    } else {
      assert m[j + 1..] + rest == rest;
      StraysNow(line, q, j);
      OffFromWord(line, ws, w + 1, q, j + 1, j + 1, w);
    }
  }

  lemma MarkedIsNoBlank(line: seq<byte>, p: nat, w: seq<byte>)
    requires Word(w) && Here(line, p, Marked(w))
    ensures p < |line| && !IsBlank(line[p])
  {
    assert line[p..p + |w|][0] == line[p] == Marked(w)[0];
  }

  lemma MarkedFrom(line: seq<byte>, ws: seq<seq<byte>>, w: nat, q: nat)
    requires Words(ws) && w < |ws| && q < |line| && line[|line| - 1] == NL && Here(line, q, Marked(ws[w]))
    ensures Off(line, ws, q, Scan(line, Pack(ws[w..]), q, 0, w))
  {
    hide Scan, Pack, Off, Marked;
    PackedFrom(ws, w);
    MarkedIsNoBlank(line, q, ws[w]);
    assert Marked(ws[w])[0..] == Marked(ws[w]);
    MarkedStrays(line, ws, w, 0, q);
  }

  /** From word k on, with a word before the first match in its table form. */
  lemma {:induction false} OffFrom(line: seq<byte>, ws: seq<seq<byte>>, k: nat, q: nat)
    requires Words(ws) && k <= |ws| && q < |line| && line[|line| - 1] == NL && !IsBlank(line[q])
    requires !Unmarked(line, q, ws, k)
    ensures Off(line, ws, q, Scan(line, Pack(ws[k..]), q, 0, k))
    decreases |ws| - k
  {
    hide Scan, Pack, Off, Here, Marked, Word;
    var i :| k <= i < FirstMatch(line, q, ws, k) && Here(line, q, Marked(ws[i]));
    if Here(line, q, Marked(ws[k])) {
      MarkedFrom(line, ws, k, q);
    } else {
      ScanHead(line, ws, k, q);
      OffFrom(line, ws, k + 1, q);
    }
  }

  /** `scantable` picks the first word that the text starts with, on any text and any table of distinct words, if and
      only if no word that it passes over is in the text with 128 added to its last byte. */
  lemma ScanPicksFirstIff(line: seq<byte>, ws: seq<seq<byte>>, p: nat)
    requires p < |line| && line[|line| - 1] == NL && Words(ws) && ws != [] && Distinct(ws)
    ensures Scan(line, Pack(ws), p, 0, 0) == Picked(line, ws, p) <==> Plainly(line, ws, p)
  {
    hide Scan, Pack, Off, Here, Marked, Word, Blanks, Unmarked, PickFrom;
    assert ws[0..] == ws;
    if Plainly(line, ws, p) {
      ScanPicksFirst(line, ws, p);
    } else if Here(line, p, Marked(ws[0])) {
      MarkedIsNoBlank(line, p, ws[0]);
      MarkedFrom(line, ws, 0, p);
      NoBlanks(line, p);
      OffIsNotPicked(line, ws, p, 1, Scan(line, Pack(ws), p, 0, 0));
    } else {
      var q := Blanks(line, p);
      ScanHead(line, ws, 0, p);
      OffFrom(line, ws, 1, q);
      OffIsNotPicked(line, ws, q, 1, Scan(line, Pack(ws[1..]), q, 0, 1));
    }
  }

  lemma NoBlanks(line: seq<byte>, p: nat)
    requires p < |line| && line[|line| - 1] == NL && !IsBlank(line[p])
    ensures Blanks(line, p) == p
  {
  }

  /** The firmware's three tables hold distinct words. */
  lemma TablesAreDistinct()
    ensures Words(RELOPS) && Words(FUNCS) && Words(STRFUNCS)
    ensures Distinct(RELOPS) && Distinct(FUNCS) && Distinct(STRFUNCS)
  {
  }
}
