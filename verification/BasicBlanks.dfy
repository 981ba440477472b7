/** Operators with blanks around them: which are read as written, and where the evaluator stops otherwise. */
module BasicBlanks {
  import opened Ascii
  import opened Machine
  import opened BasicEval
  import opened BasicScan
  import opened BasicExpr
  import opened BasicSteps
  import opened BasicExprCorrect
  import opened BasicCases

  /** Blanks before an operand are skipped by the operand itself. */
  lemma LeadingBlanks(e: Env, u: St)
    requires Ready(e, u)
    ensures StOk(e, SkipTo(e, u)) && Expr4(e, u) == Expr4(e, SkipTo(e, u)) && Expr3(e, u) == Expr3(e, SkipTo(e, u))
  {
    LeadingBlanks4(e, u);
    hide Expr4, Loop3, Buffers;
  }

  lemma LeadingBlanks4(e: Env, u: St)
    requires Ready(e, u)
    ensures StOk(e, SkipTo(e, u)) && Expr4(e, u) == Expr4(e, SkipTo(e, u))
  {
    hide Function, Paren, Literal, Buffers;
    assert SkipTo(e, SkipTo(e, u)) == SkipTo(e, u);
  }

  /** From blanks before an operand to the operand. */
  lemma OverBlanks(e: Env, u: St, h: seq<byte>, w: seq<byte>, c: byte) returns (t: St)
    requires Reads(e, u, h + w, c) && AllBlank(h) && w != [] && Starts(w[0])
    ensures EnvOk(e) && StOk(e, u) && StOk(e, t) && Reads(e, t, w, c) && Ran(e, u, t, 0, |h|) && t.seed == u.seed
    ensures Expr4(e, u) == Expr4(e, t) && Expr3(e, u) == Expr3(e, t)
  {
    hide Expr4, Expr3;
    LeadingBlanks(e, u);
    t := Past(u, h);
    Split(e, u.pos, h, w);
    FirstByte(e, u.pos + |h|, w);
    BlanksOver(e, u.pos, h);
  }

  /** Bytes that begin no relation. */
  predicate NoRelation(c: byte) { c != 33 && !(60 <= c <= 62) && !(188 <= c <= 190) }

  /** `scantable` with the cursor on blanks before anything but a relation: the blanks are skipped, nothing is found. */
  lemma ScansNothing(e: Env, t: St, g: seq<byte>)
    requires EnvOk(e) && StOk(e, t) && AllBlank(g) && g != [] && Written(e, t.pos, g)
    requires var c := e.line[t.pos + |g|]; NoRelation(c) && !IsBlank(c)
    ensures Words(RELOPS) && ScanWords(e, t, RELOPS) == Res(Past(t, g), RELOP_UNKNOWN)
  {
    hide Scan, Pack, Absent, Here;
    TablesAreWords();
    var q := t.pos + |g|;
    BlanksOver(e, t.pos, g);
    FirstByte(e, t.pos, g);
    NotHere(e.line, t.pos, RELOPS[0], 0);
    forall i | 0 <= i < |RELOPS| ensures Absent(e.line, q, RELOPS[i]) {
      NotHere(e.line, q, RELOPS[i], 0);
    }
    NothingPicked(e.line, t.pos, q, RELOPS);
  }

  lemma NothingPicked(line: seq<byte>, p: nat, q: nat, ws: seq<seq<byte>>)
    requires p < |line| && line[|line| - 1] == NL && Words(ws) && ws != [] && q == Blanks(line, p)
    requires Absent(line, p, ws[0]) && forall i :: 0 <= i < |ws| ==> Absent(line, q, ws[i])
    ensures Scan(line, Pack(ws), p, 0, 0) == Scanned(q, |ws|)
  {
    hide Scan, Pack, Here, Marked;
    FirstIsNone(line, q, ws, 1);
    ScanPicksFirst(line, ws, p);
  }

  lemma {:induction false} FirstIsNone(line: seq<byte>, q: nat, ws: seq<seq<byte>>, k: nat)
    requires Words(ws) && k <= |ws| && forall i :: k <= i < |ws| ==> Absent(line, q, ws[i])
    ensures FirstMatch(line, q, ws, k) == |ws| && Unmarked(line, q, ws, k)
    decreases |ws| - k
  {
    if k < |ws| {
      assert Absent(line, q, ws[k]);
      FirstIsNone(line, q, ws, k + 1);
    }
  }

  /** A sum that has stopped on blanks: the expression ends behind them. */
  lemma StopsOnBlanks(e: Env, s: St, t: St, v: u32, g: seq<byte>, w: seq<byte>, c: byte)
    requires Ready(e, s) && Expr2(e, s) == Res(t, v) && Reads(e, t, g + w, c) && AllBlank(g) && g != [] && w != []
    requires NoRelation(w[0]) && !IsBlank(w[0])
    ensures Expression(e, s) == Res(Past(t, g), v)
  {
    hide Expr2, ScanWords, Buffers, Past;
    Split(e, t.pos, g, w);
    ScansNothing(e, t, g);
  }

  lemma OperatorFacts(op: BinOp)
    ensures var o := OpByte(op); NoRelation(o) && !IsBlank(o) && o != NL && AfterAtom(o)
    ensures op == Add || op == Sub ==> AfterProduct(OpByte(op))
  {
  }

  /** Whether the operator still belongs to what is before it: the loop that would take it has skipped the blanks. */
  predicate Reached(op: BinOp, l: Num, g: seq<byte>) {
    g == [] || !(if op == Add || op == Sub then EndsInProduct(l) else Prec(l) == 3)
  }

  /** The byte after blanks, and what is behind it. */
  lemma OverOperator(e: Env, t: St, g: seq<byte>, o: byte, w: seq<byte>, c: byte)
    requires Reads(e, t, g + ([o] + w), c) && AllBlank(g) && o != NL
    ensures Ready(e, t) && EnvOk(e) && StOk(e, t) && Ready(e, Past(t, g)) && StOk(e, Past(t, g))
    ensures Cur(e, Past(t, g)) == o && Ran(e, t, Past(t, g), 0, |g|) && Past(t, g).seed == t.seed
    ensures Ran(e, Past(t, g), Step(Past(t, g)), 0, 1) && Step(Past(t, g)).seed == t.seed
    ensures Ready(e, Step(Past(t, g))) && StOk(e, Step(Past(t, g))) && Reads(e, Step(Past(t, g)), w, c)
  {
    Split(e, t.pos, g, [o] + w);
    var u := Past(t, g);
    assert [o] + w == [] + [o] + w;
    ReadsRight(e, u, u, [], o, w, c);
  }

  // ----------------------------------------------------------------- sums

  /** The right operand of a sum, from the operator on. */
  lemma SumGoesOn(e: Env, s: St, u: St, op: BinOp, l: Num, r: Num, h: seq<byte>, c: byte) returns (t: St)
    requires (op == Add || op == Sub) && EnvOk(e) && Formed(l) && Formed(r) && Fitting(r) && AllBlank(h) && AfterAll(c)
    requires Ready(e, s) && Ready(e, u) && Cur(e, u) == OpByte(op) && Expr2(e, s) == Loop2(e, u, NumVal(e, s.seed, l))
    requires StOk(e, Step(u)) && Reads(e, Step(u), h + Print(r, 3), c) && Step(u).seed == SeedAfter(s.seed, l)
    requires !DivZero(e, s.seed, Bin(op, l, r)) && !Faults(e, s.seed, Bin(op, l, r))
    ensures Ran(e, Step(u), t, Allocs(r), |h| + |Print(r, 3)|) && t.seed == SeedAfter(s.seed, Bin(op, l, r))
    ensures Expression(e, s) == Res(t, NumVal(e, s.seed, Bin(op, l, r)))
  {
    hide *;
    var k, b := s.seed, Print(r, 3);
    BinFacts(e, k, op, l, r);
    FollowFacts(c);
    OperandStarts(r, 3);
    ReadyFacts(e, s);
    ReadyFacts(e, u);
    var v := OverBlanks(e, Step(u), h, b, c);
    t := Eval3(e, v, r, c);
    ReadsOn(e, v, t, b, c, Allocs(r));
    ProductEnds(e, t, NumVal(e, SeedAfter(k, l), r));
    SumTurn(e, u, NumVal(e, k, l), op, Expr3(e, Step(u)));
    SumEnds(e, t, NumVal(e, k, Bin(op, l, r)));
    OnlySum(e, s, Expr2(e, s));
    RanTrans(e, Step(u), v, t, 0, |h|, Allocs(r), |b|);
    FlagsOf(e, v, t, Allocs(r), |b|);
  }

  lemma FlagsOf(e: Env, s: St, t: St, n: nat, len: nat)
    requires Ran(e, s, t, n, len)
    ensures !t.err && t.fault == s.fault && t.pos == s.pos + len
  {
  }

  /** A sum or difference with any blanks around its operator. */
  lemma SumBehindBlanks(e: Env, s: St, op: BinOp, l: Num, r: Num, g: seq<byte>, h: seq<byte>, c: byte)
    requires (op == Add || op == Sub) && EnvOk(e) && Formed(l) && Formed(r) && Fitting(l) && Fitting(r)
    requires AllBlank(g) && AllBlank(h) && AfterAll(c)
    requires Reads(e, s, Print(l, 2) + (g + ([OpByte(op)] + (h + Print(r, 3)))), c)
    requires !DivZero(e, s.seed, Bin(op, l, r)) && !Faults(e, s.seed, Bin(op, l, r))
    ensures var q, n := Expression(e, s), |Print(l, 2)| + |g|;
            && !q.st.err && q.st.fault == s.fault
            && (Reached(op, l, g) ==>
                  q.val == NumVal(e, s.seed, Bin(op, l, r)) && q.st.pos == s.pos + n + 1 + |h| + |Print(r, 3)|)
            && (!Reached(op, l, g) ==> q.val == NumVal(e, s.seed, l) && q.st.pos == s.pos + n)
  {
    hide *;
    var a, o, b, k := Print(l, 2), OpByte(op), Print(r, 3), s.seed;
    var w := h + b;
    BinFacts(e, k, op, l, r);
    OperatorFacts(op);
    ReachedFacts(op, l, g);
    ReadsReady(e, s, a + (g + ([o] + w)), c);
    var t := LeftLands(e, s, l, g, [o] + w, c);
    FlagsOf(e, s, t, Allocs(l), |a|);
    OverOperator(e, t, g, o, w, c);
    var u := Past(t, g);
    FlagsOf(e, t, u, 0, |g|);
    FlagsOf(e, u, Step(u), 0, 1);
    PastNothing(t);
    if Reached(op, l, g) {
      var end := SumGoesOn(e, s, u, op, l, r, h, c);
      FlagsOf(e, Step(u), end, Allocs(r), |h| + |b|);
    } else {
      BlankIsNoSign(Cur(e, t));
      SumEnds(e, t, NumVal(e, k, l));
      StopsOnBlanks(e, s, t, NumVal(e, k, l), g, [o] + w, c);
    }
  }

  lemma ReachedFacts(op: BinOp, l: Num, g: seq<byte>)
    ensures g == [] ==> Reached(op, l, g)
    ensures g != [] && (op == Add || op == Sub) ==> Reached(op, l, g) == !EndsInProduct(l)
    ensures g != [] && (op == Mul || op == Div) ==> Reached(op, l, g) == (Prec(l) != 3)
  {
  }

  // -------------------------------------------------------------- products

  /** The left operand of a product, up to the blanks before the operator. */
  lemma FactorLands(e: Env, s: St, l: Num, g: seq<byte>, tail: seq<byte>, c: byte) returns (t: St)
    requires Formed(l) && EnvOk(e) && Fitting(l) && AllBlank(g) && tail != [] && AfterAtom(tail[0]) && tail[0] != NL
    requires Reads(e, s, Print(l, 3) + (g + tail), c) && !DivZero(e, s.seed, l) && !Faults(e, s.seed, l)
    ensures EnvOk(e) && StOk(e, s) && Ready(e, t) && StOk(e, t) && (g != [] ==> IsBlank(Cur(e, t)))
    ensures Ran(e, s, t, Allocs(l), |Print(l, 3)|) && t.seed == SeedAfter(s.seed, l) && Reads(e, t, g + tail, c)
    ensures Ready(e, Past(t, g)) && StOk(e, Past(t, g))
    ensures Expr3(e, s) == Loop3(e, if Prec(l) == 3 then t else Past(t, g), NumVal(e, s.seed, l))
  {
    hide Expr3, Loop3, Ran, Reads, EnvOk, StOk, DivZero, Faults, NumVal, Print, Failed;
    var a := Print(l, 3);
    FollowFacts(tail[0]);
    ReadsReady(e, s, a + (g + tail), c);
    if g == [] {
      assert g + tail == tail;
      ReadsSplit(e, s, a, tail, c);
      t := Eval3(e, s, l, tail[0]);
      RanReady(e, s, t, Allocs(l), |a|);
      PastNothing(t);
    } else {
      assert a + (g + tail) == (a + g) + tail;
      ReadsSplit(e, s, a + g, tail, c);
      t := TermBeforeBlanks(e, s, l, g, tail[0]);
      ReadsSplit(e, s, a, g + tail, c);
      RanReady(e, s, t, Allocs(l), |a|);
      PastBlanks(e, t, g, tail[0]);
    }
  }

  lemma ProductGoesOn(e: Env, s: St, u: St, op: BinOp, l: Num, r: Num, h: seq<byte>, c: byte) returns (t: St)
    requires (op == Mul || op == Div) && EnvOk(e) && Formed(l) && Formed(r) && Fitting(r) && AllBlank(h) && AfterAll(c)
    requires Ready(e, s) && Ready(e, u) && Cur(e, u) == OpByte(op) && Expr3(e, s) == Loop3(e, u, NumVal(e, s.seed, l))
    requires StOk(e, Step(u)) && Reads(e, Step(u), h + Print(r, 4), c) && Step(u).seed == SeedAfter(s.seed, l)
    requires !DivZero(e, s.seed, Bin(op, l, r)) && !Faults(e, s.seed, Bin(op, l, r)) && Starts(Cur(e, s))
    ensures Ran(e, Step(u), t, Allocs(r), |h| + |Print(r, 4)|) && t.seed == SeedAfter(s.seed, Bin(op, l, r))
    ensures Expression(e, s) == Res(t, NumVal(e, s.seed, Bin(op, l, r)))
  {
    hide *;
    var k, b := s.seed, Print(r, 4);
    BinFacts(e, k, op, l, r);
    FollowFacts(c);
    OperandStarts(r, 4);
    ReadyFacts(e, s);
    ReadyFacts(e, u);
    var v := OverBlanks(e, Step(u), h, b, c);
    t := Eval4(e, v, r, c);
    ReadsOn(e, v, t, b, c, Allocs(r));
    ProductTurn(e, u, NumVal(e, k, l), op, Expr4(e, Step(u)));
    ProductEnds(e, t, NumVal(e, k, Bin(op, l, r)));
    StartsNoSign(Cur(e, s));
    TermFirst(e, s, Expr3(e, s));
    SumEnds(e, t, NumVal(e, k, Bin(op, l, r)));
    OnlySum(e, s, Expr2(e, s));
    RanTrans(e, Step(u), v, t, 0, |h|, Allocs(r), |b|);
    FlagsOf(e, v, t, Allocs(r), |b|);
  }

  lemma StartsNoSign(c: byte)
    requires Starts(c)
    ensures c != PLUS && c != MINUS
  {
  }

  /** A product or quotient with any blanks around its operator. */
  lemma ProductBehindBlanks(e: Env, s: St, op: BinOp, l: Num, r: Num, g: seq<byte>, h: seq<byte>, c: byte)
    requires (op == Mul || op == Div) && EnvOk(e) && Formed(l) && Formed(r) && Fitting(l) && Fitting(r)
    requires AllBlank(g) && AllBlank(h) && AfterAll(c)
    requires Reads(e, s, Print(l, 3) + (g + ([OpByte(op)] + (h + Print(r, 4)))), c)
    requires !DivZero(e, s.seed, Bin(op, l, r)) && !Faults(e, s.seed, Bin(op, l, r))
    ensures var q, n := Expression(e, s), |Print(l, 3)| + |g|;
            && !q.st.err && q.st.fault == s.fault
            && (Reached(op, l, g) ==>
                  q.val == NumVal(e, s.seed, Bin(op, l, r)) && q.st.pos == s.pos + n + 1 + |h| + |Print(r, 4)|)
            && (!Reached(op, l, g) ==> q.val == NumVal(e, s.seed, l) && q.st.pos == s.pos + n)
  {
    hide *;
    var a, o, b, k := Print(l, 3), OpByte(op), Print(r, 4), s.seed;
    var w := h + b;
    BinFacts(e, k, op, l, r);
    OperatorFacts(op);
    ReachedFacts(op, l, g);
    OperandStarts(l, 3);
    ReadsReady(e, s, a + (g + ([o] + w)), c);
    StartsNoSign(Cur(e, s));
    var t := FactorLands(e, s, l, g, [o] + w, c);
    FlagsOf(e, s, t, Allocs(l), |a|);
    OverOperator(e, t, g, o, w, c);
    var u := Past(t, g);
    FlagsOf(e, t, u, 0, |g|);
    FlagsOf(e, u, Step(u), 0, 1);
    PastNothing(t);
    if Reached(op, l, g) {
      var end := ProductGoesOn(e, s, u, op, l, r, h, c);
      FlagsOf(e, Step(u), end, Allocs(r), |h| + |b|);
    } else {
      BlankIsNoSign(Cur(e, t));
      ProductEnds(e, t, NumVal(e, k, l));
      TermFirst(e, s, Expr3(e, s));
      SumEnds(e, t, NumVal(e, k, l));
      StopsOnBlanks(e, s, t, NumVal(e, k, l), g, [o] + w, c);
    }
  }

  /** 1*1 +1 is one, without an error, and the cursor stays on the plus sign. */
  lemma PlusIsLeftOver(e: Env, s: St)
    requires AtStart(e, s, [49, 42, 49, 32, 43, 49])
    ensures EnvOk(e) && StOk(e, s)
    ensures !Expression(e, s).st.err && Expression(e, s).val == 1 && Expression(e, s).st.pos == 4
  {
    var one := Lit(1);
    var l, g := Bin(Mul, one, one), [SPACE];
    StartReads(e, s, [49, 42, 49, 32, 43, 49]);
    OnesText();
    OnesValues(e, s.seed);
    hide Expression, Print, Reads, NumVal, DivZero, Faults, Formed, Fitting;
    SumBehindBlanks(e, s, Add, l, one, g, [], NL);
  }

  lemma OnesText()
    ensures var one := Lit(1);
            var l := Bin(Mul, one, one);
            && Formed(l) && Formed(one) && Fitting(l) && Fitting(one) && |Print(l, 2)| == 3
            && Print(l, 2) + ([SPACE] + ([OpByte(Add)] + ([] + Print(one, 3)))) == [49, 42, 49, 32, 43, 49]
  {
    DigitsOfDigit(1);
    assert Print(Bin(Mul, Lit(1), Lit(1)), 2) == [49, 42, 49] && Print(Lit(1), 3) == [49];
  }

  lemma OnesValues(e: Env, k: nat)
    requires EnvOk(e)
    ensures var one := Lit(1);
            var l := Bin(Mul, one, one);
            && Formed(Bin(Add, l, one)) && NumVal(e, k, l) == 1
            && !DivZero(e, k, Bin(Add, l, one)) && !Faults(e, k, Bin(Add, l, one))
  {
  }
}
