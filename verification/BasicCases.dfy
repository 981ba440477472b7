/** Where the evaluator's result is not what the text says, exactly and on concrete lines. */
module BasicCases {
  import opened Ascii
  import opened Machine
  import opened BasicEval
  import opened BasicScan
  import opened BasicExpr
  import opened BasicSteps
  import opened BasicExprCorrect

  // ---------------------------------------------------------------- ABS and RND

  /** ABS gives the magnitude of its argument, taken as signed, exactly when that is not negative or is the one
      value that is its own opposite. */
  lemma AbsIsMagnitude(e: Env, s: St, y: Num, c: byte)
    requires Formed(y) && EnvOk(e) && Fitting(y) && Reads(e, s, Print(Call(FUNC_ABS, y), 0), c) && AfterAll(c)
    requires !DivZero(e, s.seed, y) && !Faults(e, s.seed, y)
    ensures var r, a := Expression(e, s), NumVal(e, s.seed, y);
            && !r.st.err && (r.st.fault <==> s.fault)
            && (r.val == (if Signed(a) < 0 then -Signed(a) else Signed(a)) <==> Signed(a) >= 0 || a == 0x8000_0000)
  {
    CallFacts(e, s.seed, FUNC_ABS, y);
    hide NumVal, DivZero, Faults, Print, Reads, Expression, Formed;
    ExpressionCorrect(e, s, Call(FUNC_ABS, y), c);
  }

  /** RND of a sound argument faults exactly when the argument is zero, and otherwise draws the
      next number below it. */
  lemma RndFaultsAtZero(e: Env, s: St, y: Num, c: byte)
    requires Formed(y) && EnvOk(e) && Fitting(y) && Reads(e, s, Print(Call(FUNC_RND, y), 0), c) && AfterAll(c)
    requires !DivZero(e, s.seed, y) && !Faults(e, s.seed, y)
    ensures var r, a, k := Expression(e, s), NumVal(e, s.seed, y), SeedAfter(s.seed, y);
            && (r.st.fault <==> s.fault || a == 0)
            && (a != 0 ==>
                  && !r.st.err && r.st.seed == NextSeed(k)
                  && r.val < a && r.val == NextSeed(k) / 65536 % 0x8000 % a)
  {
    CallFacts(e, s.seed, FUNC_RND, y);
    hide NumVal, DivZero, Faults, Print, Reads, Expression, Formed, NextSeed;
    ExpressionCorrect(e, s, Call(FUNC_RND, y), c);
  }

  // ------------------------------------------------- a relation behind blanks

  predicate AllBlank(g: seq<byte>) { forall i :: 0 <= i < |g| ==> IsBlank(g[i]) }

  /** Whether the last term of x, as written, is a product or a quotient: its last factor is read by the
      product loop, which does not skip the blanks behind it. */
  predicate EndsInProduct(x: Num) { Prec(x) == 3 || (x.Bin? && Prec(x) == 2 && Prec(x.r) == 3) }

  lemma {:induction false} BlanksOver(e: Env, p: nat, g: seq<byte>)
    requires EnvOk(e) && AllBlank(g) && Written(e, p, g) && !IsBlank(e.line[p + |g|])
    ensures Blanks(e.line, p) == p + |g|
    decreases |g|
  {
    if g != [] {
      FirstByte(e, p, g);
      assert g == [g[0]] + g[1..];
      Split(e, p, [g[0]], g[1..]);
      BlanksOver(e, p + 1, g[1..]);
    }
  }

  function Past(t: St, g: seq<byte>): St { t.(pos := t.pos + |g|) }

  /** Behind a term, before blanks: the cursor stays on the blanks or has skipped them. */
  lemma PastBlanks(e: Env, t: St, g: seq<byte>, b: byte)
    requires Reads(e, t, g, b) && AllBlank(g) && g != [] && !IsBlank(b) && b != NL
    ensures Ready(e, t) && EnvOk(e) && StOk(e, t) && IsBlank(Cur(e, t))
    ensures Ready(e, Past(t, g)) && StOk(e, Past(t, g)) && Cur(e, Past(t, g)) == b && SkipTo(e, t) == Past(t, g)
    ensures Ran(e, t, Past(t, g), 0, |g|) && Past(t, g).seed == t.seed
  {
    FirstByte(e, t.pos, g);
    BlanksOver(e, t.pos, g);
  }

  lemma {:induction false} TermBeforeBlanks(e: Env, s: St, x: Num, g: seq<byte>, b: byte) returns (t: St)
    requires Formed(x) && EnvOk(e) && Fitting(x) && Reads(e, s, Print(x, 3) + g, b)
    requires AllBlank(g) && g != [] && !IsBlank(b) && b != NL
    ensures Failed(DivZero(e, s.seed, x), Faults(e, s.seed, x), Expr3(e, s).st)
    ensures !DivZero(e, s.seed, x) && !Faults(e, s.seed, x) ==>
      && Ran(e, s, t, Allocs(x), |Print(x, 3)|) && t.seed == SeedAfter(s.seed, x) && Reads(e, t, g, b)
      && Expr3(e, s) == Loop3(e, if Prec(x) == 3 then t else Past(t, g), NumVal(e, s.seed, x))
  {
    hide Expr4, Expr3, Loop3, Failed, Ran, Reads, EnvOk, StOk, Past, SkipTo;
    var w := Print(x, 3);
    var dz, ft := DivZero(e, s.seed, x), Faults(e, s.seed, x);
    FollowFacts(g[0]);
    ReadsSplit(e, s, w, g, b);
    ReadsReady(e, s, w, g[0]);
    if Prec(x) == 3 {
      t := EvalProduct(e, s, x.op, x.l, x.r, g[0]);
      if !dz && !ft {
        RanReady(e, s, t, Allocs(x), |w|);
        PastBlanks(e, t, g, b);
      }
    } else {
      t := Eval4(e, s, x, g[0]);
      FactorFirst(e, s, Expr4(e, s));
      FailedMore(dz, ft, Expr4(e, s).st, dz, ft, Expr3(e, s).st);
      if !dz && !ft {
        RanReady(e, s, t, Allocs(x), |w|);
        PastBlanks(e, t, g, b);
      }
    }
  }

  /** The left operand of a relation with blanks behind it. */
  lemma {:induction false} LeftBeforeBlanks(e: Env, s: St, x: Num, g: seq<byte>, b: byte) returns (t: St)
    requires Formed(x) && EnvOk(e) && Fitting(x) && Reads(e, s, Print(x, 2) + g, b)
    requires AllBlank(g) && g != [] && AfterProduct(b) && b != NL
    ensures Failed(DivZero(e, s.seed, x), Faults(e, s.seed, x), Expr2(e, s).st)
    ensures !DivZero(e, s.seed, x) && !Faults(e, s.seed, x) ==>
      && Ran(e, s, t, Allocs(x), |Print(x, 2)|) && t.seed == SeedAfter(s.seed, x) && Reads(e, t, g, b)
      && Expr2(e, s) == Loop2(e, if EndsInProduct(x) then t else Past(t, g), NumVal(e, s.seed, x))
  {
    hide Expr3, Expr2, Loop2, Failed, Ran, Reads, EnvOk, StOk, Past;
    FollowFacts(b);
    if Prec(x) == 2 {
      t := SumBeforeBlanks(e, s, x.op, x.l, x.r, g, b);
    } else {
      var w, v := Print(x, 2), NumVal(e, s.seed, x);
      var dz, ft := DivZero(e, s.seed, x), Faults(e, s.seed, x);
      OperandStarts(x, 2);
      ReadsSplit(e, s, w, g, b);
      ReadsReady(e, s, w, g[0]);
      t := TermBeforeBlanks(e, s, x, g, b);
      TermFirst(e, s, Expr3(e, s));
      FailedMore(dz, ft, Expr3(e, s).st, dz, ft, Expr2(e, s).st);
      if !dz && !ft {
        PastBlanks(e, t, g, b);
        ProductEnds(e, if Prec(x) == 3 then t else Past(t, g), v);
      }
    }
  }

  lemma {:induction false} SumBeforeBlanks(e: Env, s: St, op: BinOp, l: Num, r: Num, g: seq<byte>, b: byte)
    returns (t: St)
    requires (op == Add || op == Sub) && EnvOk(e) && Formed(l) && Formed(r) && Fitting(l) && Fitting(r)
    requires Reads(e, s, Print(l, 2) + [OpByte(op)] + Print(r, 3) + g, b)
    requires AllBlank(g) && g != [] && AfterProduct(b) && b != NL
    ensures var x := Bin(op, l, r);
            && Failed(DivZero(e, s.seed, x), Faults(e, s.seed, x), Expr2(e, s).st)
            && (!DivZero(e, s.seed, x) && !Faults(e, s.seed, x) ==>
                  && Ran(e, s, t, Allocs(l) + Allocs(r), |Print(l, 2)| + 1 + |Print(r, 3)|)
                  && t.seed == SeedAfter(s.seed, x) && Reads(e, t, g, b)
                  && Expr2(e, s) == Loop2(e, if Prec(r) == 3 then t else Past(t, g), NumVal(e, s.seed, x)))
  {
    hide *;
    var a, w, o, k, x := Print(l, 2), Print(r, 3), OpByte(op), s.seed, Bin(op, l, r);
    var k1, dl, fl := SeedAfter(k, l), DivZero(e, k, l), Faults(e, k, l);
    var dr, fr := DivZero(e, k1, r), Faults(e, k1, r);
    BinFacts(e, k, op, l, r);
    var dx, fx := DivZero(e, k, x), Faults(e, k, x);
    OpFacts(op);
    FollowFacts(b);
    assert a + [o] + w + g == a + [o] + (w + g);
    ReadsLeft(e, s, a, o, w + g, b);
    ReadsReady(e, s, a, o);
    var t1 := Eval2(e, s, l, o);
    t := t1;
    var all := Expr2(e, s).st;
    if dl || fl {
      SticksSelf(all);
      FailedMore(dl, fl, all, dx, fx, all);
    } else {
      RanReady(e, s, t1, Allocs(l), |a|);
      ReadsRight(e, s, t1, a, o, w + g, b);
      t := TermBeforeBlanks(e, Step(t1), r, g, b);
      var q := Expr3(e, Step(t1));
      SumTurn(e, t1, NumVal(e, k, l), op, q);
      FailedMore(dr, fr, q.st, dx, fx, all);
      if !dr && !fr {
        PastBlanks(e, t, g, b);
        FollowFacts(g[0]);
        BlankIsNoSign(Cur(e, t));
        ProductEnds(e, if Prec(r) == 3 then t else Past(t, g), NumVal(e, k1, r));
        RanOver(e, s, t1, t, Allocs(l), |a|, Allocs(r), |w|);
      }
    }
  }

  lemma BlankIsNoSign(c: byte)
    requires IsBlank(c)
    ensures c != PLUS && c != MINUS && c != STAR && c != SLASH
  {
  }

  lemma RelopAfter(e: Env, p: nat, op: nat, h: seq<byte>)
    requires EnvOk(e) && op < |RELOPS| && AllBlank(h) && Written(e, p, RELOPS[op] + h)
    requires Starts(e.line[p + |RELOPS[op]| + |h|])
    ensures Words(RELOPS) && Here(e.line, p, RELOPS[op]) && After(e.line, p, RELOPS[op]) == p + |RELOPS[op]| + |h|
    ensures !IsBlank(e.line[p]) && forall i :: 0 <= i < op ==> Absent(e.line, p, RELOPS[i])
  {
    TablesAreWords();
    var w := RELOPS[op];
    assert w + h + [] == w + h;
    Split(e, p, w, h);
    if h != [] {
      FirstByte(e, p + |w|, h);
    } else {
      assert w + h == w;
    }
    EarlierAbsent(e, p, op);
    FirstByte(e, p, w);
    BlanksOver(e, p + |w|, h);
  }

  /** `scantable` finding word j at q, behind the cursor's blanks. */
  lemma Picks(e: Env, t: St, ws: seq<seq<byte>>, q: nat, j: nat)
    requires EnvOk(e) && StOk(e, t) && Words(ws) && j < |ws| && q == Blanks(e.line, t.pos) && Here(e.line, q, ws[j])
    requires j == 0 ==> q == t.pos
    requires j > 0 ==> Absent(e.line, t.pos, ws[0]) && forall i :: 1 <= i < j ==> Absent(e.line, q, ws[i])
    ensures ScanWords(e, t, ws) == Res(t.(pos := After(e.line, q, ws[j])), j)
  {
    hide Scan, Pack;
    if j > 0 {
      FirstIs(e.line, q, ws, 1, j);
    }
    ScanPicksFirst(e.line, ws, t.pos);
  }

  /** `scantable` with the cursor on a relation that blanks follow. */
  lemma ScansRelop(e: Env, t: St, op: nat, h: seq<byte>)
    requires EnvOk(e) && StOk(e, t) && op < |RELOPS| && AllBlank(h) && Written(e, t.pos, RELOPS[op] + h)
    requires Starts(e.line[t.pos + |RELOPS[op]| + |h|])
    ensures Words(RELOPS) && ScanWords(e, t, RELOPS) == Res(t.(pos := t.pos + |RELOPS[op]| + |h|), op)
  {
    hide ScanWords, Absent, Words, Here, Written, After;
    RelopAfter(e, t.pos, op, h);
    Picks(e, t, RELOPS, t.pos, op);
  }

  /** `scantable` with the cursor on blanks before a relation: any word but the first is still found. */
  lemma ScansBehindBlanks(e: Env, t: St, g: seq<byte>, op: nat, h: seq<byte>)
    requires EnvOk(e) && StOk(e, t) && 0 < op < |RELOPS| && AllBlank(g) && g != [] && AllBlank(h)
    requires Written(e, t.pos, g + (RELOPS[op] + h)) && Starts(e.line[t.pos + |g| + |RELOPS[op]| + |h|])
    ensures Words(RELOPS) && ScanWords(e, t, RELOPS) == Res(t.(pos := t.pos + |g| + |RELOPS[op]| + |h|), op)
  {
    hide ScanWords, Absent, Words, Here, Written, After, Blanks;
    Split(e, t.pos, g, RELOPS[op] + h);
    RelopAfter(e, t.pos + |g|, op, h);
    FirstWordAbsent(e, t, g, RELOPS[op] + h);
    Picks(e, t, RELOPS, t.pos + |g|, op);
  }

  lemma FirstWordAbsent(e: Env, t: St, g: seq<byte>, w: seq<byte>)
    requires EnvOk(e) && StOk(e, t) && AllBlank(g) && g != [] && w != [] && !IsBlank(w[0]) && Written(e, t.pos, g + w)
    ensures Words(RELOPS) && Absent(e.line, t.pos, RELOPS[0]) && Blanks(e.line, t.pos) == t.pos + |g|
  {
    hide Absent;
    TablesAreWords();
    Split(e, t.pos, g, w);
    BlanksOver(e, t.pos, g);
    FirstByte(e, t.pos, g);
    NotHere(e.line, t.pos, RELOPS[0], 0);
  }

  /** ... but ">=", the first word, is taken for ">". */
  lemma ScansGreater(e: Env, t: St, g: seq<byte>)
    requires EnvOk(e) && StOk(e, t) && AllBlank(g) && g != [] && Written(e, t.pos, g + RELOPS[RELOP_GE])
    ensures Words(RELOPS) && ScanWords(e, t, RELOPS) == Res(t.(pos := t.pos + |g| + 1), RELOP_GT)
  {
    hide ScanWords, Absent, Words, Here, Written, After;
    var q := t.pos + |g|;
    FirstWordAbsent(e, t, g, RELOPS[RELOP_GE]);
    GreaterAt(e, t.pos, g);
    Picks(e, t, RELOPS, q, RELOP_GT);
  }

  lemma GreaterAt(e: Env, p: nat, g: seq<byte>)
    requires EnvOk(e) && Written(e, p, g + RELOPS[RELOP_GE])
    ensures Words(RELOPS)
    ensures var q := p + |g|;
            && q + 1 < |e.line| && Here(e.line, q, RELOPS[RELOP_GT]) && Absent(e.line, q, RELOPS[RELOP_NE])
            && After(e.line, q, RELOPS[RELOP_GT]) == q + 1 && e.line[q + 1] == 61
  {
    TablesAreWords();
    var q, w := p + |g|, RELOPS[RELOP_GE];
    Split(e, p, g, w);
    assert w == RELOPS[RELOP_GT] + [61];
    Split(e, q, RELOPS[RELOP_GT], [61]);
    FirstByte(e, q, w);
    FirstByte(e, q + 1, [61]);
    NotHere(e.line, q, RELOPS[RELOP_NE], 0);
  }

  /** An "=" is no operand. */
  lemma EqualsErrs(e: Env, m: St)
    requires Ready(e, m) && Cur(e, m) == 61
    ensures Expr2(e, m).st.err
  {
    hide Expr4, Expr3, Expr2;
    EqualsErrs4(e, m);
    FactorFirst(e, m, Expr4(e, m));
    TermFirst(e, m, Expr3(e, m));
  }

  lemma EqualsErrs4(e: Env, m: St)
    requires Ready(e, m) && Cur(e, m) == 61
    ensures Expr4(e, m).st.err
  {
    hide Function, Literal, Buffers;
  }

  // ------------------------------------------------------------- the theorem

  /** The left operand of a relation or a sum, up to the blanks before the operator. */
  lemma LeftLands(e: Env, s: St, l: Num, g: seq<byte>, tail: seq<byte>, c: byte) returns (t: St)
    requires Formed(l) && EnvOk(e) && Fitting(l) && AllBlank(g) && tail != [] && AfterProduct(tail[0]) && tail[0] != NL
    requires Reads(e, s, Print(l, 2) + (g + tail), c) && !DivZero(e, s.seed, l) && !Faults(e, s.seed, l)
    ensures EnvOk(e) && StOk(e, s) && Ready(e, t) && StOk(e, t)
    ensures Ran(e, s, t, Allocs(l), |Print(l, 2)|) && t.seed == SeedAfter(s.seed, l) && Reads(e, t, g + tail, c)
    ensures Ready(e, Past(t, g)) && StOk(e, Past(t, g)) && Cur(e, Past(t, g)) == tail[0]
    ensures g != [] ==> IsBlank(Cur(e, t))
    ensures Expr2(e, s) == Loop2(e, if EndsInProduct(l) then t else Past(t, g), NumVal(e, s.seed, l))
  {
    hide Expr2, Loop2, Ran, Reads, EnvOk, StOk, DivZero, Faults, NumVal, Print, Failed;
    var a := Print(l, 2);
    FollowFacts(tail[0]);
    ReadsReady(e, s, a + (g + tail), c);
    if g == [] {
      assert g + tail == tail;
      ReadsSplit(e, s, a, tail, c);
      t := Eval2(e, s, l, tail[0]);
      RanReady(e, s, t, Allocs(l), |a|);
      ReadsOn(e, s, t, a, tail[0], Allocs(l));
      PastNothing(t);
    } else {
      assert a + (g + tail) == (a + g) + tail;
      ReadsSplit(e, s, a + g, tail, c);
      t := LeftBeforeBlanks(e, s, l, g, tail[0]);
      ReadsSplit(e, s, a, g + tail, c);
      RanReady(e, s, t, Allocs(l), |a|);
      PastBlanks(e, t, g, tail[0]);
    }
  }

  lemma PastNothing(t: St)
    ensures Past(t, []) == t
  {
  }

  /** The left operand of a relation. */
  lemma LeftOperand(e: Env, s: St, l: Num, g: seq<byte>, tail: seq<byte>, c: byte) returns (t: St)
    requires Formed(l) && EnvOk(e) && Fitting(l) && AllBlank(g) && tail != [] && AfterSum(tail[0]) && tail[0] != NL
    requires Reads(e, s, Print(l, 2) + (g + tail), c) && !DivZero(e, s.seed, l) && !Faults(e, s.seed, l)
    ensures EnvOk(e) && StOk(e, s)
    ensures Ran(e, s, t, Allocs(l), |Print(l, 2)|) && t.seed == SeedAfter(s.seed, l) && Reads(e, t, g + tail, c)
    ensures Expr2(e, s) == Res(if EndsInProduct(l) then t else Past(t, g), NumVal(e, s.seed, l))
  {
    hide *;
    FollowFacts(tail[0]);
    t := LeftLands(e, s, l, g, tail, c);
    if g == [] {
      PastNothing(t);
    } else {
      BlankIsNoSign(Cur(e, t));
    }
    SumEnds(e, if EndsInProduct(l) then t else Past(t, g), NumVal(e, s.seed, l));
  }

  /** From the end of the left operand over blanks, operator and blanks to the right operand. */
  lemma OverRelop(e: Env, t: St, stay: bool, g: seq<byte>, op: nat, h: seq<byte>, b: seq<byte>, c: byte)
    returns (t0: St, t2: St)
    requires op < |RELOPS| && AllBlank(g) && AllBlank(h) && b != [] && Starts(b[0])
    requires Reads(e, t, g + (RELOPS[op] + (h + b)), c) && !(op == RELOP_GE && g != [] && stay)
    ensures t0 == (if stay then t else Past(t, g)) && Ready(e, t0) && EnvOk(e) && StOk(e, t0) && t0.seed == t.seed
    ensures Words(RELOPS) && ScanWords(e, t0, RELOPS) == Res(t2, op) && Reads(e, t2, b, c)
    ensures t2.seed == t.seed && t2.fault == t.fault && t2.pos == t.pos + |g| + |RELOPS[op]| + |h|
  {
    hide ScanWords, Absent, Words, Here;
    var w := RELOPS[op];
    t0 := if stay then t else Past(t, g);
    t2 := t.(pos := t.pos + |g| + |w| + |h|);
    assert g + (w + (h + b)) == (g + (w + h)) + b;
    Split(e, t.pos, g + (w + h), b);
    Split(e, t.pos, g, w + h);
    if stay && g != [] {
      ScansBehindBlanks(e, t0, g, op, h);
    } else {
      ScansRelop(e, t0, op, h);
    }
  }

  /** What is left of a ">=" read as ">". */
  lemma GreaterLeaves(e: Env, t: St, g: seq<byte>, rest: seq<byte>, c: byte)
    requires Reads(e, t, g + (RELOPS[RELOP_GE] + rest), c) && AllBlank(g) && g != [] && rest != []
    ensures Ready(e, t) && EnvOk(e) && StOk(e, t)
    ensures var m := t.(pos := t.pos + |g| + 1);
            && Ready(e, m) && StOk(e, m) && Cur(e, m) == 61
            && Words(RELOPS) && ScanWords(e, t, RELOPS) == Res(m, RELOP_GT)
  {
    hide ScanWords, Absent, Words, Here;
    var w := RELOPS[RELOP_GE];
    assert g + (w + rest) == (g + w) + rest;
    Split(e, t.pos, g + w, rest);
    ScansGreater(e, t, g);
    GreaterAt(e, t.pos, g);
  }

  lemma RanFlags(e: Env, s: St, t: St, n: nat, len: nat)
    requires Ran(e, s, t, n, len)
    ensures !t.err && t.fault == s.fault && t.pos == s.pos + len
  {
  }

  /** Whether a relation is lost to the blanks before it. */
  predicate Lost(l: Num, op: nat, g: seq<byte>) { op == RELOP_GE && g != [] && EndsInProduct(l) }

  lemma LostFacts(l: Num, op: nat, g: seq<byte>)
    ensures Lost(l, op, g) <==> op == RELOP_GE && g != [] && EndsInProduct(l)
    ensures RELOP_GT < |RELOPS|
  {
  }

  /** A relation written with any blanks around its operator is read as written, unless it is a ">=" behind a
      blank and the last term of its left operand is a product or quotient; then the evaluator sets the error
      flag. */
  lemma RelationBehindBlanks(e: Env, s: St, l: Num, op: nat, r: Num, g: seq<byte>, h: seq<byte>, c: byte)
    requires op < |RELOPS| && EnvOk(e) && Formed(l) && Formed(r) && Fitting(l) && Fitting(r) && AllBlank(g)
    requires AllBlank(h)
    requires Reads(e, s, Print(l, 2) + (g + (RELOPS[op] + (h + Print(r, 2)))), c) && AfterAll(c)
    requires !DivZero(e, s.seed, Rel(op, l, r)) && !Faults(e, s.seed, Rel(op, l, r))
    ensures var q, x := Expression(e, s), Rel(op, l, r);
            && (q.st.err <==> Lost(l, op, g))
            && (!Lost(l, op, g) ==>
                  && q.val == NumVal(e, s.seed, x) && q.st.seed == SeedAfter(s.seed, x) && q.st.fault == s.fault
                  && q.st.pos == s.pos + |Print(l, 2)| + |g| + |RELOPS[op]| + |h| + |Print(r, 2)|)
  {
    hide *;
    var a, w, b, k := Print(l, 2), RELOPS[op], Print(r, 2), s.seed;
    var tail := w + (h + b);
    RelFacts(e, k, op, l, r);
    RelopBytes(op);
    FollowFacts(w[0]);
    OperandStarts(r, 2);
    ReadsReady(e, s, a + (g + tail), c);
    var t1 := LeftOperand(e, s, l, g, tail, c);
    RanFlags(e, s, t1, Allocs(l), |a|);
    LostFacts(l, op, g);
    if Lost(l, op, g) {
      GreaterLeaves(e, t1, g, h + b, c);
      var m := t1.(pos := t1.pos + |g| + 1);
      EqualsErrs(e, m);
      Related(e, s, Res(t1, NumVal(e, k, l)), RELOP_GT, m, Expr2(e, m));
    } else {
      var t0, t2 := OverRelop(e, t1, EndsInProduct(l), g, op, h, b, c);
      var t := EvalRight(e, s, t0, t2, op, l, r, c);
      RanFlags(e, t2, t, Allocs(r), |b|);
    }
  }

  // ------------------------------------------------------------ concrete lines

  /** The cursor at the start of a line that holds w and nothing else. */
  ghost predicate AtStart(e: Env, s: St, w: seq<byte>) {
    EnvOk(e) && e.line == w + [NL] && StOk(e, s) && s.pos == 0 && !s.err && !s.fault
  }

  lemma StartReads(e: Env, s: St, w: seq<byte>)
    requires AtStart(e, s, w)
    ensures EnvOk(e) && Reads(e, s, w, NL) && AfterAll(NL)
  {
    assert e.line[0..|w|] == w;
  }

  lemma DigitsOfDigit(n: nat)
    requires n < 10
    ensures Digits(n) == [48 + n]
  {
  }

  /** 1*1 >=1 sets the error flag. */
  lemma GreaterEqualIsLost(e: Env, s: St)
    requires AtStart(e, s, [49, 42, 49, 32, 62, 61, 49])
    ensures EnvOk(e) && StOk(e, s) && Expression(e, s).st.err
  {
    var one := Lit(1);
    var l, g := Bin(Mul, one, one), [SPACE];
    StartReads(e, s, e.line[..7]);
    DigitsOfDigit(1);
    assert Print(l, 2) == [49, 42, 49] && Print(one, 2) == [49];
    assert e.line[..7] == Print(l, 2) + (g + (RELOPS[RELOP_GE] + ([] + Print(one, 2))));
    hide Expression, Print, Reads;
    RelationBehindBlanks(e, s, l, RELOP_GE, one, g, [], NL);
  }

  /** 1 >=1 is true, as written: the blank after a single factor is skipped. */
  lemma GreaterEqualIsKept(e: Env, s: St)
    requires AtStart(e, s, [49, 32, 62, 61, 49])
    ensures EnvOk(e) && StOk(e, s) && !Expression(e, s).st.err && Expression(e, s).val == 1
  {
    var one, g := Lit(1), [SPACE];
    StartReads(e, s, e.line[..5]);
    DigitsOfDigit(1);
    assert Print(one, 2) == [49];
    assert e.line[..5] == Print(one, 2) + (g + (RELOPS[RELOP_GE] + ([] + Print(one, 2))));
    hide Expression, Print, Reads;
    RelationBehindBlanks(e, s, one, RELOP_GE, one, g, [], NL);
  }

  /** RND(0) divides by zero. */
  lemma RndOfZeroFaults(e: Env, s: St)
    requires AtStart(e, s, [82, 78, 68, 40, 48, 41])
    ensures EnvOk(e) && StOk(e, s) && Expression(e, s).st.fault
  {
    var zero := Lit(0);
    StartReads(e, s, e.line[..6]);
    DigitsOfDigit(0);
    assert Print(zero, 0) == [48];
    assert Print(Call(FUNC_RND, zero), 0) == FUNCS[FUNC_RND] + [OPEN] + [48] + [CLOSE] == e.line[..6];
    hide Expression, Print, Reads;
    RndFaultsAtZero(e, s, zero, NL);
  }

  lemma MaxDigits()
    ensures Digits(2147483647) == [50, 49, 52, 55, 52, 56, 51, 54, 52, 55]
  {
    hide Digits;
    DigitsOfDigit(2);
    DigitsMore(2, 1);
    DigitsMore(21, 4);
    DigitsMore(214, 7);
    DigitsMore(2147, 4);
    DigitsMore(21474, 8);
    DigitsMore(214748, 3);
    DigitsMore(2147483, 6);
    DigitsMore(21474836, 4);
    DigitsMore(214748364, 7);
  }

  lemma DigitsMore(n: nat, d: nat)
    requires n > 0 && d < 10
    ensures Digits(n * 10 + d) == Digits(n) + [48 + d]
  {
  }

  /** MID$("AB",2,2147483647) copies far past its buffers: start and length overflow a long. */
  lemma MidOverflowFaults(e: Env, s: St)
    requires AtStart(e, s, [77, 73, 68, 36, 40, 34, 65, 66, 34, 44, 50, 44, 50, 49, 52, 55, 52, 56, 51, 54, 52, 55, 41])
    ensures EnvOk(e) && StOk(e, s) && StrExpr(e, s).st.fault
  {
    var a := MidLen(Quote([65, 66]), Lit(2), Lit(2147483647));
    StartReads(e, s, e.line[..23]);
    MidOverflowText();
    hide PrintS, Reads, StrExpr, DivZeroS, FaultsS;
    MidOverflowFacts(e, s.seed);
    assert e.line[..23] == PrintS(a);
    StringCorrect(e, s, a, NL);
  }

  lemma MidOverflowText()
    ensures var a := MidLen(Quote([65, 66]), Lit(2), Lit(2147483647));
            && FormedS(a) && FittingS(a)
            && PrintS(a) == [77, 73, 68, 36, 40, 34, 65, 66, 34, 44, 50, 44, 50, 49, 52, 55, 52, 56, 51, 54, 52, 55, 41]
  {
    hide Digits;
    MaxDigits();
    DigitsOfDigit(2);
    var q := Quote([65, 66]);
    assert PrintS(q) == [34, 65, 66, 34];
    assert Print(Lit(2), 0) == [50] && Print(Lit(2147483647), 0) == Digits(2147483647);
  }

  lemma MidOverflowFacts(e: Env, k: nat)
    requires EnvOk(e)
    ensures var a := MidLen(Quote([65, 66]), Lit(2), Lit(2147483647));
            FormedS(a) && !DivZeroS(e, k, a) && FaultsS(e, k, a)
  {
    assert StrVal(e, k, Quote([65, 66])) == [65, 66];
  }
}
