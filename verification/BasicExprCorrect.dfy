/** Evaluating the written form of an expression tree gives the tree's value. */
module BasicExprCorrect {
  import opened Ascii
  import opened Machine
  import opened BasicEval
  import opened BasicScan
  import opened BasicExpr
  import opened BasicSteps

  // ---------------------------------------------------------- facts about trees

  lemma BinFacts(e: Env, k: nat, op: BinOp, l: Num, r: Num)
    requires EnvOk(e) && Formed(l) && Formed(r)
    ensures var x, k1 := Bin(op, l, r), SeedAfter(k, l);
            && Formed(x) && SeedAfter(k, x) == SeedAfter(k1, r)
            && NumVal(e, k, x) == Apply(op, NumVal(e, k, l), NumVal(e, k1, r))
            && (DivZero(e, k, x) <==> DivZero(e, k, l) || DivZero(e, k1, r) || (op == Div && NumVal(e, k1, r) == 0))
            && (Faults(e, k, x) <==> Faults(e, k, l) || Faults(e, k1, r))
  {
  }

  lemma RelFacts(e: Env, k: nat, op: nat, l: Num, r: Num)
    requires EnvOk(e) && Formed(l) && Formed(r) && op < |RELOPS|
    ensures var x, k1 := Rel(op, l, r), SeedAfter(k, l);
            && Formed(x) && SeedAfter(k, x) == SeedAfter(k1, r)
            && NumVal(e, k, x) == (if Compare(op, NumVal(e, k, l), NumVal(e, k1, r)) then 1 else 0)
            && (DivZero(e, k, x) <==> DivZero(e, k, l) || DivZero(e, k1, r))
            && (Faults(e, k, x) <==> Faults(e, k, l) || Faults(e, k1, r))
  {
  }

  lemma NegFacts(e: Env, k: nat, y: Num)
    requires EnvOk(e) && Formed(y)
    ensures var x := Neg(y);
            && Formed(x) && SeedAfter(k, x) == SeedAfter(k, y) && NumVal(e, k, x) == Wrap(0 - NumVal(e, k, y))
            && (DivZero(e, k, x) <==> DivZero(e, k, y)) && (Faults(e, k, x) <==> Faults(e, k, y))
    ensures var w := Print(y, 3);
            && Body(Neg(y)) == [] + [OPEN] + ([MINUS] + (w + [CLOSE]))
            && [MINUS] + (w + [CLOSE]) == [] + [MINUS] + (w + [CLOSE])
  {
  }

  lemma CallFacts(e: Env, k: nat, f: nat, y: Num)
    requires EnvOk(e) && Formed(Call(f, y))
    ensures Formed(y) && f < |FUNCS| && (f == FUNC_PEEK || f == FUNC_ABS || f == FUNC_RND)
    ensures var x, v := Call(f, y), NumVal(e, k, y);
            && SeedAfter(k, x) == (if f == FUNC_RND then NextSeed(SeedAfter(k, y)) else SeedAfter(k, y))
            && NumVal(e, k, x) == Called(e, SeedAfter(k, y), f, v)
            && (DivZero(e, k, x) <==> DivZero(e, k, y))
            && (Faults(e, k, x) <==> Faults(e, k, y) || (f == FUNC_RND && v == 0))
    ensures Body(Call(f, y)) == FUNCS[f] + ([OPEN] + (Body(y) + [CLOSE]))
  {
    hide Called, NextSeed, Body, FUNCS;
    CallBody(f, y);
  }

  lemma CallBody(f: nat, y: Num)
    requires Formed(Call(f, y))
    ensures f < |FUNCS| && Body(Call(f, y)) == FUNCS[f] + ([OPEN] + (Body(y) + [CLOSE]))
  {
    assert Body(Call(f, y)) == FUNCS[f] + [OPEN] + Body(y) + [CLOSE];
  }

  lemma StrFuncFacts(e: Env, k: nat, x: Num, a: Str, f: nat)
    requires (x == Len(a) && f == FUNC_LEN) || (x == Asc(a) && f == FUNC_ASC)
    requires EnvOk(e) && Formed(x)
    ensures FormedS(a) && Allocs(x) == AllocsS(a) && (Fitting(x) <==> FittingS(a))
    ensures SeedAfter(k, x) == SeedAfterS(k, a)
    ensures (DivZero(e, k, x) <==> DivZeroS(e, k, a)) && (Faults(e, k, x) <==> FaultsS(e, k, a))
    ensures var v := StrVal(e, k, a); NumVal(e, k, x) == if f == FUNC_LEN then |v| else if v == [] then 0 else v[0]
    ensures Body(x) == FUNCS[f] + ([OPEN] + (PrintS(a) + [CLOSE]))
    ensures (f == FUNC_LEN || f == FUNC_ASC) && f < |FUNCS|
  {
    assert Body(x) == FUNCS[f] + [OPEN] + PrintS(a) + [CLOSE];
  }

  // -------------------------------------------------------------- expressions

  function Rank4(x: Num): (r: nat)
    ensures r <= 8
  {
    if Prec(x) == 4 then 1 else 6
  }

  function Rank3(x: Num): (r: nat)
    ensures r <= 8
  {
    if Prec(x) >= 3 then 2 else 7
  }

  function Rank2(x: Num): (r: nat)
    ensures r <= 8
  {
    if Prec(x) >= 2 then 3 else 8
  }

  lemma {:induction false} Eval4(e: Env, s: St, x: Num, c: byte) returns (t: St)
    requires Formed(x) && EnvOk(e) && Fitting(x) && Reads(e, s, Print(x, 4), c) && AfterFactor(c)
    ensures Failed(DivZero(e, s.seed, x), Faults(e, s.seed, x), Expr4(e, s).st)
    ensures !DivZero(e, s.seed, x) && !Faults(e, s.seed, x) ==>
      && Ran(e, s, t, Allocs(x), |Print(x, 4)|) && t.seed == SeedAfter(s.seed, x)
      && Expr4(e, s) == Res(t, NumVal(e, s.seed, x))
    decreases Size(x), Rank4(x)
  {
    hide Expr4, Failed, Ran, Reads, EnvOk, StOk;
    t := s;
    if Prec(x) < 4 {
      t := EvalParen(e, s, x, c);
    } else {
      match x
      case Lit(n) => t := EvalLit(e, s, n, c);
      case Var(v) => t := EvalVar(e, s, v, c);
      case Neg(y) => t := EvalNeg(e, s, y, c);
      case Call(f, y) => t := EvalCall(e, s, f, y, c);
      case Len(a) => t := EvalStrFunc(e, s, x, a, FUNC_LEN, c);
      case Asc(a) => t := EvalStrFunc(e, s, x, a, FUNC_ASC, c);
    }
  }

  lemma {:induction false} EvalParen(e: Env, s: St, x: Num, c: byte) returns (t: St)
    requires Formed(x) && EnvOk(e) && Fitting(x) && Reads(e, s, [OPEN] + Body(x) + [CLOSE], c)
    ensures Failed(DivZero(e, s.seed, x), Faults(e, s.seed, x), Expr4(e, s).st)
    ensures !DivZero(e, s.seed, x) && !Faults(e, s.seed, x) ==>
      && Ran(e, s, t, Allocs(x), |Body(x)| + 2) && t.seed == SeedAfter(s.seed, x)
      && Expr4(e, s) == Res(t, NumVal(e, s.seed, x))
    decreases Size(x), 6, 0
  {
    hide *;
    var w := Body(x);
    FollowFacts(CLOSE);
    assert [OPEN] + w + [CLOSE] == [] + [OPEN] + (w + [CLOSE]);
    ReadsReady(e, s, [OPEN] + w + [CLOSE], c);
    ReadsRight(e, s, s, [], OPEN, w + [CLOSE], c);
    ReadsSplit(e, Step(s), w, [CLOSE], c);
    var u := Eval0(e, Step(s), x, CLOSE);
    var r := Expression(e, Step(s));
    InParens(e, s, r, Allocs(x), |w|);
    var dz, ft := DivZero(e, s.seed, x), Faults(e, s.seed, x);
    FailedMore(dz, ft, r.st, dz, ft, Expr4(e, s).st);
    t := Step(u);
    if !dz && !ft {
      ReadsOn(e, Step(s), u, w, CLOSE, Allocs(x));
    }
  }

  lemma EvalLit(e: Env, s: St, n: nat, c: byte) returns (t: St)
    requires Reads(e, s, Digits(n), c) && AfterFactor(c)
    ensures Expr4(e, s) == Res(t, Wrap(n)) && Ran(e, s, t, 0, |Digits(n)|) && t.seed == s.seed
    ensures Failed(false, false, t)
  {
    hide Function, Paren, Buffers;
    t := s.(pos := s.pos + |Digits(n)|);
    FirstByte(e, s.pos, Digits(n));
    if n > 0 {
      LeadingDigit(n);
      LiteralReads(e, s.pos, n);
    }
  }

  lemma EvalVar(e: Env, s: St, v: nat, c: byte) returns (t: St)
    requires v < 26 && Reads(e, s, [65 + v], c) && AfterFactor(c)
    ensures Expr4(e, s) == Res(t, e.vars[v]) && Ran(e, s, t, 0, 1) && t.seed == s.seed && Failed(false, false, t)
  {
    hide Function, Paren, Literal, Buffers;
    t := Step(s);
    FirstByte(e, s.pos, [65 + v]);
  }

  lemma {:induction false} EvalNeg(e: Env, s: St, y: Num, c: byte) returns (t: St)
    requires Formed(y) && EnvOk(e) && Fitting(y) && Reads(e, s, Body(Neg(y)), c)
    ensures Failed(DivZero(e, s.seed, y), Faults(e, s.seed, y), Expr4(e, s).st)
    ensures !DivZero(e, s.seed, y) && !Faults(e, s.seed, y) ==>
      && Ran(e, s, t, Allocs(y), |Body(Neg(y))|) && t.seed == SeedAfter(s.seed, y)
      && Expr4(e, s) == Res(t, Wrap(0 - NumVal(e, s.seed, y)))
    decreases Size(y), 9
  {
    hide *;
    var k, w := s.seed, Print(y, 3);
    var dz, ft := DivZero(e, k, y), Faults(e, k, y);
    NegFacts(e, k, y);
    FollowFacts(CLOSE);
    ReadsReady(e, s, Body(Neg(y)), c);
    ReadsRight(e, s, s, [], OPEN, [MINUS] + (w + [CLOSE]), c);
    var s1 := Step(s);
    ReadsRight(e, s1, s1, [], MINUS, w + [CLOSE], c);
    var s2 := Step(s1);
    ReadsSplit(e, s2, w, [CLOSE], c);
    var u := Eval3(e, s2, y, CLOSE);
    var b, r := Expr3(e, s2), Expression(e, s1);
    SignedSum(e, s1, b);
    if !dz && !ft {
      ReadsOn(e, s2, u, w, CLOSE, Allocs(y));
      ProductEnds(e, u, NumVal(e, k, y));
      RanTrans(e, s1, s2, u, 0, 1, Allocs(y), |w|);
    }
    FailedMore(dz, ft, b.st, dz, ft, r.st);
    InParens(e, s, r, Allocs(y), |w| + 1);
    FailedMore(dz, ft, r.st, dz, ft, Expr4(e, s).st);
    t := Step(u);
  }

  /** PEEK, ABS and RND. */
  lemma {:induction false} EvalCall(e: Env, s: St, f: nat, y: Num, c: byte) returns (t: St)
    requires Formed(Call(f, y)) && EnvOk(e) && Fitting(y) && Reads(e, s, Body(Call(f, y)), c)
    ensures Failed(DivZero(e, s.seed, Call(f, y)), Faults(e, s.seed, Call(f, y)), Expr4(e, s).st)
    ensures !DivZero(e, s.seed, Call(f, y)) && !Faults(e, s.seed, Call(f, y)) ==>
      && Ran(e, s, t, Allocs(y), |Body(Call(f, y))|) && t.seed == SeedAfter(s.seed, Call(f, y))
      && Expr4(e, s) == Res(t, NumVal(e, s.seed, Call(f, y)))
    decreases Size(y), 9
  {
    hide *;
    var k, x := s.seed, Call(f, y);
    CallFacts(e, k, f, y);
    var w, h := Body(y), |FUNCS[f]| + 1;
    var dy, fy := DivZero(e, k, y), Faults(e, k, y);
    FollowFacts(CLOSE);
    var m, s2 := FindsCall(e, s, f, w + [CLOSE], c);
    ReadsSplit(e, s2, w, [CLOSE], c);
    var u := Eval0(e, s2, y, CLOSE);
    var a, v := Expression(e, s2), NumVal(e, k, y);
    NumberCallIs(e, s, f, m, a);
    t := u;
    if dy || fy {
      FailedMore(dy, fy, a.st, DivZero(e, k, x), Faults(e, k, x), Expr4(e, s).st);
    } else {
      ReadsOn(e, s2, u, w, CLOSE, Allocs(y));
      RanStep(e, u);
      RanReady(e, u, Step(u), 0, 1);
      NumberFunctionIs(e, Step(u), f, v);
      t := NumberFunction(e, Step(u), f, v).st;
      if f == FUNC_RND && v == 0 {
        FailedFault(t);
      } else {
        FailedNone(t);
        RanTrans(e, s, s2, u, 0, h, Allocs(y), |w|);
        RanTrans(e, s, u, Step(u), Allocs(y), h + |w|, 0, 1);
        RanTrans(e, s, Step(u), t, Allocs(y), h + |w| + 1, 0, 0);
      }
    }
  }

  lemma {:induction false} EvalStrFunc(e: Env, s: St, x: Num, a: Str, f: nat, c: byte) returns (t: St)
    requires (x == Len(a) && f == FUNC_LEN) || (x == Asc(a) && f == FUNC_ASC)
    requires Formed(x) && EnvOk(e) && Fitting(x) && Reads(e, s, Body(x), c)
    ensures Failed(DivZero(e, s.seed, x), Faults(e, s.seed, x), Expr4(e, s).st)
    ensures !DivZero(e, s.seed, x) && !Faults(e, s.seed, x) ==>
      && Ran(e, s, t, Allocs(x), |Body(x)|) && t.seed == SeedAfter(s.seed, x)
      && Expr4(e, s) == Res(t, NumVal(e, s.seed, x))
    decreases SizeS(a), 21
  {
    hide *;
    var k := s.seed;
    StrFuncFacts(e, k, x, a, f);
    FollowFacts(CLOSE);
    var w := PrintS(a);
    var m, s2 := FindsCall(e, s, f, w + [CLOSE], c);
    StringCallIs(e, s, f, m);
    ReadsSplit(e, s2, w, [CLOSE], c);
    ReadsReady(e, s2, w, CLOSE);
    var u, r := EvalStr(e, s2, a, CLOSE);
    var q := StrExpr(e, s2);
    StringFunctionIs(e, s2, f, q, StrVal(e, k, a));
    var dz, ft := DivZero(e, k, x), Faults(e, k, x);
    FailedMore(dz, ft, q.st, dz, ft, Expr4(e, s).st);
    t := Step(u);
    if !dz && !ft {
      ReadsOn(e, s2, u, w, CLOSE, AllocsS(a));
      RanStep(e, u);
      RanTrans(e, s, s2, u, 0, |FUNCS[f]| + 1, AllocsS(a), |w|);
      RanTrans(e, s, u, t, AllocsS(a), |FUNCS[f]| + 1 + |w|, 0, 1);
    }
  }

  lemma {:induction false} Eval3(e: Env, s: St, x: Num, c: byte) returns (t: St)
    requires Formed(x) && EnvOk(e) && Fitting(x) && Reads(e, s, Print(x, 3), c) && AfterAtom(c)
    ensures Failed(DivZero(e, s.seed, x), Faults(e, s.seed, x), Expr3(e, s).st)
    ensures !DivZero(e, s.seed, x) && !Faults(e, s.seed, x) ==>
      && Ran(e, s, t, Allocs(x), |Print(x, 3)|) && t.seed == SeedAfter(s.seed, x)
      && Expr3(e, s) == Loop3(e, t, NumVal(e, s.seed, x))
    decreases Size(x), Rank3(x)
  {
    hide Expr4, Expr3, Loop3, Failed, Ran, Reads, EnvOk, StOk;
    FollowFacts(c);
    if Prec(x) == 3 {
      t := EvalProduct(e, s, x.op, x.l, x.r, c);
    } else {
      var w := Print(x, 3);
      var dz, ft := DivZero(e, s.seed, x), Faults(e, s.seed, x);
      ReadsReady(e, s, w, c);
      t := Eval4(e, s, x, c);
      FactorFirst(e, s, Expr4(e, s));
      FailedMore(dz, ft, Expr4(e, s).st, dz, ft, Expr3(e, s).st);
      if !dz && !ft {
        ReadsOn(e, s, t, w, c, Allocs(x));
      }
    }
  }

  lemma {:induction false} EvalProduct(e: Env, s: St, op: BinOp, l: Num, r: Num, c: byte) returns (t: St)
    requires (op == Mul || op == Div) && EnvOk(e) && Formed(l) && Formed(r) && Fitting(l) && Fitting(r)
    requires Reads(e, s, Print(l, 3) + [OpByte(op)] + Print(r, 4), c) && AfterFactor(c)
    ensures var x := Bin(op, l, r);
            && Failed(DivZero(e, s.seed, x), Faults(e, s.seed, x), Expr3(e, s).st)
            && (!DivZero(e, s.seed, x) && !Faults(e, s.seed, x) ==>
                  && Ran(e, s, t, Allocs(l) + Allocs(r), |Print(l, 3)| + 1 + |Print(r, 4)|)
                  && t.seed == SeedAfter(s.seed, x)
                  && Expr3(e, s) == Loop3(e, t, NumVal(e, s.seed, x)))
    decreases Size(l) + Size(r), 9
  {
    hide *;
    var a, b, o, k, x := Print(l, 3), Print(r, 4), OpByte(op), s.seed, Bin(op, l, r);
    var k1, dl, fl := SeedAfter(k, l), DivZero(e, k, l), Faults(e, k, l);
    var dr, fr := DivZero(e, k1, r), Faults(e, k1, r);
    BinFacts(e, k, op, l, r);
    var dx, fx := DivZero(e, k, x), Faults(e, k, x);
    OpFacts(op);
    ReadsLeft(e, s, a, o, b, c);
    ReadsReady(e, s, a, o);
    var t1 := Eval3(e, s, l, o);
    t := t1;
    var all := Expr3(e, s).st;
    if dl || fl {
      SticksSelf(all);
      FailedMore(dl, fl, all, dx, fx, all);
    } else {
      RanReady(e, s, t1, Allocs(l), |a|);
      ReadsRight(e, s, t1, a, o, b, c);
      t := Eval4(e, Step(t1), r, c);
      var q := Expr4(e, Step(t1));
      ProductTurn(e, t1, NumVal(e, k, l), op, q);
      if dr || fr {
        FailedMore(dr, fr, q.st, dx, fx, all);
      } else {
        RanOver(e, s, t1, t, Allocs(l), |a|, Allocs(r), |b|);
        if dx {
          FailedErr(all);
        } else {
          FailedNone(all);
        }
      }
    }
  }

  lemma {:induction false} Eval2(e: Env, s: St, x: Num, c: byte) returns (t: St)
    requires Formed(x) && EnvOk(e) && Fitting(x) && Reads(e, s, Print(x, 2), c) && AfterProduct(c)
    ensures Failed(DivZero(e, s.seed, x), Faults(e, s.seed, x), Expr2(e, s).st)
    ensures !DivZero(e, s.seed, x) && !Faults(e, s.seed, x) ==>
      && Ran(e, s, t, Allocs(x), |Print(x, 2)|) && t.seed == SeedAfter(s.seed, x)
      && Expr2(e, s) == Loop2(e, t, NumVal(e, s.seed, x))
    decreases Size(x), Rank2(x)
  {
    hide Expr3, Expr2, Loop2, Failed, Ran, Reads, EnvOk, StOk;
    FollowFacts(c);
    if Prec(x) == 2 {
      t := EvalSum(e, s, x.op, x.l, x.r, c);
    } else {
      var w := Print(x, 2);
      var dz, ft := DivZero(e, s.seed, x), Faults(e, s.seed, x);
      OperandStarts(x, 2);
      ReadsReady(e, s, w, c);
      t := Eval3(e, s, x, c);
      TermFirst(e, s, Expr3(e, s));
      FailedMore(dz, ft, Expr3(e, s).st, dz, ft, Expr2(e, s).st);
      if !dz && !ft {
        ReadsOn(e, s, t, w, c, Allocs(x));
        ProductEnds(e, t, NumVal(e, s.seed, x));
      }
    }
  }

  lemma {:induction false} EvalSum(e: Env, s: St, op: BinOp, l: Num, r: Num, c: byte) returns (t: St)
    requires (op == Add || op == Sub) && EnvOk(e) && Formed(l) && Formed(r) && Fitting(l) && Fitting(r)
    requires Reads(e, s, Print(l, 2) + [OpByte(op)] + Print(r, 3), c) && AfterProduct(c)
    ensures var x := Bin(op, l, r);
            && Failed(DivZero(e, s.seed, x), Faults(e, s.seed, x), Expr2(e, s).st)
            && (!DivZero(e, s.seed, x) && !Faults(e, s.seed, x) ==>
                  && Ran(e, s, t, Allocs(l) + Allocs(r), |Print(l, 2)| + 1 + |Print(r, 3)|)
                  && t.seed == SeedAfter(s.seed, x)
                  && Expr2(e, s) == Loop2(e, t, NumVal(e, s.seed, x)))
    decreases Size(l) + Size(r), 9
  {
    hide *;
    var a, b, o, k, x := Print(l, 2), Print(r, 3), OpByte(op), s.seed, Bin(op, l, r);
    var k1, dl, fl := SeedAfter(k, l), DivZero(e, k, l), Faults(e, k, l);
    var dr, fr := DivZero(e, k1, r), Faults(e, k1, r);
    BinFacts(e, k, op, l, r);
    var dx, fx := DivZero(e, k, x), Faults(e, k, x);
    OpFacts(op);
    FollowFacts(c);
    ReadsLeft(e, s, a, o, b, c);
    ReadsReady(e, s, a, o);
    var t1 := Eval2(e, s, l, o);
    t := t1;
    var all := Expr2(e, s).st;
    if dl || fl {
      SticksSelf(all);
      FailedMore(dl, fl, all, dx, fx, all);
    } else {
      RanReady(e, s, t1, Allocs(l), |a|);
      ReadsRight(e, s, t1, a, o, b, c);
      t := Eval3(e, Step(t1), r, c);
      var q := Expr3(e, Step(t1));
      SumTurn(e, t1, NumVal(e, k, l), op, q);
      FailedMore(dr, fr, q.st, dx, fx, all);
      if !dr && !fr {
        ReadsOn(e, Step(t1), t, b, c, Allocs(r));
        ProductEnds(e, t, NumVal(e, k1, r));
        RanOver(e, s, t1, t, Allocs(l), |a|, Allocs(r), |b|);
      }
    }
  }

  lemma {:induction false} Eval0(e: Env, s: St, x: Num, c: byte) returns (t: St)
    requires Formed(x) && EnvOk(e) && Fitting(x) && Reads(e, s, Body(x), c) && AfterAll(c)
    ensures Failed(DivZero(e, s.seed, x), Faults(e, s.seed, x), Expression(e, s).st)
    ensures !DivZero(e, s.seed, x) && !Faults(e, s.seed, x) ==>
      && Ran(e, s, t, Allocs(x), |Body(x)|) && t.seed == SeedAfter(s.seed, x)
      && Expression(e, s) == Res(t, NumVal(e, s.seed, x))
    decreases Size(x), 5
  {
    hide Expr2, Loop2, Expression, Failed, Ran, Reads, EnvOk, StOk;
    if x.Rel? {
      t := EvalRel(e, s, x.rel, x.l, x.r, c);
    } else {
      var dz, ft := DivZero(e, s.seed, x), Faults(e, s.seed, x);
      FollowFacts(c);
      ReadsReady(e, s, Body(x), c);
      t := Eval2(e, s, x, c);
      OnlySum(e, s, Expr2(e, s));
      FailedMore(dz, ft, Expr2(e, s).st, dz, ft, Expression(e, s).st);
      if !dz && !ft {
        RanReady(e, s, t, Allocs(x), |Body(x)|);
        ReadsOn(e, s, t, Body(x), c, Allocs(x));
        SumEnds(e, t, NumVal(e, s.seed, x));
      }
    }
  }

  lemma {:induction false} EvalRel(e: Env, s: St, op: nat, l: Num, r: Num, c: byte) returns (t: St)
    requires op < |RELOPS| && EnvOk(e) && Formed(l) && Formed(r) && Fitting(l) && Fitting(r)
    requires Reads(e, s, Print(l, 2) + RELOPS[op] + Print(r, 2), c) && AfterAll(c)
    ensures var x := Rel(op, l, r);
            && Failed(DivZero(e, s.seed, x), Faults(e, s.seed, x), Expression(e, s).st)
            && (!DivZero(e, s.seed, x) && !Faults(e, s.seed, x) ==>
                  && Ran(e, s, t, Allocs(l) + Allocs(r), |Print(l, 2)| + |RELOPS[op]| + |Print(r, 2)|)
                  && t.seed == SeedAfter(s.seed, x)
                  && Expression(e, s) == Res(t, NumVal(e, s.seed, x)))
    decreases Size(l) + Size(r), 10
  {
    hide *;
    var a, b, w, k := Print(l, 2), Print(r, 2), RELOPS[op], s.seed;
    RelopBytes(op);
    FollowFacts(w[0]);
    RelFacts(e, k, op, l, r);
    OperandStarts(r, 2);
    assert a + w + b == a + (w + b);
    ReadsSplit(e, s, a, w + b, c);
    ReadsReady(e, s, a, w[0]);
    var t1 := Eval2(e, s, l, w[0]);
    t := t1;
    if DivZero(e, k, l) || Faults(e, k, l) {
      OnlySum(e, s, Expr2(e, s));
      FailedMore(DivZero(e, k, l), Faults(e, k, l), Expr2(e, s).st,
                 DivZero(e, k, Rel(op, l, r)), Faults(e, k, Rel(op, l, r)), Expression(e, s).st);
    } else {
      ReadsOn(e, s, t1, a, w[0], Allocs(l));
      SumEnds(e, t1, NumVal(e, k, l));
      RanReady(e, s, t1, Allocs(l), |a|);
      var t2 := ReadsRelop(e, t1, op, b, c);
      t := EvalRight(e, s, t1, t2, op, l, r, c);
      if !DivZero(e, k, Rel(op, l, r)) && !Faults(e, k, Rel(op, l, r)) {
        RanTrans(e, s, t1, t2, Allocs(l), |a|, 0, |w|);
        RanTrans(e, s, t2, t, Allocs(l), |a| + |w|, Allocs(r), |b|);
      }
    }
  }

  /** The right operand of a relation, once the left one and the operator have been read. */
  lemma {:induction false} EvalRight(e: Env, s: St, t1: St, t2: St, op: nat, l: Num, r: Num, c: byte) returns (t: St)
    requires op < |RELOPS| && EnvOk(e) && Formed(l) && Formed(r) && Fitting(r) && AfterAll(c)
    requires Ready(e, s) && Ready(e, t1) && Expr2(e, s) == Res(t1, NumVal(e, s.seed, l))
    requires t1.seed == SeedAfter(s.seed, l)
    requires Words(RELOPS) && ScanWords(e, t1, RELOPS) == Res(t2, op) && t2.seed == t1.seed
    requires Reads(e, t2, Print(r, 2), c) && !DivZero(e, s.seed, l) && !Faults(e, s.seed, l)
    ensures var x := Rel(op, l, r);
            && Failed(DivZero(e, s.seed, x), Faults(e, s.seed, x), Expression(e, s).st)
            && (!DivZero(e, s.seed, x) && !Faults(e, s.seed, x) ==>
                  && Ran(e, t2, t, Allocs(r), |Print(r, 2)|) && t.seed == SeedAfter(s.seed, x)
                  && Expression(e, s) == Res(t, NumVal(e, s.seed, x)))
    decreases Size(l) + Size(r), 9
  {
    hide *;
    var b, k, x := Print(r, 2), s.seed, Rel(op, l, r);
    var k1 := SeedAfter(k, l);
    var dr, fr := DivZero(e, k1, r), Faults(e, k1, r);
    FollowFacts(c);
    RelFacts(e, k, op, l, r);
    ReadyFacts(e, s);
    ReadyFacts(e, t1);
    ReadsReady(e, t2, b, c);
    t := Eval2(e, t2, r, c);
    var q := Expr2(e, t2);
    Related(e, s, Res(t1, NumVal(e, k, l)), op, t2, q);
    SticksSelf(q.st);
    FailedMore(dr, fr, q.st, DivZero(e, k, x), Faults(e, k, x), Expression(e, s).st);
    if !dr && !fr {
      ReadsOn(e, t2, t, b, c, Allocs(r));
      SumEnds(e, t, NumVal(e, k1, r));
    }
  }

  lemma ReadyFacts(e: Env, s: St)
    requires Ready(e, s)
    ensures EnvOk(e) && StOk(e, s) && !s.err
  {
  }

  // ------------------------------------------------------------------ strings

  lemma {:induction false} EvalStr(e: Env, s: St, a: Str, c: byte) returns (t: St, r: Ref)
    requires FormedS(a) && EnvOk(e) && FittingS(a) && Reads(e, s, PrintS(a), c)
    ensures Failed(DivZeroS(e, s.seed, a), FaultsS(e, s.seed, a), StrExpr(e, s).st)
    ensures !DivZeroS(e, s.seed, a) && !FaultsS(e, s.seed, a) ==>
      && Ran(e, s, t, AllocsS(a), |PrintS(a)|) && t.seed == SeedAfterS(s.seed, a)
      && StrExpr(e, s) == Res(t, r) && Holds(e, t, r, StrVal(e, s.seed, a), 3)
    decreases SizeS(a), 20
  {
    hide StrExpr, PrintS, Holds, Ran, Reads, EnvOk, StOk, Failed;
    match a
    case Quote(q) =>
      t, r := EvalQuote(e, s, q, c);
      FailedNone(t);
    case SVar(v) =>
      t, r := EvalSVar(e, s, v, c);
      FailedNone(t);
    case Chr(n) => t, r := EvalFromNumber(e, s, a, n, STRFUNC_CHR, c);
    case StrOf(n) => t, r := EvalFromNumber(e, s, a, n, STRFUNC_STR, c);
    case Left(b, n) => t, r := EvalOneSide(e, s, a, b, n, STRFUNC_LEFT, c);
    case Right(b, n) => t, r := EvalOneSide(e, s, a, b, n, STRFUNC_RIGHT, c);
    case Mid(b, n) => t, r := EvalMid(e, s, a, b, n, c);
    case MidLen(b, n, m) => t, r := EvalMidLen(e, s, a, b, n, m, c);
  }

  lemma FromNumberFacts(e: Env, k: nat, a: Str, n: Num, f: nat)
    requires (a == Chr(n) && f == STRFUNC_CHR) || (a == StrOf(n) && f == STRFUNC_STR)
    requires EnvOk(e) && FormedS(a)
    ensures Formed(n) && (FittingS(a) <==> Fitting(n)) && SeedAfterS(k, a) == SeedAfter(k, n)
    ensures (DivZeroS(e, k, a) <==> DivZero(e, k, n)) && (FaultsS(e, k, a) <==> Faults(e, k, n))
    ensures AllocsS(a) == Allocs(n) + 1 && f < |STRFUNCS| && (f == STRFUNC_CHR || f == STRFUNC_STR)
    ensures PrintS(a) == STRFUNCS[f] + ([OPEN] + (Print(n, 0) + [CLOSE])) && Print(n, 0) == Body(n)
  {
    assert PrintS(a) == STRFUNCS[f] + [OPEN] + Print(n, 0) + [CLOSE];
  }

  lemma NewNumberHolds(e: Env, k: nat, s: St, a: Str, n: Num, f: nat)
    requires Ready(e, s) && FormedS(a) && ((a == Chr(n) && f == STRFUNC_CHR) || (a == StrOf(n) && f == STRFUNC_STR))
    ensures var m := NewTemp(e, s, NumberText(f, NumVal(e, k, n)));
            Ran(e, s, m.st, 1, 0) && Holds(e, m.st, m.val, StrVal(e, k, a), 3) && m.st.seed == s.seed
  {
    hide NumVal;
    var v := NumVal(e, k, n);
    if f == STRFUNC_CHR && v % 256 == 0 {
      var b := Fill(s.temps[s.next], [0]);
      assert b[0] == 0;
      assert CStr(b) == [];
    } else {
      NoNulDigits(Signed(v));
      NewTempHolds(e, s, NumberText(f, v));
    }
  }

  lemma {:induction false} EvalFromNumber(e: Env, s: St, a: Str, n: Num, f: nat, c: byte) returns (t: St, r: Ref)
    requires (a == Chr(n) && f == STRFUNC_CHR) || (a == StrOf(n) && f == STRFUNC_STR)
    requires FormedS(a) && EnvOk(e) && FittingS(a) && Reads(e, s, PrintS(a), c)
    ensures Failed(DivZeroS(e, s.seed, a), FaultsS(e, s.seed, a), StrExpr(e, s).st)
    ensures !DivZeroS(e, s.seed, a) && !FaultsS(e, s.seed, a) ==>
      && Ran(e, s, t, AllocsS(a), |PrintS(a)|) && t.seed == SeedAfterS(s.seed, a)
      && StrExpr(e, s) == Res(t, r) && Holds(e, t, r, StrVal(e, s.seed, a), 3)
    decreases Size(n), 9
  {
    hide *;
    var k0 := s.seed;
    FromNumberFacts(e, k0, a, n, f);
    FollowFacts(CLOSE);
    var w, k := Body(n), |STRFUNCS[f]| + 1;
    var s1 := CallsStrFunction(e, s, f, w + [CLOSE], c);
    ReadsSplit(e, s1, w, [CLOSE], c);
    ReadsReady(e, s1, w, CLOSE);
    var u := Eval0(e, s1, n, CLOSE);
    var p := Expression(e, s1);
    FromNumberIs(e, s1, f, p);
    var dz, ft := DivZero(e, k0, n), Faults(e, k0, n);
    FailedMore(dz, ft, p.st, dz, ft, StrExpr(e, s).st);
    t, r := u, NoString;
    if !dz && !ft {
      ReadsOn(e, s1, u, w, CLOSE, Allocs(n));
      RanStep(e, u);
      RanReady(e, u, Step(u), 0, 1);
      NewNumberHolds(e, k0, Step(u), a, n, f);
      var m := NewTemp(e, Step(u), NumberText(f, NumVal(e, k0, n)));
      t, r := m.st, m.val;
      RanTrans(e, s, s1, u, 0, k, Allocs(n), |w|);
      RanTrans(e, s, u, Step(u), Allocs(n), k + |w|, 0, 1);
      RanTrans(e, s, Step(u), t, Allocs(n), k + |w| + 1, 1, 0);
    }
  }

  // ------------------------------------------------------ LEFT$, RIGHT$, MID$

  /** Whether the source or the first number of a substring function divides by zero, and whether one faults. */
  predicate ArgsDivZero(e: Env, k: nat, b: Str, n: Num)
    requires EnvOk(e) && FormedS(b) && Formed(n)
  {
    DivZeroS(e, k, b) || DivZero(e, SeedAfterS(k, b), n)
  }

  predicate ArgsFault(e: Env, k: nat, b: Str, n: Num)
    requires EnvOk(e) && FormedS(b) && Formed(n)
  {
    FaultsS(e, k, b) || Faults(e, SeedAfterS(k, b), n)
  }

  lemma ArgsFacts(e: Env, k: nat, b: Str, n: Num)
    requires EnvOk(e) && FormedS(b) && Formed(n)
    ensures ArgsDivZero(e, k, b, n) <==> DivZeroS(e, k, b) || DivZero(e, SeedAfterS(k, b), n)
    ensures ArgsFault(e, k, b, n) <==> FaultsS(e, k, b) || Faults(e, SeedAfterS(k, b), n)
  {
  }

  /** The source string and the first number of a substring function. */
  lemma {:induction false} SubArgs(e: Env, s: St, b: Str, n: Num, f: nat, d: byte) returns (t: St, r: Ref)
    requires FormedS(b) && Formed(n) && EnvOk(e) && FittingS(b) && Fitting(n) && Allocs(n) <= 2
    requires Reads(e, s, PrintS(b) + [COMMA] + Body(n), d) && (d == CLOSE || d == COMMA)
    ensures EnvOk(e) && StOk(e, s)
    ensures Failed(ArgsDivZero(e, s.seed, b, n), ArgsFault(e, s.seed, b, n), Substring(e, s, f).st)
    ensures !ArgsDivZero(e, s.seed, b, n) && !ArgsFault(e, s.seed, b, n) ==>
      && Ran(e, s, t, AllocsS(b) + Allocs(n), |PrintS(b)| + 1 + |Body(n)|)
      && t.seed == SeedAfter(SeedAfterS(s.seed, b), n)
      && Holds(e, t, r, StrVal(e, s.seed, b), 3 - Allocs(n))
      && (var v := NumVal(e, SeedAfterS(s.seed, b), n);
          Substring(e, s, f) == if f == STRFUNC_MID then Middle(e, t, r, Signed(v)) else OneSide(e, t, r, f, v))
    decreases SizeS(b) + Size(n) + 1, 9
  {
    hide *;
    FollowFacts(CLOSE);
    FollowFacts(COMMA);
    var v, w, k := PrintS(b), Body(n), s.seed;
    var k1, db, fb := SeedAfterS(k, b), DivZeroS(e, k, b), FaultsS(e, k, b);
    var dn, fn := DivZero(e, k1, n), Faults(e, k1, n);
    var dx, fx := ArgsDivZero(e, k, b, n), ArgsFault(e, k, b, n);
    ArgsFacts(e, k, b, n);
    ReadsLeft(e, s, v, COMMA, w, d);
    ReadsReady(e, s, v, COMMA);
    var t1;
    t1, r := EvalStr(e, s, b, COMMA);
    t := t1;
    var src, all := StrExpr(e, s), Substring(e, s, f).st;
    if db || fb {
      SubstringIs(e, s, f, src, Res(s, 0));
      FailedMore(db, fb, src.st, dx, fx, all);
    } else {
      RanReady(e, s, t1, AllocsS(b), |v|);
      ReadsRight(e, s, t1, v, COMMA, w, d);
      var t2 := Step(t1);
      t := Eval0(e, t2, n, d);
      var p := Expression(e, t2);
      SubstringIs(e, s, f, src, p);
      ReadyFacts(e, t1);
      FailedMore(dn, fn, p.st, dx, fx, all);
      if !dn && !fn {
        ReadsOn(e, t2, t, w, d, Allocs(n));
        ReadyFacts(e, t);
        RanOver(e, s, t1, t, AllocsS(b), |v|, Allocs(n), |w|);
        HoldsAfter(e, t1, t2, r, StrVal(e, k, b), 3, 0, 1);
        HoldsAfter(e, t2, t, r, StrVal(e, k, b), 3, Allocs(n), |w|);
      }
    }
  }

  lemma OneSideFacts(e: Env, k: nat, a: Str, b: Str, n: Num, f: nat)
    requires (a == Left(b, n) && f == STRFUNC_LEFT) || (a == Right(b, n) && f == STRFUNC_RIGHT)
    requires EnvOk(e) && FormedS(a) && FittingS(a)
    ensures FormedS(b) && Formed(n) && FittingS(b) && Fitting(n) && Allocs(n) <= 2
    ensures DivZeroS(e, k, a) <==> ArgsDivZero(e, k, b, n)
    ensures FaultsS(e, k, a) <==> ArgsFault(e, k, b, n)
    ensures SeedAfterS(k, a) == SeedAfter(SeedAfterS(k, b), n)
    ensures AllocsS(a) == AllocsS(b) + Allocs(n) + 1 && f < |STRFUNCS| && f !in {STRFUNC_CHR, STRFUNC_STR, STRFUNC_MID}
    ensures PrintS(a) == STRFUNCS[f] + ([OPEN] + (PrintS(b) + [COMMA] + Body(n) + [CLOSE]))
    ensures StrVal(e, k, a) == var v, i := StrVal(e, k, b), Signed(NumVal(e, SeedAfterS(k, b), n));
                               if f == STRFUNC_LEFT then LeftPart(v, i) else RightPart(v, i)
  {
    CallText(STRFUNCS[f], PrintS(b), Body(n));
    assert Print(n, 0) == Body(n);
  }

  lemma CallText(w: seq<byte>, x: seq<byte>, y: seq<byte>)
    ensures w + [OPEN] + x + [COMMA] + y + [CLOSE] == w + ([OPEN] + (x + [COMMA] + y + [CLOSE]))
  {
  }

  lemma {:induction false} EvalOneSide(e: Env, s: St, a: Str, b: Str, n: Num, f: nat, c: byte) returns (t: St, r: Ref)
    requires (a == Left(b, n) && f == STRFUNC_LEFT) || (a == Right(b, n) && f == STRFUNC_RIGHT)
    requires FormedS(a) && EnvOk(e) && FittingS(a) && Reads(e, s, PrintS(a), c)
    ensures Failed(DivZeroS(e, s.seed, a), FaultsS(e, s.seed, a), StrExpr(e, s).st)
    ensures !DivZeroS(e, s.seed, a) && !FaultsS(e, s.seed, a) ==>
      && Ran(e, s, t, AllocsS(a), |PrintS(a)|) && t.seed == SeedAfterS(s.seed, a)
      && StrExpr(e, s) == Res(t, r) && Holds(e, t, r, StrVal(e, s.seed, a), 3)
    decreases SizeS(b) + Size(n) + 1, 10
  {
    hide *;
    var k0 := s.seed;
    OneSideFacts(e, k0, a, b, n, f);
    var w := PrintS(b) + [COMMA] + Body(n);
    var k, al := |STRFUNCS[f]| + 1, AllocsS(b) + Allocs(n);
    var s1 := CallsStrFunction(e, s, f, w + [CLOSE], c);
    ReadsSplit(e, s1, w, [CLOSE], c);
    var u, src := SubArgs(e, s1, b, n, f, CLOSE);
    t, r := u, src;
    if !DivZeroS(e, k0, a) && !FaultsS(e, k0, a) {
      ReadsOn(e, s1, u, w, CLOSE, al);
      t, r := OneSideEnds(e, u, src, StrVal(e, k0, b), 3 - Allocs(n), f, NumVal(e, SeedAfterS(k0, b), n));
      FailedNone(t);
      RanTrans(e, s, s1, u, 0, k, al, |w|);
      RanTrans(e, s, u, t, al, k + |w|, 1, 1);
    }
  }

  lemma MidFacts(e: Env, k: nat, a: Str, b: Str, n: Num)
    requires a == Mid(b, n) && EnvOk(e) && FormedS(a) && FittingS(a)
    ensures FormedS(b) && Formed(n) && FittingS(b) && Fitting(n) && Allocs(n) <= 2
    ensures DivZeroS(e, k, a) <==> ArgsDivZero(e, k, b, n)
    ensures FaultsS(e, k, a) <==> ArgsFault(e, k, b, n)
    ensures SeedAfterS(k, a) == SeedAfter(SeedAfterS(k, b), n)
    ensures AllocsS(a) == AllocsS(b) + Allocs(n) + 1
    ensures PrintS(a) == STRFUNCS[STRFUNC_MID] + ([OPEN] + (PrintS(b) + [COMMA] + Body(n) + [CLOSE]))
    ensures STRFUNC_MID < |STRFUNCS| && STRFUNC_MID !in {STRFUNC_CHR, STRFUNC_STR}
    ensures var v, p := StrVal(e, k, b), Signed(NumVal(e, SeedAfterS(k, b), n));
            StrVal(e, k, a) == MidPart(v, p, |v|) && !MidOverflows(|v|, if p < 1 then 1 else p, |v|)
  {
    CallText(STRFUNCS[STRFUNC_MID], PrintS(b), Body(n));
    assert Print(n, 0) == Body(n);
  }

  lemma {:induction false} EvalMid(e: Env, s: St, a: Str, b: Str, n: Num, c: byte) returns (t: St, r: Ref)
    requires a == Mid(b, n) && FormedS(a) && EnvOk(e) && FittingS(a) && Reads(e, s, PrintS(a), c)
    ensures Failed(DivZeroS(e, s.seed, a), FaultsS(e, s.seed, a), StrExpr(e, s).st)
    ensures !DivZeroS(e, s.seed, a) && !FaultsS(e, s.seed, a) ==>
      && Ran(e, s, t, AllocsS(a), |PrintS(a)|) && t.seed == SeedAfterS(s.seed, a)
      && StrExpr(e, s) == Res(t, r) && Holds(e, t, r, StrVal(e, s.seed, a), 3)
    decreases SizeS(b) + Size(n) + 1, 10
  {
    hide *;
    var k0 := s.seed;
    MidFacts(e, k0, a, b, n);
    var f, w := STRFUNC_MID, PrintS(b) + [COMMA] + Body(n);
    var k, al := |STRFUNCS[f]| + 1, AllocsS(b) + Allocs(n);
    var s1 := CallsStrFunction(e, s, f, w + [CLOSE], c);
    ReadsSplit(e, s1, w, [CLOSE], c);
    var u, src := SubArgs(e, s1, b, n, f, CLOSE);
    t, r := u, src;
    if !DivZeroS(e, k0, a) && !FaultsS(e, k0, a) {
      var v, p := StrVal(e, k0, b), Signed(NumVal(e, SeedAfterS(k0, b), n));
      ReadsOn(e, s1, u, w, CLOSE, al);
      MiddleIs(e, u, src, v, 3 - Allocs(n), p);
      t, r := MiddleEnds(e, u, src, v, 3 - Allocs(n), p, |v|);
      FailedNone(t);
      RanTrans(e, s, s1, u, 0, k, al, |w|);
      RanTrans(e, s, u, t, al, k + |w|, 1, 1);
    }
  }

  lemma MidLenFacts(e: Env, k: nat, a: Str, b: Str, n: Num, m: Num)
    requires a == MidLen(b, n, m) && EnvOk(e) && FormedS(a) && FittingS(a)
    ensures FormedS(b) && Formed(n) && Formed(m) && FittingS(b) && Fitting(n) && Fitting(m)
    ensures Allocs(n) + Allocs(m) <= 2
    ensures AllocsS(a) == AllocsS(b) + Allocs(n) + Allocs(m) + 1
    ensures PrintS(a) ==
            STRFUNCS[STRFUNC_MID] + ([OPEN] + (PrintS(b) + [COMMA] + Body(n) + ([COMMA] + (Body(m) + [CLOSE]))))
    ensures STRFUNC_MID < |STRFUNCS| && STRFUNC_MID !in {STRFUNC_CHR, STRFUNC_STR}
    ensures var k1 := SeedAfterS(k, b);
            var k2 := SeedAfter(k1, n);
            var v, p, i := StrVal(e, k, b), Signed(NumVal(e, k1, n)), Signed(NumVal(e, k2, m));
            && StrVal(e, k, a) == MidPart(v, p, i) && SeedAfterS(k, a) == SeedAfter(k2, m)
            && (DivZeroS(e, k, a) <==> ArgsDivZero(e, k, b, n) || DivZero(e, k2, m))
            && (FaultsS(e, k, a) <==>
                ArgsFault(e, k, b, n) || Faults(e, k2, m) || MidOverflows(|v|, if p < 1 then 1 else p, i))
  {
    CallText3(STRFUNCS[STRFUNC_MID], PrintS(b), Body(n), Body(m));
    assert Print(n, 0) == Body(n) && Print(m, 0) == Body(m);
  }

  lemma CallText3(w: seq<byte>, x: seq<byte>, y: seq<byte>, z: seq<byte>)
    ensures w + [OPEN] + x + [COMMA] + y + [COMMA] + z + [CLOSE] ==
            w + ([OPEN] + (x + [COMMA] + y + ([COMMA] + (z + [CLOSE]))))
  {
  }

  lemma {:induction false} EvalMidLen(e: Env, s: St, a: Str, b: Str, n: Num, m: Num, c: byte) returns (t: St, r: Ref)
    requires a == MidLen(b, n, m) && FormedS(a) && EnvOk(e) && FittingS(a) && Reads(e, s, PrintS(a), c)
    ensures Failed(DivZeroS(e, s.seed, a), FaultsS(e, s.seed, a), StrExpr(e, s).st)
    ensures !DivZeroS(e, s.seed, a) && !FaultsS(e, s.seed, a) ==>
      && Ran(e, s, t, AllocsS(a), |PrintS(a)|) && t.seed == SeedAfterS(s.seed, a)
      && StrExpr(e, s) == Res(t, r) && Holds(e, t, r, StrVal(e, s.seed, a), 3)
    decreases SizeS(b) + Size(n) + Size(m) + 1, 10
  {
    hide *;
    var k0 := s.seed;
    MidLenFacts(e, k0, a, b, n, m);
    FollowFacts(CLOSE);
    ReadsReady(e, s, PrintS(a), c);
    var f, w, x := STRFUNC_MID, PrintS(b) + [COMMA] + Body(n), Body(m);
    var k, al := |STRFUNCS[f]| + 1, AllocsS(b) + Allocs(n);
    var tail := [COMMA] + (x + [CLOSE]);
    var s1 := CallsStrFunction(e, s, f, w + tail, c);
    ReadsSplit(e, s1, w, tail, c);
    var u, src := SubArgs(e, s1, b, n, f, COMMA);
    t, r := u, src;
    var da, fa := ArgsDivZero(e, k0, b, n), ArgsFault(e, k0, b, n);
    var all := StrExpr(e, s).st;
    if da || fa {
      SticksSelf(all);
      FailedMore(da, fa, all, DivZeroS(e, k0, a), FaultsS(e, k0, a), all);
    } else {
      RanReady(e, s1, u, al, |w|);
      var v, p, len := StrVal(e, k0, b), Signed(NumVal(e, SeedAfterS(k0, b), n)), 0;
      t, r, len := EvalLength(e, u, src, v, 3 - Allocs(n), p, m, c);
      if !DivZeroS(e, k0, a) && !FaultsS(e, k0, a) {
        RanTrans(e, s, s1, u, 0, k, al, |w|);
        RanTrans(e, s, u, t, al, k + |w|, Allocs(m) + 1, len);
      }
    }
  }

  /** MID$ from the comma before its length on. */
  lemma {:induction false} EvalLength(e: Env, u: St, src: Ref, v: seq<byte>, life: nat, p: int, m: Num, c: byte)
    returns (t: St, r: Ref, len: nat)
    requires Formed(m) && EnvOk(e) && Fitting(m) && Reads(e, u, [COMMA] + (Body(m) + [CLOSE]), c)
    requires Holds(e, u, src, v, life) && Allocs(m) <= life && |v| < STRVAR_LEN
    ensures EnvOk(e) && StOk(e, u) && RefOk(src) && len == |Body(m)| + 2
    ensures var i := Signed(NumVal(e, u.seed, m));
            var ov := MidOverflows(|v|, if p < 1 then 1 else p, i);
            && Failed(DivZero(e, u.seed, m), Faults(e, u.seed, m) || ov, Middle(e, u, src, p).st)
            && (!DivZero(e, u.seed, m) && !Faults(e, u.seed, m) && !ov ==>
                  && Ran(e, u, t, Allocs(m) + 1, len) && t.seed == SeedAfter(u.seed, m)
                  && Middle(e, u, src, p) == Res(t, r) && Holds(e, t, r, MidPart(v, p, i), 3))
    decreases Size(m), 9
  {
    hide *;
    var x := Body(m);
    len := |x| + 2;
    FollowFacts(CLOSE);
    assert [COMMA] + (x + [CLOSE]) == [] + [COMMA] + (x + [CLOSE]);
    ReadsReady(e, u, [COMMA] + (x + [CLOSE]), c);
    HoldsRef(e, u, src, v, life);
    MiddleIs(e, u, src, v, life, p);
    ReadsRight(e, u, u, [], COMMA, x + [CLOSE], c);
    var u1 := Step(u);
    ReadsSplit(e, u1, x, [CLOSE], c);
    var u2 := Eval0(e, u1, m, CLOSE);
    var q, all := Expression(e, u1), Middle(e, u, src, p).st;
    var dz, ft, i := DivZero(e, u.seed, m), Faults(e, u.seed, m), Signed(NumVal(e, u.seed, m));
    var ov := MidOverflows(|v|, if p < 1 then 1 else p, i);
    t, r := u, src;
    if dz || ft {
      FailedMore(dz, ft, q.st, dz, ft || ov, all);
    } else {
      ReadsOn(e, u1, u2, x, CLOSE, Allocs(m));
      ReadyFacts(e, u2);
      HoldsAfter(e, u, u1, src, v, life, 0, 1);
      HoldsAfter(e, u1, u2, src, v, life, Allocs(m), |x|);
      if ov {
        MiddleFaults(e, u2, src, v, life - Allocs(m), p, i);
        FailedFault(all);
      } else {
        t, r := MiddleEnds(e, u2, src, v, life - Allocs(m), p, i);
        FailedNone(all);
        RanTrans(e, u, u1, u2, 0, 1, Allocs(m), |x|);
        RanTrans(e, u, u2, t, Allocs(m), 1 + |x|, 1, 1);
      }
    }
  }

  lemma HoldsRef(e: Env, s: St, r: Ref, v: seq<byte>, life: nat)
    requires Holds(e, s, r, v, life)
    ensures EnvOk(e) && StOk(e, s) && RefOk(r)
  {
  }

  // ------------------------------------------------------------- the theorems

  /** The evaluator on the written form of any tree. A zero divisor shows as an error, a RND of zero or an
      overflowing MID$ as a fault; with both, whichever comes first shows. With neither, the value is the tree's
      and the cursor is on the byte that follows. */
  lemma ExpressionCorrect(e: Env, s: St, x: Num, c: byte)
    requires Formed(x) && EnvOk(e) && Fitting(x) && Reads(e, s, Print(x, 0), c) && AfterAll(c)
    ensures var r, dz, ft := Expression(e, s), DivZero(e, s.seed, x), Faults(e, s.seed, x);
            && (!ft ==> (r.st.err <==> dz))
            && (!dz ==> (r.st.fault <==> s.fault || ft))
            && (dz || ft ==> r.st.err || r.st.fault)
            && (!dz && !ft ==>
                  && r.val == NumVal(e, s.seed, x) && r.st.seed == SeedAfter(s.seed, x)
                  && r.st.pos == s.pos + |Print(x, 0)|)
  {
    var t := Eval0(e, s, x, c);
  }

  /** The string evaluator on the written form of any string tree, likewise: nested substring and conversion
      functions give their mathematical results through the four rotating temporaries. */
  lemma StringCorrect(e: Env, s: St, a: Str, c: byte)
    requires FormedS(a) && EnvOk(e) && FittingS(a) && Reads(e, s, PrintS(a), c)
    ensures var r, dz, ft := StrExpr(e, s), DivZeroS(e, s.seed, a), FaultsS(e, s.seed, a);
            && (!ft ==> (r.st.err <==> dz))
            && (!dz ==> (r.st.fault <==> s.fault || ft))
            && (dz || ft ==> r.st.err || r.st.fault)
            && (!dz && !ft ==>
                  && CStr(Deref(e, r.st, r.val)) == StrVal(e, s.seed, a) && |StrVal(e, s.seed, a)| < STRVAR_LEN
                  && r.st.pos == s.pos + |PrintS(a)| && r.st.seed == SeedAfterS(s.seed, a))
  {
    var t, r := EvalStr(e, s, a, c);
  }
}
