/** Single steps of the evaluator on written text: frames, keywords, and one way through each function. */
module BasicSteps {
  import opened Ascii
  import opened Machine
  import opened BasicEval
  import opened BasicScan
  import opened BasicExpr

  // ------------------------------------------------------------------ frames

  /** From s to t: len bytes read, n string temporaries allocated, the others untouched, no error. */
  ghost predicate Ran(e: Env, s: St, t: St, n: nat, len: nat) {
    && StOk(e, s) && StOk(e, t)
    && t.pos == s.pos + len
    && !t.err && t.fault == s.fault
    && t.next == (s.next + n) % NUM_STR_TEMP
    && forall k :: 0 <= k < NUM_STR_TEMP && Age(s, k) >= n ==> t.temps[k] == s.temps[k]
  }

  /** How many allocations from s on come before slot k is reused. */
  function Age(s: St, k: nat): nat { (k + 2 * NUM_STR_TEMP - s.next % NUM_STR_TEMP) % NUM_STR_TEMP }

  lemma RanTrans(e: Env, s: St, t: St, u: St, n: nat, len: nat, n': nat, len': nat)
    requires Ran(e, s, t, n, len) && Ran(e, t, u, n', len')
    ensures Ran(e, s, u, n + n', len + len')
  {
    hide Age, CBuffer;
    NextTwice(s.next, n, n');
    forall k | 0 <= k < NUM_STR_TEMP && Age(s, k) >= n + n' ensures u.temps[k] == s.temps[k] {
      Ages(s, t, k, n);
    }
  }

  lemma NextTwice(x: nat, n: nat, m: nat)
    ensures ((x + n) % NUM_STR_TEMP + m) % NUM_STR_TEMP == (x + n + m) % NUM_STR_TEMP
  {
  }

  /** A slot comes n allocations closer to being reused. */
  lemma Ages(s: St, t: St, k: nat, n: nat)
    requires t.next == (s.next + n) % NUM_STR_TEMP && n <= Age(s, k)
    ensures Age(t, k) == Age(s, k) - n
  {
  }

  lemma RanStep(e: Env, s: St)
    requires EnvOk(e) && StOk(e, s) && !s.err && Cur(e, s) != NL
    ensures Ran(e, s, Step(s), 0, 1) && Step(s).seed == s.seed
  {
  }

  /** Both flags stay set. */
  predicate Sticks(s: St, t: St) { (s.err ==> t.err) && (s.fault ==> t.fault) }

  /** What shows once a tree with a zero divisor (dz) or a fault (ft) has been evaluated: the one that comes
      first in evaluation order does, and so does the only one. */
  predicate Failed(dz: bool, ft: bool, st: St) {
    (dz ==> st.err || (ft && st.fault)) && (ft ==> st.fault || (dz && st.err))
  }

  /** What went wrong in a part goes wrong in the whole. */
  lemma FailedMore(dz: bool, ft: bool, s: St, dz': bool, ft': bool, t: St)
    requires Failed(dz, ft, s) && Sticks(s, t)
    requires (dz ==> dz') && (ft ==> ft') && (dz' || ft' ==> dz || ft)
    ensures Failed(dz', ft', t)
  {
  }

  lemma FailedNone(t: St)
    ensures Failed(false, false, t)
  {
  }

  lemma FailedErr(t: St)
    requires t.err
    ensures Failed(true, false, t)
  {
  }

  lemma FailedFault(t: St)
    requires t.fault
    ensures Failed(false, true, t)
  {
  }

  // -------------------------------------------------------------------- text

  /** w is written at p and some byte follows it. */
  ghost predicate Written(e: Env, p: nat, w: seq<byte>) { p + |w| < |e.line| && Here(e.line, p, w) }

  lemma Split(e: Env, p: nat, a: seq<byte>, b: seq<byte>)
    requires Written(e, p, a + b)
    ensures b != [] ==> Written(e, p, a) && e.line[p + |a|] == b[0]
    ensures Written(e, p + |a|, b)
  {
    var x := e.line[p..p + |a + b|];
    assert e.line[p..p + |a|] == x[..|a|] == a;
    assert e.line[p + |a|..p + |a| + |b|] == x[|a|..] == b;
    if b != [] {
      assert x[|a|] == b[0];
    }
  }

  lemma FirstByte(e: Env, p: nat, w: seq<byte>)
    requires Written(e, p, w) && w != []
    ensures e.line[p] == w[0]
  {
    assert e.line[p..p + |w|][0] == e.line[p];
  }

  /** A byte that an operand can start with. */
  predicate Starts(c: byte) { IsDigit(c) || IsUpper(c) || c == OPEN }

  lemma {:induction false} OperandStarts(x: Num, level: nat)
    requires Formed(x)
    ensures Print(x, level) != [] && Starts(Print(x, level)[0])
    ensures Body(x) != [] && Starts(Body(x)[0])
  {
    match x
    case Bin(op, l, r) => OperandStarts(l, Prec(x));
    case Rel(_, l, r) => OperandStarts(l, 2);
    case _ =>
  }

  // What may follow an atom, a product, a sum and a whole expression.
  predicate AfterFactor(c: byte) { !IsDigit(c) && !IsUpper(c) }

  predicate AfterAtom(c: byte) { AfterFactor(c) && !IsBlank(c) }

  predicate AfterProduct(c: byte) { AfterAtom(c) && c != STAR && c != SLASH }

  predicate AfterSum(c: byte) { AfterProduct(c) && c != PLUS && c != MINUS }

  predicate AfterAll(c: byte) { AfterSum(c) && c != 33 && !(60 <= c <= 62) && !(188 <= c <= 190) }

  // ---------------------------------------------------------------- literals

  lemma WrapDigit(a: nat, d: nat)
    ensures Wrap(Wrap(a) * 10 + d) == Wrap(a * 10 + d)
  {
    var m := 0x1_0000_0000;
    var q := a / m;
    assert a == q * m + Wrap(a);
    assert a * 10 + d == (q * 10) * m + (Wrap(a) * 10 + d);
    ModAdds(q * 10, Wrap(a) * 10 + d);
  }

  lemma ModAdds(q: nat, x: nat)
    ensures Wrap(q * 0x1_0000_0000 + x) == Wrap(x)
  {
  }

  lemma {:induction false} LiteralReads(e: Env, p: nat, n: nat)
    requires EnvOk(e) && Written(e, p, Digits(n))
    ensures p + |Digits(n)| < |e.line|
    ensures Literal(e.line, p, 0) == Literal(e.line, p + |Digits(n)|, Wrap(n))
  {
    if n < 10 {
      FirstByte(e, p, Digits(n));
    } else {
      var q := p + |Digits(n / 10)|;
      Split(e, p, Digits(n / 10), [48 + n % 10]);
      LiteralReads(e, p, n / 10);
      FirstByte(e, q, [48 + n % 10]);
      WrapDigit(n / 10, n % 10);
      assert n / 10 * 10 + n % 10 == n;
    }
  }

  lemma {:induction false} LeadingDigit(n: nat)
    ensures n > 0 ==> Digits(n)[0] != 48
  {
    if n >= 10 {
      LeadingDigit(n / 10);
    }
  }

  // ---------------------------------------------------------------- keywords

  lemma TablesAreWords()
    ensures Words(RELOPS) && Words(FUNCS) && Words(STRFUNCS)
  {
  }

  lemma {:induction false} FirstIs(line: seq<byte>, p: nat, ws: seq<seq<byte>>, k: nat, j: nat)
    requires k <= j <= |ws| && (j < |ws| ==> Here(line, p, ws[j]))
    requires forall i :: k <= i < j ==> !Here(line, p, ws[i])
    ensures FirstMatch(line, p, ws, k) == j
    decreases j - k
  {
    if k < j {
      FirstIs(line, p, ws, k + 1, j);
    }
  }

  /** `scantable` on a word of the table that is written at the cursor with no earlier word there. */
  lemma Finds(e: Env, s: St, ws: seq<seq<byte>>, j: nat)
    requires EnvOk(e) && StOk(e, s) && Words(ws) && j < |ws|
    requires Written(e, s.pos, ws[j]) && !IsBlank(e.line[s.pos + |ws[j]|])
    requires forall i :: 0 <= i < j ==> Absent(e.line, s.pos, ws[i])
    ensures ScanWords(e, s, ws) == Res(s.(pos := s.pos + |ws[j]|), j)
  {
    FirstByte(e, s.pos, ws[j]);
    if j > 0 {
      assert Absent(e.line, s.pos, ws[0]);
      FirstIs(e.line, s.pos, ws, 1, j);
    }
    ScanPicksFirst(e.line, ws, s.pos);
  }

  lemma FindsNone(e: Env, s: St, ws: seq<seq<byte>>)
    requires EnvOk(e) && StOk(e, s) && Words(ws) && ws != [] && !IsBlank(Cur(e, s))
    requires forall i :: 0 <= i < |ws| ==> Absent(e.line, s.pos, ws[i])
    ensures ScanWords(e, s, ws) == Res(s, |ws|)
  {
    assert Absent(e.line, s.pos, ws[0]);
    FirstIs(e.line, s.pos, ws, 1, |ws|);
    ScanPicksFirst(e.line, ws, s.pos);
  }

  lemma NotHere(line: seq<byte>, p: nat, w: seq<byte>, i: nat)
    requires Word(w) && i < |w|
    requires p + i < |line| ==> line[p + i] != w[i] && (i == |w| - 1 ==> line[p + i] as int != w[i] as int + 128)
    ensures Absent(line, p, w)
  {
  }

  lemma NoRelop(e: Env, s: St)
    requires EnvOk(e) && StOk(e, s) && AfterAll(Cur(e, s))
    ensures Words(RELOPS) && ScanWords(e, s, RELOPS) == Res(s, RELOP_UNKNOWN)
  {
    TablesAreWords();
    forall i | 0 <= i < |RELOPS| ensures Absent(e.line, s.pos, RELOPS[i]) {
      NotHere(e.line, s.pos, RELOPS[i], 0);
    }
    FindsNone(e, s, RELOPS);
  }

  /** Before an operand or a blank, no earlier word of the table fits where a relation is written. */
  lemma EarlierAbsent(e: Env, p: nat, op: nat)
    requires op < |RELOPS| && Written(e, p, RELOPS[op])
    requires var d := e.line[p + |RELOPS[op]|]; Starts(d) || IsBlank(d)
    ensures Words(RELOPS) && forall i :: 0 <= i < op ==> Absent(e.line, p, RELOPS[i])
  {
    TablesAreWords();
    var w := RELOPS[op];
    assert e.line[p..p + |w|] == w;
    assert e.line[p] == w[0];
    assert |w| == 2 ==> e.line[p + 1] == w[1];
    forall i | 0 <= i < op ensures Absent(e.line, p, RELOPS[i]) {
      NotHere(e.line, p, RELOPS[i], if RELOPS[i][0] == w[0] then 1 else 0);
    }
  }

  lemma FindsRelop(e: Env, s: St, op: nat)
    requires EnvOk(e) && StOk(e, s) && op < |RELOPS|
    requires Written(e, s.pos, RELOPS[op]) && Starts(e.line[s.pos + |RELOPS[op]|])
    ensures Words(RELOPS) && ScanWords(e, s, RELOPS) == Res(s.(pos := s.pos + |RELOPS[op]|), op)
  {
    hide ScanWords, Absent;
    TablesAreWords();
    EarlierAbsent(e, s.pos, op);
    Finds(e, s, RELOPS, op);
  }

  lemma FindsFunc(e: Env, s: St, f: nat)
    requires EnvOk(e) && StOk(e, s) && f < |FUNCS|
    requires Written(e, s.pos, FUNCS[f]) && e.line[s.pos + |FUNCS[f]|] == OPEN
    ensures Words(FUNCS) && ScanWords(e, s, FUNCS) == Res(s.(pos := s.pos + |FUNCS[f]|), f)
  {
    TablesAreWords();
    var w := FUNCS[f];
    assert e.line[s.pos..s.pos + |w|] == w;
    assert e.line[s.pos] == w[0] && e.line[s.pos + 1] == w[1];
    forall i | 0 <= i < f ensures Absent(e.line, s.pos, FUNCS[i]) {
      NotHere(e.line, s.pos, FUNCS[i], if FUNCS[i][0] == w[0] then 1 else 0);
    }
    Finds(e, s, FUNCS, f);
  }

  lemma FindsStrFunc(e: Env, s: St, f: nat)
    requires EnvOk(e) && StOk(e, s) && f < |STRFUNCS|
    requires Written(e, s.pos, STRFUNCS[f]) && e.line[s.pos + |STRFUNCS[f]|] == OPEN
    ensures Words(STRFUNCS) && ScanWords(e, s, STRFUNCS) == Res(s.(pos := s.pos + |STRFUNCS[f]|), f)
  {
    TablesAreWords();
    FirstByte(e, s.pos, STRFUNCS[f]);
    forall i | 0 <= i < f ensures Absent(e.line, s.pos, STRFUNCS[i]) {
      NotHere(e.line, s.pos, STRFUNCS[i], 0);
    }
    Finds(e, s, STRFUNCS, f);
  }

  lemma NoStrFunc(e: Env, s: St)
    requires EnvOk(e) && StOk(e, s) && IsUpper(Cur(e, s)) && e.line[s.pos + 1] == DOLLAR
    ensures Words(STRFUNCS) && ScanWords(e, s, STRFUNCS) == Res(s, STRFUNC_UNKNOWN)
  {
    TablesAreWords();
    forall i | 0 <= i < |STRFUNCS| ensures Absent(e.line, s.pos, STRFUNCS[i]) {
      NotHere(e.line, s.pos, STRFUNCS[i], 1);
    }
    FindsNone(e, s, STRFUNCS);
  }

  // -------------------------------------------------------------- expressions

  ghost predicate Ready(e: Env, s: St) { EnvOk(e) && StOk(e, s) && !s.err }

  /** w is what the cursor is on, and c comes after it. */
  ghost predicate Reads(e: Env, s: St, w: seq<byte>, c: byte) {
    Ready(e, s) && Written(e, s.pos, w) && e.line[s.pos + |w|] == c
  }

  lemma ReadsSplit(e: Env, s: St, a: seq<byte>, b: seq<byte>, c: byte)
    requires Reads(e, s, a + b, c) && b != []
    ensures Reads(e, s, a, b[0])
    ensures forall t :: Ready(e, t) && t.pos == s.pos + |a| ==> Reads(e, t, b, c)
  {
    Split(e, s.pos, a, b);
  }

  /** On a, then the byte o, then b. */
  lemma ReadsLeft(e: Env, s: St, a: seq<byte>, o: byte, b: seq<byte>, c: byte)
    requires Reads(e, s, a + [o] + b, c)
    ensures Reads(e, s, a, o)
  {
    assert a + [o] + b == a + ([o] + b);
    ReadsSplit(e, s, a, [o] + b, c);
  }

  lemma ReadsRight(e: Env, s: St, t: St, a: seq<byte>, o: byte, b: seq<byte>, c: byte)
    requires Reads(e, s, a + [o] + b, c) && Ready(e, t) && t.pos == s.pos + |a| && o != NL
    ensures Ready(e, t) && EnvOk(e) && StOk(e, t) && Cur(e, t) == o
    ensures Ready(e, Step(t)) && StOk(e, Step(t)) && Reads(e, Step(t), b, c)
    ensures Ran(e, t, Step(t), 0, 1) && Step(t).seed == t.seed
  {
    assert a + [o] + b == a + ([o] + b);
    ReadsSplit(e, s, a, [o] + b, c);
    Split(e, t.pos, [o], b);
    FirstByte(e, t.pos, [o] + b);
    RanStep(e, t);
  }

  lemma RanReady(e: Env, s: St, t: St, n: nat, len: nat)
    requires Ready(e, s) && Ran(e, s, t, n, len)
    ensures Ready(e, t) && EnvOk(e) && StOk(e, t) && t.pos == s.pos + len
  {
  }

  lemma ReadsReady(e: Env, s: St, w: seq<byte>, c: byte)
    requires Reads(e, s, w, c)
    ensures Ready(e, s) && EnvOk(e) && StOk(e, s) && (w != [] ==> Cur(e, s) == w[0])
  {
    if w != [] {
      FirstByte(e, s.pos, w);
    }
  }

  /** The byte after w, once w has been read. */
  lemma ReadsOn(e: Env, s: St, t: St, w: seq<byte>, c: byte, n: nat)
    requires Reads(e, s, w, c) && Ran(e, s, t, n, |w|)
    ensures Ready(e, t) && EnvOk(e) && StOk(e, t) && Cur(e, t) == c
  {
  }

  // ------------------------------------------------------------- the loops

  lemma OpFacts(op: BinOp)
    ensures var o := OpByte(op);
            AfterAtom(o) && o != NL && (op == Add || op == Sub ==> AfterProduct(o))
  {
  }

  lemma FollowFacts(c: byte)
    ensures AfterAll(c) ==> AfterSum(c)
    ensures AfterSum(c) ==> AfterProduct(c)
    ensures AfterProduct(c) ==> AfterAtom(c)
    ensures AfterAtom(c) ==> AfterFactor(c) && !IsBlank(c)
    ensures AfterProduct(c) ==> c != STAR && c != SLASH
    ensures AfterSum(c) ==> c != PLUS && c != MINUS
    ensures IsBlank(c) ==> AfterFactor(c) && c != NL
    ensures AfterAll(CLOSE) && AfterAll(COMMA)
    ensures NL !in {OPEN, CLOSE, COMMA, MINUS}
  {
  }

  lemma RelopBytes(op: nat)
    requires op < |RELOPS|
    ensures var w := RELOPS[op]; w != [] && AfterSum(w[0]) && NL !in w
  {
  }

  lemma ProductTurn(e: Env, s: St, a: u32, op: BinOp, b: Res<u32>)
    requires Ready(e, s) && (op == Mul || op == Div) && Cur(e, s) == OpByte(op)
    requires Expr4(e, Step(s)) == b
    ensures op == Div && b.val == 0 ==> Loop3(e, s, a).st.err
    ensures !(op == Div && b.val == 0) ==> Loop3(e, s, a) == Loop3(e, b.st, Apply(op, a, b.val))
    ensures Sticks(b.st, Loop3(e, s, a).st)
  {
    hide Expr4, ScanWords, Blanks, Buffers;
  }

  /** The product loop stops on anything but its own operators. */
  lemma ProductEnds(e: Env, s: St, a: u32)
    requires Ready(e, s) && Cur(e, s) != STAR && Cur(e, s) != SLASH
    ensures Loop3(e, s, a) == Res(s, a)
  {
  }

  lemma SumTurn(e: Env, s: St, a: u32, op: BinOp, b: Res<u32>)
    requires Ready(e, s) && (op == Add || op == Sub) && Cur(e, s) == OpByte(op)
    requires Expr3(e, Step(s)) == b
    ensures Loop2(e, s, a) == Loop2(e, b.st, Apply(op, a, b.val))
    ensures Sticks(b.st, Loop2(e, s, a).st)
  {
    hide Expr3, ScanWords, Blanks, Buffers;
  }

  lemma SumEnds(e: Env, s: St, a: u32)
    requires Ready(e, s) && Cur(e, s) != PLUS && Cur(e, s) != MINUS
    ensures Loop2(e, s, a) == Res(s, a)
  {
  }

  /** The first factor of a product; blanks behind it are skipped. */
  lemma FactorFirst(e: Env, s: St, r: Res<u32>)
    requires Ready(e, s) && Expr4(e, s) == r
    ensures Sticks(r.st, Expr3(e, s).st)
    ensures Expr3(e, s) == Loop3(e, SkipTo(e, r.st), r.val)
    ensures !IsBlank(Cur(e, r.st)) ==> SkipTo(e, r.st) == r.st
  {
    hide Expr4, Loop3, ScanWords, Buffers;
  }

  lemma TermFirst(e: Env, s: St, r: Res<u32>)
    requires Ready(e, s) && Cur(e, s) != MINUS && Cur(e, s) != PLUS && Expr3(e, s) == r
    ensures Expr2(e, s) == Loop2(e, r.st, r.val)
    ensures Sticks(r.st, Expr2(e, s).st)
  {
    hide Expr3, Loop2, ScanWords, Buffers;
  }

  lemma SignFirst(e: Env, s: St)
    requires Ready(e, s) && Cur(e, s) == MINUS
    ensures Expr2(e, s) == Loop2(e, s, 0)
  {
    hide Expr3, Loop2, ScanWords, Buffers;
  }

  lemma OnlySum(e: Env, s: St, r: Res<u32>)
    requires Ready(e, s) && Expr2(e, s) == r
    ensures Sticks(r.st, Expression(e, s).st)
    ensures !r.st.err && AfterAll(Cur(e, r.st)) ==> Expression(e, s) == r
  {
    hide Expr2, ScanWords, Buffers;
    if !r.st.err && AfterAll(Cur(e, r.st)) {
      NoRelop(e, r.st);
    }
  }

  lemma Related(e: Env, s: St, a: Res<u32>, op: nat, m: St, b: Res<u32>)
    requires Ready(e, s) && Expr2(e, s) == a && !a.st.err && op < |RELOPS|
    requires Words(RELOPS) && ScanWords(e, a.st, RELOPS) == Res(m, op)
    requires Expr2(e, m) == b
    ensures Expression(e, s) == Res(b.st, if Compare(op, a.val, b.val) then 1 else 0)
  {
    hide Expr2, ScanWords, Buffers;
  }

  lemma AtParen(e: Env, s: St)
    requires Ready(e, s) && Cur(e, s) == OPEN
    ensures Expr4(e, s) == Paren(e, s)
  {
    hide Paren, Function, Literal, ScanWords, Buffers;
  }

  /** A parenthesised expression is an atom with the value of the expression. */
  lemma InParens(e: Env, s: St, r: Res<u32>, n: nat, len: nat)
    requires Ready(e, s) && Cur(e, s) == OPEN
    requires Expression(e, Step(s)) == r
    ensures Sticks(r.st, Expr4(e, s).st)
    ensures Ran(e, Step(s), r.st, n, len) && Cur(e, r.st) == CLOSE ==>
              && Expr4(e, s) == Res(Step(r.st), r.val) && Ran(e, s, Step(r.st), n, len + 2)
              && Step(r.st).seed == r.st.seed
  {
    hide Expr4, Expression, Blanks, Buffers, Ran;
    AtParen(e, s);
    if Ran(e, Step(s), r.st, n, len) && Cur(e, r.st) == CLOSE {
      RanStep(e, s);
      RanReady(e, Step(s), r.st, n, len);
      RanStep(e, r.st);
      RanTrans(e, s, Step(s), r.st, 0, 1, n, len);
      RanTrans(e, s, r.st, Step(r.st), n, 1 + len, 0, 1);
    }
  }

  /** s to t1, one byte, then on to t. */
  lemma RanOver(e: Env, s: St, t1: St, t: St, n: nat, len: nat, n': nat, len': nat)
    requires Ready(e, s) && Ran(e, s, t1, n, len) && Cur(e, t1) != NL && Ran(e, Step(t1), t, n', len')
    ensures Ran(e, s, t, n + n', len + 1 + len')
  {
    RanStep(e, t1);
    RanTrans(e, s, t1, Step(t1), n, len, 0, 1);
    RanTrans(e, s, Step(t1), t, n, len + 1, n', len');
  }

  lemma NegReady(e: Env, s: St, b: Res<u32>)
    requires Ready(e, s) && Cur(e, s) == MINUS && Expr3(e, Step(s)) == b
    ensures EnvOk(e) && StOk(e, s) && StOk(e, b.st) && (!b.st.err ==> Ready(e, b.st))
    ensures OpByte(Sub) == MINUS && Apply(Sub, 0, b.val) == Wrap(0 - b.val)
  {
    hide Expr3, Buffers;
  }

  lemma SticksTrans(s: St, t: St, u: St)
    requires Sticks(s, t) && Sticks(t, u)
    ensures Sticks(s, u)
  {
  }

  lemma SticksSelf(s: St)
    ensures Sticks(s, s)
  {
  }

  /** An expression that starts with a minus sign is zero minus its first term. */
  lemma SignedSum(e: Env, s: St, b: Res<u32>)
    requires Ready(e, s) && Cur(e, s) == MINUS && Expr3(e, Step(s)) == b
    ensures Sticks(b.st, Expression(e, s).st)
    ensures !b.st.err && Cur(e, b.st) == CLOSE ==> Expression(e, s) == Res(b.st, Wrap(0 - b.val))
  {
    hide *;
    FollowFacts(CLOSE);
    NegReady(e, s, b);
    SignFirst(e, s);
    SumTurn(e, s, 0, Sub, b);
    OnlySum(e, s, Expr2(e, s));
    SticksTrans(b.st, Expr2(e, s).st, Expression(e, s).st);
    if !b.st.err && Cur(e, b.st) == CLOSE {
      SumEnds(e, b.st, Wrap(0 - b.val));
    }
  }

  /** On a relation and its right operand. */
  lemma ReadsRelop(e: Env, s: St, op: nat, b: seq<byte>, c: byte) returns (t: St)
    requires op < |RELOPS| && Reads(e, s, RELOPS[op] + b, c) && b != [] && Starts(b[0])
    ensures Words(RELOPS) && EnvOk(e) && StOk(e, s) && ScanWords(e, s, RELOPS) == Res(t, op)
    ensures Reads(e, t, b, c) && Ran(e, s, t, 0, |RELOPS[op]|) && StOk(e, t) && t.seed == s.seed
  {
    hide ScanWords;
    t := s.(pos := s.pos + |RELOPS[op]|);
    ReadsSplit(e, s, RELOPS[op], b, c);
    FindsRelop(e, s, op);
  }

  // ------------------------------------------------------------ string results

  /** r points to the string v and stays so for the next `life` allocations. */
  ghost predicate Holds(e: Env, s: St, r: Ref, v: seq<byte>, life: nat) {
    && EnvOk(e) && StOk(e, s) && RefOk(r) && !r.NoString?
    && CStr(Deref(e, s, r)) == v
    && (r.Temp? ==> Age(s, r.k) >= life)
  }

  lemma HoldsAfter(e: Env, s: St, t: St, r: Ref, v: seq<byte>, life: nat, n: nat, len: nat)
    requires Holds(e, s, r, v, life) && Ran(e, s, t, n, len) && n <= life
    ensures Holds(e, t, r, v, life - n)
  {
    hide Age, CBuffer;
    if r.Temp? {
      Ages(s, t, r.k, n);
    }
  }

  lemma NewTempHolds(e: Env, s: St, data: seq<byte>)
    requires Ready(e, s) && |data| < STRVAR_LEN && 0 !in data
    ensures var r := NewTemp(e, s, data); Ran(e, s, r.st, 1, 0) && Holds(e, r.st, r.val, data, 3) && r.st.seed == s.seed
  {
    CStrPrefix(data, s.temps[s.next][|data| + 1..]);
  }

  // ------------------------------------------------------------ function calls

  lemma FunctionIs(e: Env, s: St)
    requires Ready(e, s) && IsUpper(Cur(e, s)) && IsUpper(e.line[s.pos + 1])
    ensures Expr4(e, s) == Function(e, s)
  {
    hide Function, Paren, Literal, ScanWords, Buffers;
  }

  /** A call of LEN or ASC. */
  lemma StringCallIs(e: Env, s: St, f: nat, m: St)
    requires Ready(e, s) && (f == FUNC_LEN || f == FUNC_ASC)
    requires Words(FUNCS) && ScanWords(e, s, FUNCS) == Res(m, f) && Cur(e, m) == OPEN
    ensures Function(e, s) == StringFunction(e, Step(m), f)
  {
    hide StringFunction, ScanWords, Expression, NumberFunction, Buffers;
  }

  /** Its result, once the argument is known. */
  lemma StringFunctionIs(e: Env, s: St, f: nat, a: Res<Ref>, v: seq<byte>)
    requires Ready(e, s) && StrExpr(e, s) == a
    ensures Sticks(a.st, StringFunction(e, s, f).st)
    ensures !a.st.err && Cur(e, a.st) == CLOSE && Holds(e, a.st, a.val, v, 3) ==>
      StringFunction(e, s, f) == Res(Step(a.st), if f == FUNC_LEN then |v| else if v == [] then 0 else v[0])
  {
    hide StrExpr, Buffers;
  }

  /** A call of PEEK, ABS or RND, once the argument is known. */
  lemma NumberCallIs(e: Env, s: St, f: nat, m: St, a: Res<u32>)
    requires Ready(e, s) && (f == FUNC_PEEK || f == FUNC_ABS || f == FUNC_RND)
    requires Words(FUNCS) && ScanWords(e, s, FUNCS) == Res(m, f) && Cur(e, m) == OPEN && Expression(e, Step(m)) == a
    ensures Sticks(a.st, Function(e, s).st)
    ensures Cur(e, a.st) == CLOSE ==> Function(e, s) == NumberFunction(e, Step(a.st), f, a.val)
  {
    hide StringFunction, ScanWords, Expression, NumberFunction, Buffers;
  }

  lemma NumberFunctionIs(e: Env, s: St, f: nat, v: u32)
    requires Ready(e, s) && (f == FUNC_PEEK || f == FUNC_ABS || f == FUNC_RND)
    ensures var r := NumberFunction(e, s, f, v);
            && (f == FUNC_RND && v == 0 ==> r.st.fault)
            && (!(f == FUNC_RND && v == 0) ==>
                  && Ran(e, s, r.st, 0, 0) && r.val == Called(e, s.seed, f, v)
                  && r.st.seed == if f == FUNC_RND then NextSeed(s.seed) else s.seed)
  {
    hide Paren, NextSeed, Buffers;
  }

  /** The cursor on a function name and its parenthesis. */
  lemma FindsCall(e: Env, s: St, f: nat, w: seq<byte>, c: byte) returns (m: St, t: St)
    requires f < |FUNCS| && Reads(e, s, FUNCS[f] + ([OPEN] + w), c)
    ensures Reads(e, t, w, c) && Ran(e, s, t, 0, |FUNCS[f]| + 1) && t.seed == s.seed
    ensures Ready(e, s) && EnvOk(e) && StOk(e, s) && StOk(e, t) && StOk(e, m) && t == Step(m)
    ensures Words(FUNCS) && ScanWords(e, s, FUNCS) == Res(m, f) && Cur(e, m) == OPEN && Expr4(e, s) == Function(e, s)
  {
    hide Expr4, Function, ScanWords;
    ReadsSplit(e, s, FUNCS[f], [OPEN] + w, c);
    FindsFunc(e, s, f);
    m := s.(pos := s.pos + |FUNCS[f]|);
    assert [OPEN] + w == [] + [OPEN] + w;
    ReadsRight(e, m, m, [], OPEN, w, c);
    t := Step(m);
    Split(e, s.pos, FUNCS[f][..1], FUNCS[f][1..]);
    assert FUNCS[f][..1] + FUNCS[f][1..] == FUNCS[f];
    FirstByte(e, s.pos, FUNCS[f]);
    FunctionIs(e, s);
  }

  // -------------------------------------------------------- string functions

  lemma {:induction false} QuotedReads(e: Env, p: nat, q: seq<byte>, n: nat)
    requires EnvOk(e) && QuoteText(q) && |q| + n < STRVAR_LEN
    requires Written(e, p, q) && e.line[p + |q|] == DQUOTE
    ensures Quoted(e.line, p, DQUOTE, n) == q
    decreases |q|
  {
    if q != [] {
      FirstByte(e, p, q);
      assert q == [q[0]] + q[1..];
      Split(e, p, [q[0]], q[1..]);
      QuotedReads(e, p + 1, q[1..], n + 1);
    }
  }

  lemma LiteralIs(e: Env, s: St, q: seq<byte>)
    requires Ready(e, s) && Cur(e, s) == DQUOTE && |q| < STRVAR_LEN
    requires s.pos + 1 + |q| < |e.line| && Quoted(e.line, s.pos + 1, DQUOTE, 0) == q
    requires e.line[s.pos + 1 + |q|] == DQUOTE
    ensures var m := NewTemp(e, s.(pos := s.pos + 1 + |q|), q);
            StrExpr(e, s) == Res(Step(m.st), m.val)
  {
    hide NewTemp, Quoted, StrExpr, Buffers;
    assert StrExpr(e, s) == StringLiteral(e, s) by {
      AtQuote(e, s);
    }
  }

  lemma AtQuote(e: Env, s: St)
    requires Ready(e, s) && Cur(e, s) == DQUOTE
    ensures StrExpr(e, s) == StringLiteral(e, s)
  {
    hide StringLiteral, ScanWords, FromNumber, Substring, StringVariable, Buffers;
  }

  lemma EvalQuote(e: Env, s: St, q: seq<byte>, c: byte) returns (t: St, r: Ref)
    requires QuoteText(q) && Reads(e, s, PrintS(Quote(q)), c)
    ensures EnvOk(e) && StOk(e, s)
    ensures Ran(e, s, t, 1, |PrintS(Quote(q))|) && StrExpr(e, s) == Res(t, r) && Holds(e, t, r, q, 3)
    ensures t.seed == s.seed
  {
    hide StrExpr, NewTemp, Quoted, Holds;
    assert PrintS(Quote(q)) == [] + [DQUOTE] + (q + [DQUOTE]);
    ReadsReady(e, s, PrintS(Quote(q)), c);
    ReadsRight(e, s, s, [], DQUOTE, q + [DQUOTE], c);
    ReadsSplit(e, Step(s), q, [DQUOTE], c);
    QuotedReads(e, s.pos + 1, q, 0);
    var u := s.(pos := s.pos + 1 + |q|);
    LiteralIs(e, s, q);
    var m := NewTemp(e, u, q);
    NewTempHolds(e, u, q);
    t, r := Step(m.st), m.val;
    RanTrans(e, s, u, m.st, 0, 1 + |q|, 1, 0);
    RanStep(e, m.st);
    RanTrans(e, s, m.st, t, 1, 1 + |q|, 0, 1);
    HoldsAfter(e, m.st, t, r, q, 3, 0, 1);
  }

  lemma VariableIs(e: Env, s: St, v: nat)
    requires Ready(e, s) && v < 26 && Cur(e, s) == 65 + v && s.pos + 2 < |e.line| && e.line[s.pos + 1] == DOLLAR
    ensures StrExpr(e, s) == Res(Step(Step(s)), StrVar(v)) && Ran(e, s, Step(Step(s)), 0, 2)
  {
    hide ScanWords, FromNumber, Substring, StringLiteral, Words, Pack;
    NoStrFunc(e, s);
  }

  lemma EvalSVar(e: Env, s: St, v: nat, c: byte) returns (t: St, r: Ref)
    requires v < 26 && Reads(e, s, PrintS(SVar(v)), c)
    ensures EnvOk(e) && StOk(e, s)
    ensures Ran(e, s, t, 0, |PrintS(SVar(v))|) && StrExpr(e, s) == Res(t, r) && Holds(e, t, r, CStr(e.strs[v]), 3)
    ensures t.seed == s.seed
  {
    hide StrExpr;
    assert PrintS(SVar(v)) == [] + [65 + v] + [DOLLAR];
    ReadsReady(e, s, PrintS(SVar(v)), c);
    ReadsRight(e, s, s, [], 65 + v, [DOLLAR], c);
    FirstByte(e, s.pos + 1, [DOLLAR]);
    VariableIs(e, s, v);
    t, r := Step(Step(s)), StrVar(v);
  }

  lemma StrCallIs(e: Env, s: St, f: nat, m: St)
    requires Ready(e, s) && IsUpper(Cur(e, s)) && f < |STRFUNCS|
    requires Words(STRFUNCS) && ScanWords(e, s, STRFUNCS) == Res(m, f) && Cur(e, m) == OPEN
    ensures StrExpr(e, s) ==
            if f == STRFUNC_CHR || f == STRFUNC_STR then FromNumber(e, Step(m), f) else Substring(e, Step(m), f)
  {
    hide ScanWords, FromNumber, Substring, StringLiteral, StringVariable, Words, Pack, Buffers;
  }

  /** The cursor on a string function name and its parenthesis: the evaluator goes on inside. */
  lemma CallsStrFunction(e: Env, s: St, f: nat, w: seq<byte>, c: byte) returns (t: St)
    requires f < |STRFUNCS| && Reads(e, s, STRFUNCS[f] + ([OPEN] + w), c)
    ensures Reads(e, t, w, c) && Ran(e, s, t, 0, |STRFUNCS[f]| + 1) && StOk(e, t) && StOk(e, s) && EnvOk(e)
    ensures t.seed == s.seed
    ensures StrExpr(e, s) == if f == STRFUNC_CHR || f == STRFUNC_STR then FromNumber(e, t, f) else Substring(e, t, f)
  {
    hide StrExpr, FromNumber, Substring, ScanWords;
    ReadsSplit(e, s, STRFUNCS[f], [OPEN] + w, c);
    FindsStrFunc(e, s, f);
    var m := s.(pos := s.pos + |STRFUNCS[f]|);
    assert [OPEN] + w == [] + [OPEN] + w;
    ReadsRight(e, m, m, [], OPEN, w, c);
    t := Step(m);
    FirstByte(e, s.pos, STRFUNCS[f]);
    StrCallIs(e, s, f, m);
  }

  // ------------------------------------------------------------- CHR$ and STR$

  function NumberText(f: nat, v: u32): (r: seq<byte>)
    ensures |r| < STRVAR_LEN
  {
    SignedDigitsFit(v);
    if f == STRFUNC_CHR then [v % 256] else SignedDigits(Signed(v))
  }

  lemma FromNumberIs(e: Env, s: St, f: nat, p: Res<u32>)
    requires Ready(e, s) && Expression(e, s) == p
    ensures Sticks(p.st, FromNumber(e, s, f).st)
    ensures !p.st.err && Cur(e, p.st) == CLOSE ==>
      StOk(e, Step(p.st)) && FromNumber(e, s, f) == NewTemp(e, Step(p.st), NumberText(f, p.val))
  {
    hide Expression, NewTemp, SignedDigits, Buffers;
  }

  lemma NoNulDigits(n: int)
    ensures 0 !in SignedDigits(n)
  {
  }

  // ------------------------------------------------------ LEFT$, RIGHT$, MID$

  lemma SubstringIs(e: Env, s: St, f: nat, src: Res<Ref>, p: Res<u32>)
    requires Ready(e, s) && StrExpr(e, s) == src
    ensures Sticks(src.st, Substring(e, s, f).st)
    ensures !src.st.err && Cur(e, src.st) == COMMA && Expression(e, Step(src.st)) == p ==>
      && Sticks(p.st, Substring(e, s, f).st)
      && (!p.st.err ==>
            Substring(e, s, f) ==
            if f == STRFUNC_MID then Middle(e, p.st, src.val, Signed(p.val)) else OneSide(e, p.st, src.val, f, p.val))
  {
    hide StrExpr, Expression, Middle, OneSide, Buffers;
  }

  lemma PartsOfC(b: seq<byte>, v: seq<byte>, n: u32)
    requires CStr(b) == v && |v| < STRVAR_LEN
    ensures LeftBytes(b, n) == LeftPart(v, Signed(n)) && RightBytes(b, n) == RightPart(v, Signed(n))
    ensures 0 !in LeftPart(v, Signed(n)) && 0 !in RightPart(v, Signed(n))
  {
    CStrBytes(b);
  }

  /** The end of LEFT$ or RIGHT$, its arguments known. */
  lemma OneSideEnds(e: Env, s: St, src: Ref, v: seq<byte>, life: nat, f: nat, n: u32) returns (t: St, r: Ref)
    requires Ready(e, s) && Cur(e, s) == CLOSE && Holds(e, s, src, v, life) && |v| < STRVAR_LEN
    ensures OneSide(e, s, src, f, n) == Res(t, r)
    ensures Ran(e, s, t, 1, 1) && t.seed == s.seed
    ensures Holds(e, t, r, if f == STRFUNC_LEFT then LeftPart(v, Signed(n)) else RightPart(v, Signed(n)), 3)
  {
    hide NewTemp, LeftPart, RightPart, LeftBytes, RightBytes, Buffers;
    RanStep(e, s);
    HoldsAfter(e, s, Step(s), src, v, life, 0, 1);
    PartsOfC(Deref(e, Step(s), src), v, n);
    var data := if f == STRFUNC_LEFT then LeftPart(v, Signed(n)) else RightPart(v, Signed(n));
    NewTempHolds(e, Step(s), data);
    var m := NewTemp(e, Step(s), data);
    t, r := m.st, m.val;
    RanTrans(e, s, Step(s), t, 0, 1, 1, 0);
  }

  lemma MiddleOfC(b: seq<byte>, v: seq<byte>, p: int, n: int)
    requires CStr(b) == v && |v| < STRVAR_LEN
    ensures MidBytes(b, |v|, p, n) == MidPart(v, p, n) && 0 !in MidPart(v, p, n)
  {
    CStrBytes(b);
    hide CStr;
    var a := if p < 1 then 1 else p;
    if a <= |v| {
      SlicePart(b, v, a - 1, Clamp(n, |v| - (a - 1)));
    }
  }

  lemma SlicePart(b: seq<byte>, v: seq<byte>, i: nat, m: nat)
    requires |v| <= |b| && v == b[..|v|] && 0 !in v && i + m <= |v|
    ensures b[i..i + m] == v[i..][..m] && 0 !in v[i..][..m]
  {
    var part := v[i..][..m];
    assert part == v[i..i + m];
    forall k | 0 <= k < m ensures part[k] != 0 {
      assert part[k] == v[i + k];
    }
  }

  /** The end of MID$, its numbers known. */
  lemma MiddleEnds(e: Env, s: St, src: Ref, v: seq<byte>, life: nat, p: int, n: int) returns (t: St, r: Ref)
    requires Ready(e, s) && Cur(e, s) == CLOSE && Holds(e, s, src, v, life) && |v| < STRVAR_LEN
    requires !MidOverflows(|v|, if p < 1 then 1 else p, n)
    ensures |v| < |Deref(e, s, src)| && MiddleEnd(e, s, src, |v|, p, n) == Res(t, r)
    ensures Ran(e, s, t, 1, 1) && Holds(e, t, r, MidPart(v, p, n), 3) && t.seed == s.seed
  {
    hide NewTemp, MidPart, MidBytes, MidOverflows, Buffers;
    RanStep(e, s);
    HoldsAfter(e, s, Step(s), src, v, life, 0, 1);
    MiddleOfC(Deref(e, Step(s), src), v, p, n);
    NewTempHolds(e, Step(s), MidPart(v, p, n));
    var m := NewTemp(e, Step(s), MidPart(v, p, n));
    t, r := m.st, m.val;
    RanTrans(e, s, Step(s), t, 0, 1, 1, 0);
  }

  /** ... and overflowing. */
  lemma MiddleFaults(e: Env, s: St, src: Ref, v: seq<byte>, life: nat, p: int, n: int)
    requires Ready(e, s) && Cur(e, s) == CLOSE && Holds(e, s, src, v, life) && |v| < STRVAR_LEN
    requires MidOverflows(|v|, if p < 1 then 1 else p, n)
    ensures |v| < |Deref(e, s, src)| && MiddleEnd(e, s, src, |v|, p, n).st.fault
  {
    hide NewTemp, MidBytes, MidOverflows, Buffers;
  }

  /** MID$ with and without a length. */
  lemma MiddleIs(e: Env, s: St, src: Ref, v: seq<byte>, life: nat, p: int)
    requires Ready(e, s) && Holds(e, s, src, v, life) && |v| < STRVAR_LEN
    ensures Cur(e, s) == CLOSE ==>
      |v| < |Deref(e, s, src)| && Middle(e, s, src, p) == MiddleEnd(e, s, src, |v|, p, |v|)
    ensures Cur(e, s) == COMMA ==>
      var q := Expression(e, Step(s));
      && Sticks(q.st, Middle(e, s, src, p).st)
      && (!q.st.err ==>
            && |v| < |Deref(e, q.st, src)|
            && Middle(e, s, src, p) == MiddleEnd(e, q.st, src, |v|, p, Signed(q.val)))
  {
    hide Expression, MiddleEnd;
  }
}
