/** What each written form of an expression evaluates to, in terms of the bytes on the line and plain arithmetic. */
module BasicMeaning {
  import opened Ascii
  import opened Machine
  import opened BasicEval
  import opened BasicExpr
  import opened BasicSteps
  import opened BasicExprCorrect
  import opened BasicCases

  /** x can be written, and evaluates without an error or a fault from random seed k on. */
  ghost predicate Sound(e: Env, k: nat, x: Num) {
    EnvOk(e) && Formed(x) && Fitting(x) && !DivZero(e, k, x) && !Faults(e, k, x)
  }

  ghost predicate SoundS(e: Env, k: nat, a: Str) {
    EnvOk(e) && FormedS(a) && FittingS(a) && !DivZeroS(e, k, a) && !FaultsS(e, k, a)
  }

  /** The evaluator has read a number and is right behind the text w. */
  ghost predicate Gives(e: Env, s: St, w: seq<byte>, v: int, seed: nat)
    requires EnvOk(e) && StOk(e, s)
  {
    var r := Expression(e, s);
    !r.st.err && r.st.fault == s.fault && r.val == v && r.st.seed == seed && r.st.pos == s.pos + |w|
  }

  /** The same of a string. */
  ghost predicate GivesS(e: Env, s: St, w: seq<byte>, v: seq<byte>, seed: nat)
    requires EnvOk(e) && StOk(e, s)
  {
    var r := StrExpr(e, s);
    && !r.st.err && r.st.fault == s.fault && r.st.seed == seed && r.st.pos == s.pos + |w|
    && CStr(Deref(e, r.st, r.val)) == v
  }

  lemma NumberGives(e: Env, s: St, x: Num, w: seq<byte>, c: byte)
    requires Sound(e, s.seed, x) && w == Print(x, 0) && Reads(e, s, w, c) && AfterAll(c)
    ensures EnvOk(e) && StOk(e, s) && Gives(e, s, w, NumVal(e, s.seed, x), SeedAfter(s.seed, x))
  {
    hide Expression, NumVal, Print, Fitting, DivZero, Faults, AfterAll;
    ExpressionCorrect(e, s, x, c);
  }

  lemma StringGives(e: Env, s: St, a: Str, w: seq<byte>, c: byte)
    requires SoundS(e, s.seed, a) && w == PrintS(a) && Reads(e, s, w, c)
    ensures EnvOk(e) && StOk(e, s) && GivesS(e, s, w, StrVal(e, s.seed, a), SeedAfterS(s.seed, a))
  {
    hide StrExpr, StrVal, PrintS, FittingS, DivZeroS, FaultsS, CStr, Deref;
    StringCorrect(e, s, a, c);
  }

  // ----------------------------------------------------------------- numbers

  /** Whether a and b are in the relation written w. */
  predicate InRelation(w: seq<byte>, a: int, b: int) {
    if 33 in w then a != b else (62 in w && a > b) || (60 in w && a < b) || (61 in w && a == b)
  }

  lemma RelopOf(w: seq<byte>) returns (op: nat)
    requires w in {[62, 61], [60, 62], [62], [61], [60, 61], [60], [33, 61]}
    ensures op < |RELOPS| && RELOPS[op] == w
    ensures forall a: u32, b: u32 :: Compare(op, a, b) <==> InRelation(w, a, b)
  {
    op :=
      if w == [62, 61] then 0 else if w == [60, 62] then 1 else if w == [62] then 2 else if w == [61] then 3
      else if w == [60, 61] then 4 else if w == [60] then 5 else 6;
  }

  /** A relation gives 1 or 0: whether its operands, taken unsigned, are in the relation written. */
  lemma RelationGives(e: Env, s: St, l: Num, w: seq<byte>, r: Num, c: byte)
    requires Sound(e, s.seed, l) && Sound(e, SeedAfter(s.seed, l), r) && AfterAll(c)
    requires w in {[62, 61], [60, 62], [62], [61], [60, 61], [60], [33, 61]}
    requires Reads(e, s, Print(l, 2) + w + Print(r, 2), c)
    ensures EnvOk(e) && StOk(e, s)
    ensures var a, k := NumVal(e, s.seed, l), SeedAfter(s.seed, l);
            var v := if InRelation(w, a, NumVal(e, k, r)) then 1 else 0;
            Gives(e, s, Print(l, 2) + w + Print(r, 2), v, SeedAfter(k, r))
  {
    hide Compare, Reads, Gives, InRelation;
    var op := RelopOf(w);
    RelFacts(e, s.seed, op, l, r);
    NumberGives(e, s, Rel(op, l, r), Print(l, 2) + w + Print(r, 2), c);
  }

  /** What the sign o makes of a and b, for a nonzero b behind a slash. */
  function Combined(o: byte, a: int, b: int): int
    requires o in {42, 43, 45, 47} && (o == 47 ==> b != 0)
  {
    if o == 43 then (a + b) % 4294967296 else if o == 45 then (a - b) % 4294967296
    else if o == 42 then a * b % 4294967296 else a / b
  }

  lemma OperatorOf(o: byte, a: u32, b: u32) returns (op: BinOp)
    requires o in {42, 43, 45, 47}
    ensures op == if o == 43 then Add else if o == 45 then Sub else if o == 42 then Mul else Div
    ensures (op in {Add, Sub} <==> o in {43, 45}) && (op == Div <==> o == 47) && OpByte(op) == o
    ensures !(o == 47 && b == 0) ==> Apply(op, a, b) == Combined(o, a, b)
  {
    op := if o == 43 then Add else if o == 45 then Sub else if o == 42 then Mul else Div;
    if o == 47 && b != 0 {
      hide Wrap;
      QuotientKept(a, b);
    }
  }

  lemma QuotientKept(a: u32, b: u32)
    requires b != 0
    ensures 0 <= a / b && Wrap(a / b) == a / b
  {
    QuotientSmall(a, b);
  }

  lemma QuotientSmall(a: nat, b: nat)
    requires b > 0
    ensures 0 <= a / b <= a
  {
    var q, r := a / b, a % b;
    Products(q, b - 1);
    assert a == q * b + r;
  }

  lemma Products(q: nat, m: nat)
    ensures q * (m + 1) == q * m + q && q * m >= 0
  {
  }

  /** Sums, differences and products are taken modulo 2^32, and a quotient is rounded down; a zero divisor is an
      error. */
  lemma ArithmeticGives(e: Env, s: St, l: Num, o: byte, r: Num, p: nat, c: byte)
    requires Sound(e, s.seed, l) && Sound(e, SeedAfter(s.seed, l), r) && AfterAll(c)
    requires (o in {43, 45} && p == 2) || (o in {42, 47} && p == 3)
    requires Reads(e, s, Print(l, p) + [o] + Print(r, p + 1), c)
    ensures EnvOk(e) && StOk(e, s)
    ensures var a, k := NumVal(e, s.seed, l), SeedAfter(s.seed, l);
            var b := NumVal(e, k, r);
            if o == 47 && b == 0 then Expression(e, s).st.err
            else Gives(e, s, Print(l, p) + [o] + Print(r, p + 1), Combined(o, a, b), SeedAfter(k, r))
  {
    hide Reads, Gives, Print, Combined, Apply, Expression, NumVal, DivZero, Faults, AfterAll, OpByte;
    var a, b := NumVal(e, s.seed, l), NumVal(e, SeedAfter(s.seed, l), r);
    var op := OperatorOf(o, a, b);
    var x, w := Bin(op, l, r), Print(l, p) + [o] + Print(r, p + 1);
    BinaryText(op, l, r);
    BinFacts(e, s.seed, op, l, r);
    ReadsReady(e, s, w, c);
    if op == Div && b == 0 {
      ExpressionCorrect(e, s, x, c);
    } else {
      NumberGives(e, s, x, w, c);
    }
  }

  lemma BinaryText(op: BinOp, l: Num, r: Num)
    requires Formed(l) && Formed(r)
    ensures var p := if op in {Add, Sub} then 2 else 3;
            Print(Bin(op, l, r), 0) == Print(l, p) + [OpByte(op)] + Print(r, p + 1)
  {
    hide Print;
    assert Print(Bin(op, l, r), 0) == Body(Bin(op, l, r)) by {
      AtTop(Bin(op, l, r));
    }
  }

  /** At the outermost level nothing needs parentheses. */
  lemma AtTop(x: Num)
    requires Formed(x)
    ensures Print(x, 0) == Body(x)
  {
    hide Body;
  }

  lemma NegationText(y: Num)
    requires Formed(y)
    ensures Print(Neg(y), 0) == [40, 45] + Print(y, 3) + [41]
  {
    hide Print;
    AtTop(Neg(y));
  }

  lemma NegationSound(e: Env, k: nat, y: Num)
    requires Sound(e, k, y)
    ensures Sound(e, k, Neg(y)) && SeedAfter(k, Neg(y)) == SeedAfter(k, y)
    ensures var a := NumVal(e, k, y); NumVal(e, k, Neg(y)) == if a == 0 then 0 else 4294967296 - a
  {
    NegFacts(e, k, y);
  }

  /** A minus sign takes the two's complement. */
  lemma NegationGives(e: Env, s: St, y: Num, c: byte)
    requires Sound(e, s.seed, y) && AfterAll(c) && Reads(e, s, [40, 45] + Print(y, 3) + [41], c)
    ensures EnvOk(e) && StOk(e, s)
    ensures var a := NumVal(e, s.seed, y);
            Gives(e, s, [40, 45] + Print(y, 3) + [41], if a == 0 then 0 else 4294967296 - a, SeedAfter(s.seed, y))
  {
    hide Reads, Gives, Print, Expression, NumVal, DivZero, Faults, Fitting, AfterAll, SeedAfter;
    NegationText(y);
    NegationSound(e, s.seed, y);
    NumberGives(e, s, Neg(y), [40, 45] + Print(y, 3) + [41], c);
  }

  /** A number in digits is taken modulo 2^32. */
  lemma DigitsGive(e: Env, s: St, n: nat, c: byte)
    requires EnvOk(e) && Reads(e, s, Digits(n), c) && AfterAll(c)
    ensures EnvOk(e) && StOk(e, s) && Gives(e, s, Digits(n), n % 4294967296, s.seed)
  {
    hide Reads, Gives, Digits;
    NumberGives(e, s, Lit(n), Digits(n), c);
  }

  /** A letter from A on is its variable. */
  lemma VariableGives(e: Env, s: St, v: nat, c: byte)
    requires EnvOk(e) && v < 26 && Reads(e, s, [65 + v], c) && AfterAll(c)
    ensures EnvOk(e) && StOk(e, s) && Gives(e, s, [65 + v], e.vars[v], s.seed)
  {
    hide Reads, Gives;
    NumberGives(e, s, Var(v), [65 + v], c);
  }

  lemma CallText1(f: nat, y: Num)
    requires Formed(y) && f in {0, 1, 4}
    ensures Formed(Call(f, y))
    ensures var w: seq<byte> :=
              if f == 0 then [80, 69, 69, 75, 40] else if f == 1 then [65, 66, 83, 40] else [82, 78, 68, 40];
            Print(Call(f, y), 0) == w + Print(y, 0) + [41]
  {
    hide Print;
    AtTop(Call(f, y));
  }

  /** PEEK( ) reads memory, and ABS( ) gives back its argument, which it takes as unsigned. */
  lemma PeekAbsGives(e: Env, s: St, w: seq<byte>, y: Num, c: byte)
    requires Sound(e, s.seed, y) && AfterAll(c) && Reads(e, s, w + Print(y, 0) + [41], c)
    requires w in {[80, 69, 69, 75, 40], [65, 66, 83, 40]}
    ensures EnvOk(e) && StOk(e, s)
    ensures var a := NumVal(e, s.seed, y);
            Gives(e, s, w + Print(y, 0) + [41], if w[0] == 80 then e.peek(a) else a, SeedAfter(s.seed, y))
  {
    hide Reads, Gives, Print, NumVal, DivZero, Faults;
    var f := if w[0] == 80 then 0 else 1;
    CallText1(f, y);
    CallFacts(e, s.seed, f, y);
    NumberGives(e, s, Call(f, y), w + Print(y, 0) + [41], c);
  }

  lemma Drawn(e: Env, k: nat, v: u32)
    ensures NextSeed(k) == (k * 1103515245 + 12345) % 2147483648
    ensures v != 0 ==> Called(e, k, 4, v) == NextSeed(k) / 65536 % 32768 % v
  {
  }

  lemma CallSound(e: Env, k: nat, y: Num)
    requires Sound(e, k, y)
    ensures Formed(Call(4, y)) && Fitting(Call(4, y))
  {
    hide DivZero, Faults;
  }

  /** RND( ) of zero faults. Otherwise the seed takes one step, and its bits 16 to 30 are reduced below the
      argument. */
  lemma RndGives(e: Env, s: St, y: Num, c: byte)
    requires Sound(e, s.seed, y) && AfterAll(c) && Reads(e, s, [82, 78, 68, 40] + Print(y, 0) + [41], c)
    ensures EnvOk(e) && StOk(e, s)
    ensures var a, k := NumVal(e, s.seed, y), (SeedAfter(s.seed, y) * 1103515245 + 12345) % 2147483648;
            if a == 0 then Expression(e, s).st.fault
            else Gives(e, s, [82, 78, 68, 40] + Print(y, 0) + [41], k / 65536 % 32768 % a, k)
  {
    hide Reads, Gives, Print, NumVal, DivZero, Faults, NextSeed, Called, Body, Expression, Formed, Fitting;
    CallText1(4, y);
    CallFacts(e, s.seed, 4, y);
    Drawn(e, SeedAfter(s.seed, y), NumVal(e, s.seed, y));
    ReadsReady(e, s, [82, 78, 68, 40] + Print(y, 0) + [41], c);
    CallSound(e, s.seed, y);
    if NumVal(e, s.seed, y) == 0 {
      ExpressionCorrect(e, s, Call(4, y), c);
    } else {
      NumberGives(e, s, Call(4, y), [82, 78, 68, 40] + Print(y, 0) + [41], c);
    }
  }

  /** LEN( ) counts the characters, and ASC( ) is the first of them, or 0. */
  lemma LenAscGives(e: Env, s: St, w: seq<byte>, a: Str, c: byte)
    requires SoundS(e, s.seed, a) && AfterAll(c) && Reads(e, s, w + PrintS(a) + [41], c)
    requires w in {[76, 69, 78, 40], [65, 83, 67, 40]}
    ensures EnvOk(e) && StOk(e, s)
    ensures var t := StrVal(e, s.seed, a);
            var v := if w[0] == 76 then |t| else if t == [] then 0 else t[0];
            Gives(e, s, w + PrintS(a) + [41], v, SeedAfterS(s.seed, a))
  {
    hide Reads, Gives, PrintS, StrVal, DivZeroS, FaultsS;
    var x := if w[0] == 76 then Len(a) else Asc(a);
    AtTop(x);
    NumberGives(e, s, x, w + PrintS(a) + [41], c);
  }

  // ----------------------------------------------------------------- strings

  /** A 32-bit word as a signed number. */
  function AsLong(a: u32): int { if a < 2147483648 then a else a - 4294967296 }

  function Bounded(n: int, hi: nat): (r: nat)
    ensures r <= hi
  {
    if n < 0 then 0 else if n < hi then n else hi
  }

  /** The conversion between signed and unsigned 32-bit numbers loses nothing. */
  lemma SignedRoundTrip(x: int)
    requires -2147483648 <= x < 2147483648
    ensures 0 <= Wrap(x) < 4294967296 && Signed(Wrap(x)) == x == AsLong(x % 4294967296)
  {
  }

  /** A quoted literal gives its bytes when they are at most 39; with more, and nothing else wrong, it is an error. */
  lemma LiteralGives(e: Env, s: St, q: byte, t: seq<byte>, c: byte)
    requires EnvOk(e) && q in {34, 39} && Reads(e, s, [q] + t + [q], c)
    requires forall i :: 0 <= i < |t| ==> t[i] !in {0, 10, q}
    ensures EnvOk(e) && StOk(e, s)
    ensures if |t| <= 39 then GivesS(e, s, [q] + t + [q], t, s.seed) else StrExpr(e, s).st.err
  {
    hide Reads, StrExpr, StringLiteral, Quoted, NewTemp, CStr, Buffers, Written;
    OnQuote(e, s, q, t, c);
    QuotedIs(e, s.pos + 1, q, t, 0);
    AtQuote(e, s, q);
    var data := if |t| <= 39 then t else t[..39];
    var u := s.(pos := s.pos + 1 + |data|);
    TempHolds(e, u, data);
    if |t| > 39 {
      assert e.line[u.pos] == t[39];
    }
    StringLiteralIs(e, s, q, data);
  }

  lemma OnQuote(e: Env, s: St, q: byte, t: seq<byte>, c: byte)
    requires EnvOk(e) && Reads(e, s, [q] + t + [q], c)
    ensures Ready(e, s) && StOk(e, s) && e.line[s.pos] == q && s.pos + 2 + |t| < |e.line|
    ensures Written(e, s.pos + 1, t) && e.line[s.pos + 1 + |t|] == q
    ensures forall i :: 0 <= i < |t| ==> e.line[s.pos + 1 + i] == t[i]
  {
    var w := [q] + t + [q];
    FirstByte(e, s.pos, w);
    assert w == [q] + (t + [q]);
    Split(e, s.pos, [q], t + [q]);
    Split(e, s.pos + 1, t, [q]);
  }

  lemma AtQuote(e: Env, s: St, q: byte)
    requires Ready(e, s) && Cur(e, s) == q && q in {34, 39}
    ensures StrExpr(e, s) == StringLiteral(e, s)
  {
    hide StringLiteral, ScanWords, FromNumber, Substring, StringVariable, Buffers;
  }

  lemma {:induction false} QuotedIs(e: Env, p: nat, q: byte, t: seq<byte>, n: nat)
    requires EnvOk(e) && n < 40 && p + |t| < |e.line| && e.line[p + |t|] == q
    requires forall i :: 0 <= i < |t| ==> e.line[p + i] == t[i] && t[i] !in {10, q}
    ensures Quoted(e.line, p, q, n) == if |t| <= 39 - n then t else t[..39 - n]
    decreases |t|
  {
    hide EnvOk;
    NewlineEnds(e);
    if t != [] && n < 39 {
      forall i | 0 <= i < |t| - 1 ensures e.line[p + 1 + i] == t[1..][i] {
        assert e.line[p + (i + 1)] == t[i + 1];
      }
      assert e.line[p + 0] == t[0];
      QuotedIs(e, p + 1, q, t[1..], n + 1);
    }
  }

  lemma NewlineEnds(e: Env)
    requires EnvOk(e)
    ensures |e.line| > 0 && e.line[|e.line| - 1] == NL
  {
  }

  lemma TempHolds(e: Env, s: St, data: seq<byte>)
    requires Ready(e, s) && |data| < 40 && 0 !in data
    ensures EnvOk(e) && StOk(e, s)
    ensures var m := NewTemp(e, s, data);
            && m.st.pos == s.pos && !m.st.err && m.st.fault == s.fault && m.st.seed == s.seed
            && RefOk(m.val) && StOk(e, m.st) && CStr(Deref(e, m.st, m.val)) == data
            && CStr(Deref(e, Step(m.st).(pos := m.st.pos), m.val)) == data
  {
    CStrPrefix(data, s.temps[s.next][|data| + 1..]);
  }

  lemma StringLiteralIs(e: Env, s: St, q: byte, data: seq<byte>)
    requires Ready(e, s) && Cur(e, s) == q && q in {34, 39} && s.pos + 1 < |e.line|
    requires |data| < 40 && s.pos + 1 + |data| < |e.line| && Quoted(e.line, s.pos + 1, q, 0) == data
    ensures var m := NewTemp(e, s.(pos := s.pos + 1 + |data|), data);
            StringLiteral(e, s) == Res(Expect(e, m.st, q), m.val)
  {
    hide NewTemp, Quoted, Expect;
  }

  /** A letter and $ name a string variable. */
  lemma StringVariableGives(e: Env, s: St, v: nat, c: byte)
    requires EnvOk(e) && v < 26 && Reads(e, s, [65 + v, 36], c)
    ensures EnvOk(e) && StOk(e, s) && GivesS(e, s, [65 + v, 36], CStr(e.strs[v]), s.seed)
  {
    hide Reads, GivesS;
    StringGives(e, s, SVar(v), [65 + v, 36], c);
  }

  /** LEFT$ and RIGHT$: as many characters as the signed length says, none for a negative one, and all for one
      past the end. */
  lemma SideGives(e: Env, s: St, w: seq<byte>, a: Str, n: Num, c: byte)
    requires w in {[76, 69, 70, 84, 36, 40], [82, 73, 71, 72, 84, 36, 40]}
    requires SoundS(e, s.seed, a) && Sound(e, SeedAfterS(s.seed, a), n) && Allocs(n) <= 2
    requires Reads(e, s, w + PrintS(a) + [44] + Print(n, 0) + [41], c)
    ensures EnvOk(e) && StOk(e, s)
    ensures var t, k := StrVal(e, s.seed, a), SeedAfterS(s.seed, a);
            var m := Bounded(AsLong(NumVal(e, k, n)), |t|);
            GivesS(e, s, w + PrintS(a) + [44] + Print(n, 0) + [41], if w[0] == 76 then t[..m] else t[|t| - m..],
                   SeedAfter(k, n))
  {
    hide Reads, GivesS, PrintS, Print, NumVal, DivZero, Faults, Allocs;
    var b, f := if w[0] == 76 then Left(a, n) else Right(a, n), if w[0] == 76 then 0 else 1;
    CallText2(w, b, f, a, n);
    OneSideFacts(e, s.seed, b, a, n, f);
    ArgsFacts(e, s.seed, a, n);
    StringGives(e, s, b, w + PrintS(a) + [44] + Print(n, 0) + [41], c);
  }

  lemma CallText2(w: seq<byte>, b: Str, f: nat, a: Str, n: Num)
    requires f < 3 && w == STRFUNCS[f] + [40] && FormedS(a) && Formed(n)
    requires b == if f == 0 then Left(a, n) else if f == 1 then Right(a, n) else Mid(a, n)
    ensures PrintS(b) == w + PrintS(a) + [44] + Print(n, 0) + [41]
  {
    hide Print;
  }

  /** The part of t from its p-th character on, at most n characters of it; a start below 1 counts as 1. */
  function Part(t: seq<byte>, p: int, n: int): seq<byte> {
    var i := if p < 1 then 0 else p - 1;
    if i >= |t| then [] else t[i..i + Bounded(n, |t| - i)]
  }

  lemma PartIs(t: seq<byte>, p: int, n: int)
    ensures MidPart(t, p, n) == Part(t, p, n)
    ensures Part(t, p, |t|) == if p <= 1 then t else if p <= |t| then t[p - 1..] else []
  {
  }

  /** MID$ with two arguments runs to the end. */
  lemma MidGives(e: Env, s: St, a: Str, n: Num, c: byte)
    requires SoundS(e, s.seed, a) && Sound(e, SeedAfterS(s.seed, a), n) && Allocs(n) <= 2
    requires Reads(e, s, [77, 73, 68, 36, 40] + PrintS(a) + [44] + Print(n, 0) + [41], c)
    ensures EnvOk(e) && StOk(e, s)
    ensures var t, k := StrVal(e, s.seed, a), SeedAfterS(s.seed, a);
            GivesS(e, s, [77, 73, 68, 36, 40] + PrintS(a) + [44] + Print(n, 0) + [41],
                   Part(t, AsLong(NumVal(e, k, n)), |t|), SeedAfter(k, n))
  {
    hide Reads, GivesS, PrintS, Print, NumVal, DivZero, Faults, Allocs, Part, MidPart;
    var b, t, k := Mid(a, n), StrVal(e, s.seed, a), SeedAfterS(s.seed, a);
    CallText2([77, 73, 68, 36, 40], b, 2, a, n);
    MidFacts(e, s.seed, b, a, n);
    ArgsFacts(e, s.seed, a, n);
    PartIs(t, AsLong(NumVal(e, k, n)), |t|);
    StringGives(e, s, b, [77, 73, 68, 36, 40] + PrintS(a) + [44] + Print(n, 0) + [41], c);
  }

  lemma CallText4(a: Str, n: Num, m: Num)
    requires FormedS(a) && Formed(n) && Formed(m)
    ensures PrintS(MidLen(a, n, m)) == [77, 73, 68, 36, 40] + PrintS(a) + [44] + Print(n, 0) + [44] + Print(m, 0) + [41]
  {
    hide Print;
  }

  /** MID$ with three arguments. It faults when start and length together pass the largest long. */
  lemma MidLenGives(e: Env, s: St, a: Str, n: Num, m: Num, c: byte)
    requires SoundS(e, s.seed, a) && Sound(e, SeedAfterS(s.seed, a), n)
    requires Sound(e, SeedAfter(SeedAfterS(s.seed, a), n), m) && Allocs(n) + Allocs(m) <= 2
    requires Reads(e, s, [77, 73, 68, 36, 40] + PrintS(a) + [44] + Print(n, 0) + [44] + Print(m, 0) + [41], c)
    ensures EnvOk(e) && StOk(e, s)
    ensures var t, k1 := StrVal(e, s.seed, a), SeedAfterS(s.seed, a);
            var p, k2 := AsLong(NumVal(e, k1, n)), SeedAfter(k1, n);
            var i := AsLong(NumVal(e, k2, m));
            if p <= |t| && 0 < |t| && (if p < 1 then 0 else p - 1) + i >= 2147483648 then StrExpr(e, s).st.fault
            else GivesS(e, s, [77, 73, 68, 36, 40] + PrintS(a) + [44] + Print(n, 0) + [44] + Print(m, 0) + [41],
                        Part(t, p, i), SeedAfter(k2, m))
  {
    hide Reads, GivesS, PrintS, Print, NumVal, DivZero, Faults, Allocs, Part, MidPart, StrVal;
    var b, t, k1 := MidLen(a, n, m), StrVal(e, s.seed, a), SeedAfterS(s.seed, a);
    var p, k2 := AsLong(NumVal(e, k1, n)), SeedAfter(k1, n);
    var i := AsLong(NumVal(e, k2, m));
    var w := [77, 73, 68, 36, 40] + PrintS(a) + [44] + Print(n, 0) + [44] + Print(m, 0) + [41];
    CallText4(a, n, m);
    assert FormedS(b) && FittingS(b);
    MidLenFacts(e, s.seed, b, a, n, m);
    ArgsFacts(e, s.seed, a, n);
    PartIs(t, p, i);
    if FaultsS(e, s.seed, b) {
      StringCorrect(e, s, b, c);
    } else {
      StringGives(e, s, b, w, c);
    }
  }

  lemma CallTextN(w: seq<byte>, b: Str, n: Num)
    requires Formed(n) && w in {[67, 72, 82, 36, 40], [83, 84, 82, 36, 40]}
    requires b == if w[0] == 67 then Chr(n) else StrOf(n)
    ensures PrintS(b) == w + Print(n, 0) + [41]
  {
    hide Print;
  }

  /** CHR$ gives the character of the low byte, which ends the string when it is 0; STR$ gives the signed decimal
      digits. */
  lemma FromNumberGives(e: Env, s: St, w: seq<byte>, n: Num, c: byte)
    requires Sound(e, s.seed, n) && w in {[67, 72, 82, 36, 40], [83, 84, 82, 36, 40]}
    requires Reads(e, s, w + Print(n, 0) + [41], c)
    ensures EnvOk(e) && StOk(e, s)
    ensures var a := NumVal(e, s.seed, n);
            var v: seq<byte> :=
              if w[0] == 67 then (if a % 256 == 0 then [] else [a % 256])
              else if a < 2147483648 then Digits(a) else [45] + Digits(4294967296 - a);
            GivesS(e, s, w + Print(n, 0) + [41], v, SeedAfter(s.seed, n))
  {
    hide Reads, GivesS, PrintS, Print, NumVal, DivZero, Faults;
    var b, f := if w[0] == 67 then Chr(n) else StrOf(n), if w[0] == 67 then 3 else 4;
    CallTextN(w, b, n);
    FromNumberFacts(e, s.seed, b, n, f);
    StringGives(e, s, b, w + Print(n, 0) + [41], c);
  }

  /** STR$(0-5) is -5. */
  lemma MinusFiveIsWritten(e: Env, s: St)
    requires AtStart(e, s, [83, 84, 82, 36, 40, 48, 45, 53, 41])
    ensures EnvOk(e) && StOk(e, s) && GivesS(e, s, [83, 84, 82, 36, 40, 48, 45, 53, 41], [45, 53], s.seed)
  {
    var x := Bin(Sub, Lit(0), Lit(5));
    StartReads(e, s, e.line[..9]);
    DifferenceText();
    assert e.line[..9] == [83, 84, 82, 36, 40] + Print(x, 0) + [41];
    DigitsOfDigit(5);
    DifferenceValue(e, s.seed);
    hide GivesS, Reads, Print, Sound, NumVal;
    FromNumberGives(e, s, [83, 84, 82, 36, 40], x, 10);
  }

  lemma DifferenceText()
    ensures Print(Bin(Sub, Lit(0), Lit(5)), 0) == [48, 45, 53]
  {
    DigitsOfDigit(0);
    DigitsOfDigit(5);
    BinaryText(Sub, Lit(0), Lit(5));
    hide Digits;
    assert Print(Lit(0), 2) == [48] && Print(Lit(5), 3) == [53];
  }

  lemma DifferenceValue(e: Env, k: nat)
    requires EnvOk(e)
    ensures var x := Bin(Sub, Lit(0), Lit(5)); Sound(e, k, x) && NumVal(e, k, x) == 4294967291 && SeedAfter(k, x) == k
  {
    hide EnvOk;
    assert NumVal(e, k, Lit(0)) == 0 && NumVal(e, k, Lit(5)) == 5;
  }
}
