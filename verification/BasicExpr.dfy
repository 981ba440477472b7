/** Expression trees, their mathematical values, and how they are written. */
module BasicExpr {
  import opened Ascii
  import opened Machine
  import opened BasicEval

  datatype BinOp = Add | Sub | Mul | Div

  /** rel of Rel is an index into RELOPS, f of Call one of PEEK, ABS and RND in FUNCS. */
  datatype Num =
    | Lit(n: nat)
    | Var(v: nat)
    | Neg(x: Num)
    | Bin(op: BinOp, l: Num, r: Num)
    | Rel(rel: nat, l: Num, r: Num)
    | Call(f: nat, x: Num)
    | Len(s: Str)
    | Asc(s: Str)

  datatype Str =
    | Quote(t: seq<byte>)
    | SVar(v: nat)
    | Left(s: Str, n: Num)
    | Right(s: Str, n: Num)
    | Mid(s: Str, n: Num)
    | MidLen(s: Str, n: Num, m: Num)
    | Chr(n: Num)
    | StrOf(n: Num)

  predicate QuoteText(t: seq<byte>) {
    |t| < STRVAR_LEN && forall i :: 0 <= i < |t| ==> t[i] != NL && t[i] != DQUOTE && t[i] != 0
  }

  predicate Formed(x: Num) {
    match x
    case Lit(_) => true
    case Var(v) => v < 26
    case Neg(y) => Formed(y)
    case Bin(_, l, r) => Formed(l) && Formed(r)
    case Rel(op, l, r) => op < |RELOPS| && Formed(l) && Formed(r)
    case Call(f, y) => (f == FUNC_PEEK || f == FUNC_ABS || f == FUNC_RND) && Formed(y)
    case Len(s) => FormedS(s)
    case Asc(s) => FormedS(s)
  }

  predicate FormedS(s: Str) {
    match s
    case Quote(t) => QuoteText(t)
    case SVar(v) => v < 26
    case Left(a, n) => FormedS(a) && Formed(n)
    case Right(a, n) => FormedS(a) && Formed(n)
    case Mid(a, n) => FormedS(a) && Formed(n)
    case MidLen(a, n, m) => FormedS(a) && Formed(n) && Formed(m)
    case Chr(n) => Formed(n)
    case StrOf(n) => Formed(n)
  }

  // ----------------------------------------------------------------- values

  function Apply(op: BinOp, a: u32, b: u32): u32 {
    match op
    case Add => Wrap(a + b)
    case Sub => Wrap(a - b)
    case Mul => Wrap(a * b)
    case Div => if b == 0 then 0 else Wrap(a / b)
  }

  /** PEEK, ABS or RND of v when the random seed is k. ABS tests an unsigned value for being negative. */
  function Called(e: Env, k: nat, f: nat, v: u32): (r: u32) {
    if f == FUNC_PEEK then e.peek(v)
    else if f == FUNC_ABS then v
    else if v == 0 then 0
    else NextSeed(k) / 65536 % 0x8000 % v
  }

  /** The random seed once a tree has been evaluated from seed k: each RND draws once. */
  function SeedAfter(k: nat, x: Num): nat
    decreases x
  {
    match x
    case Lit(_) => k
    case Var(_) => k
    case Neg(y) => SeedAfter(k, y)
    case Bin(_, l, r) => SeedAfter(SeedAfter(k, l), r)
    case Rel(_, l, r) => SeedAfter(SeedAfter(k, l), r)
    case Call(f, y) => if f == FUNC_RND then NextSeed(SeedAfter(k, y)) else SeedAfter(k, y)
    case Len(s) => SeedAfterS(k, s)
    case Asc(s) => SeedAfterS(k, s)
  }

  function SeedAfterS(k: nat, s: Str): nat
    decreases s
  {
    match s
    case Quote(_) => k
    case SVar(_) => k
    case Left(a, n) => SeedAfter(SeedAfterS(k, a), n)
    case Right(a, n) => SeedAfter(SeedAfterS(k, a), n)
    case Mid(a, n) => SeedAfter(SeedAfterS(k, a), n)
    case MidLen(a, n, m) => SeedAfter(SeedAfter(SeedAfterS(k, a), n), m)
    case Chr(n) => SeedAfter(k, n)
    case StrOf(n) => SeedAfter(k, n)
  }

  /** The 32-bit unsigned value of a tree whose evaluation starts with random seed k. */
  function NumVal(e: Env, k: nat, x: Num): (r: u32)
    requires EnvOk(e) && Formed(x)
    decreases x
  {
    match x
    case Lit(n) => Wrap(n)
    case Var(v) => e.vars[v]
    case Neg(y) => Wrap(0 - NumVal(e, k, y))
    case Bin(op, l, r) => Apply(op, NumVal(e, k, l), NumVal(e, SeedAfter(k, l), r))
    case Rel(op, l, r) => if Compare(op, NumVal(e, k, l), NumVal(e, SeedAfter(k, l), r)) then 1 else 0
    case Call(f, y) => Called(e, SeedAfter(k, y), f, NumVal(e, k, y))
    case Len(s) => |StrVal(e, k, s)|
    case Asc(s) => if StrVal(e, k, s) == [] then 0 else StrVal(e, k, s)[0]
  }

  /** The first n characters, n taken as signed and cut to the length of t. */
  function LeftPart(t: seq<byte>, n: int): (r: seq<byte>)
    ensures |r| <= |t|
  {
    t[..Clamp(n, |t|)]
  }

  function RightPart(t: seq<byte>, n: int): (r: seq<byte>)
    ensures |r| <= |t|
  {
    t[|t| - Clamp(n, |t|)..]
  }

  /** Up to n characters from the 1-based position p on. */
  function MidPart(t: seq<byte>, p: int, n: int): (r: seq<byte>)
    ensures |r| <= |t|
  {
    var a := if p < 1 then 1 else p;
    if a > |t| then [] else LeftPart(t[a - 1..], n)
  }

  /** The string a tree stands for when its evaluation starts with random seed k. */
  function StrVal(e: Env, k: nat, s: Str): (r: seq<byte>)
    requires EnvOk(e) && FormedS(s)
    ensures |r| < STRVAR_LEN
    decreases s
  {
    match s
    case Quote(t) => t
    case SVar(v) => CStr(e.strs[v])
    case Left(a, n) => LeftPart(StrVal(e, k, a), Signed(NumVal(e, SeedAfterS(k, a), n)))
    case Right(a, n) => RightPart(StrVal(e, k, a), Signed(NumVal(e, SeedAfterS(k, a), n)))
    case Mid(a, n) => MidPart(StrVal(e, k, a), Signed(NumVal(e, SeedAfterS(k, a), n)), |StrVal(e, k, a)|)
    case MidLen(a, n, m) =>
      var k1 := SeedAfterS(k, a);
      MidPart(StrVal(e, k, a), Signed(NumVal(e, k1, n)), Signed(NumVal(e, SeedAfter(k1, n), m)))
    case Chr(n) => if NumVal(e, k, n) % 256 == 0 then [] else [NumVal(e, k, n) % 256]
    case StrOf(n) =>
      SignedDigitsFit(NumVal(e, k, n));
      SignedDigits(Signed(NumVal(e, k, n)))
  }

  /** Whether some divisor in the tree is zero. */
  predicate DivZero(e: Env, k: nat, x: Num)
    requires EnvOk(e) && Formed(x)
    decreases x
  {
    match x
    case Lit(_) => false
    case Var(_) => false
    case Neg(y) => DivZero(e, k, y)
    case Bin(op, l, r) =>
      DivZero(e, k, l) || DivZero(e, SeedAfter(k, l), r) || (op == Div && NumVal(e, SeedAfter(k, l), r) == 0)
    case Rel(_, l, r) => DivZero(e, k, l) || DivZero(e, SeedAfter(k, l), r)
    case Call(_, y) => DivZero(e, k, y)
    case Len(s) => DivZeroS(e, k, s)
    case Asc(s) => DivZeroS(e, k, s)
  }

  predicate DivZeroS(e: Env, k: nat, s: Str)
    requires EnvOk(e) && FormedS(s)
    decreases s
  {
    match s
    case Quote(_) => false
    case SVar(_) => false
    case Left(a, n) => DivZeroS(e, k, a) || DivZero(e, SeedAfterS(k, a), n)
    case Right(a, n) => DivZeroS(e, k, a) || DivZero(e, SeedAfterS(k, a), n)
    case Mid(a, n) => DivZeroS(e, k, a) || DivZero(e, SeedAfterS(k, a), n)
    case MidLen(a, n, m) =>
      var k1 := SeedAfterS(k, a);
      DivZeroS(e, k, a) || DivZero(e, k1, n) || DivZero(e, SeedAfter(k1, n), m)
    case Chr(n) => DivZero(e, k, n)
    case StrOf(n) => DivZero(e, k, n)
  }

  /** Whether the tree leads the firmware out of defined behaviour: a RND of zero, or a MID$ whose start and
      length overflow a long. */
  predicate Faults(e: Env, k: nat, x: Num)
    requires EnvOk(e) && Formed(x)
    decreases x
  {
    match x
    case Lit(_) => false
    case Var(_) => false
    case Neg(y) => Faults(e, k, y)
    case Bin(_, l, r) => Faults(e, k, l) || Faults(e, SeedAfter(k, l), r)
    case Rel(_, l, r) => Faults(e, k, l) || Faults(e, SeedAfter(k, l), r)
    case Call(f, y) => Faults(e, k, y) || (f == FUNC_RND && NumVal(e, k, y) == 0)
    case Len(s) => FaultsS(e, k, s)
    case Asc(s) => FaultsS(e, k, s)
  }

  predicate FaultsS(e: Env, k: nat, s: Str)
    requires EnvOk(e) && FormedS(s)
    decreases s
  {
    match s
    case Quote(_) => false
    case SVar(_) => false
    case Left(a, n) => FaultsS(e, k, a) || Faults(e, SeedAfterS(k, a), n)
    case Right(a, n) => FaultsS(e, k, a) || Faults(e, SeedAfterS(k, a), n)
    case Mid(a, n) => FaultsS(e, k, a) || Faults(e, SeedAfterS(k, a), n)
    case MidLen(a, n, m) =>
      var k1 := SeedAfterS(k, a);
      var p := Signed(NumVal(e, k1, n));
      || FaultsS(e, k, a) || Faults(e, k1, n) || Faults(e, SeedAfter(k1, n), m)
      || MidOverflows(|StrVal(e, k, a)|, if p < 1 then 1 else p, Signed(NumVal(e, SeedAfter(k1, n), m)))
    case Chr(n) => Faults(e, k, n)
    case StrOf(n) => Faults(e, k, n)
  }

  /** How many string temporaries evaluating a tree allocates. */
  function Allocs(x: Num): nat {
    match x
    case Lit(_) => 0
    case Var(_) => 0
    case Neg(y) => Allocs(y)
    case Bin(_, l, r) => Allocs(l) + Allocs(r)
    case Rel(_, l, r) => Allocs(l) + Allocs(r)
    case Call(_, y) => Allocs(y)
    case Len(s) => AllocsS(s)
    case Asc(s) => AllocsS(s)
  }

  function AllocsS(s: Str): nat {
    match s
    case Quote(_) => 1
    case SVar(_) => 0
    case Left(a, n) => AllocsS(a) + Allocs(n) + 1
    case Right(a, n) => AllocsS(a) + Allocs(n) + 1
    case Mid(a, n) => AllocsS(a) + Allocs(n) + 1
    case MidLen(a, n, m) => AllocsS(a) + Allocs(n) + Allocs(m) + 1
    case Chr(n) => Allocs(n) + 1
    case StrOf(n) => Allocs(n) + 1
  }

  /** What the four rotating temporaries allow: the numeric arguments of a substring allocate at most two. */
  predicate Fitting(x: Num) {
    match x
    case Lit(_) => true
    case Var(_) => true
    case Neg(y) => Fitting(y)
    case Bin(_, l, r) => Fitting(l) && Fitting(r)
    case Rel(_, l, r) => Fitting(l) && Fitting(r)
    case Call(_, y) => Fitting(y)
    case Len(s) => FittingS(s)
    case Asc(s) => FittingS(s)
  }

  predicate FittingS(s: Str) {
    match s
    case Quote(_) => true
    case SVar(_) => true
    case Left(a, n) => FittingS(a) && Fitting(n) && Allocs(n) <= 2
    case Right(a, n) => FittingS(a) && Fitting(n) && Allocs(n) <= 2
    case Mid(a, n) => FittingS(a) && Fitting(n) && Allocs(n) <= 2
    case MidLen(a, n, m) => FittingS(a) && Fitting(n) && Fitting(m) && Allocs(n) + Allocs(m) <= 2
    case Chr(n) => Fitting(n)
    case StrOf(n) => Fitting(n)
  }

  // ---------------------------------------------------------------- printing

  /** 0: a relation, 2: a sum, 3: a product, 4: an atom. */
  function Prec(x: Num): nat {
    match x
    case Bin(op, _, _) => if op == Add || op == Sub then 2 else 3
    case Rel(_, _, _) => 0
    case _ => 4
  }

  function OpByte(op: BinOp): byte {
    match op
    case Add => PLUS
    case Sub => MINUS
    case Mul => STAR
    case Div => SLASH
  }

  /** x written where level or tighter is expected: parenthesised only when it binds more loosely. */
  function Print(x: Num, level: nat): seq<byte>
    requires Formed(x)
    decreases x, 1
  {
    if Prec(x) < level then [OPEN] + Body(x) + [CLOSE] else Body(x)
  }

  function Body(x: Num): seq<byte>
    requires Formed(x)
    decreases x, 0
  {
    match x
    case Lit(n) => Digits(n)
    case Var(v) => [65 + v]
    case Neg(y) => [OPEN, MINUS] + Print(y, 3) + [CLOSE]
    case Bin(op, l, r) => Print(l, Prec(x)) + [OpByte(op)] + Print(r, Prec(x) + 1)
    case Rel(op, l, r) => Print(l, 2) + RELOPS[op] + Print(r, 2)
    case Call(f, y) => FUNCS[f] + [OPEN] + Print(y, 0) + [CLOSE]
    case Len(s) => FUNCS[FUNC_LEN] + [OPEN] + PrintS(s) + [CLOSE]
    case Asc(s) => FUNCS[FUNC_ASC] + [OPEN] + PrintS(s) + [CLOSE]
  }

  function PrintS(s: Str): seq<byte>
    requires FormedS(s)
    decreases s, 0
  {
    match s
    case Quote(t) => [DQUOTE] + t + [DQUOTE]
    case SVar(v) => [65 + v, DOLLAR]
    case Left(a, n) => STRFUNCS[STRFUNC_LEFT] + [OPEN] + PrintS(a) + [COMMA] + Print(n, 0) + [CLOSE]
    case Right(a, n) => STRFUNCS[STRFUNC_RIGHT] + [OPEN] + PrintS(a) + [COMMA] + Print(n, 0) + [CLOSE]
    case Mid(a, n) => STRFUNCS[STRFUNC_MID] + [OPEN] + PrintS(a) + [COMMA] + Print(n, 0) + [CLOSE]
    case MidLen(a, n, m) =>
      STRFUNCS[STRFUNC_MID] + [OPEN] + PrintS(a) + [COMMA] + Print(n, 0) + [COMMA] + Print(m, 0) + [CLOSE]
    case Chr(n) => STRFUNCS[STRFUNC_CHR] + [OPEN] + Print(n, 0) + [CLOSE]
    case StrOf(n) => STRFUNCS[STRFUNC_STR] + [OPEN] + Print(n, 0) + [CLOSE]
  }

  function Size(x: Num): nat {
    match x
    case Lit(_) => 1
    case Var(_) => 1
    case Neg(y) => 1 + Size(y)
    case Bin(_, l, r) => 1 + Size(l) + Size(r)
    case Rel(_, l, r) => 1 + Size(l) + Size(r)
    case Call(_, y) => 1 + Size(y)
    case Len(s) => 1 + SizeS(s)
    case Asc(s) => 1 + SizeS(s)
  }

  function SizeS(s: Str): nat {
    match s
    case Quote(_) => 1
    case SVar(_) => 1
    case Left(a, n) => 2 + SizeS(a) + Size(n)
    case Right(a, n) => 2 + SizeS(a) + Size(n)
    case Mid(a, n) => 2 + SizeS(a) + Size(n)
    case MidLen(a, n, m) => 2 + SizeS(a) + Size(n) + Size(m)
    case Chr(n) => 1 + Size(n)
    case StrOf(n) => 1 + Size(n)
  }
}
