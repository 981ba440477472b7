/** What the Tiny BASIC expression evaluator computes, as functions of the cursor state.
    `line` ends with its newline, so every access these functions make is at or before
    that newline, and their termination argument is that the cursor only moves toward it. */
module BasicEval {
  import opened Ascii
  import opened Machine

  const STRVAR_LEN := 40
  const NUM_STR_TEMP := 4

  /** A C string buffer: STRVAR_LEN bytes with a NUL among them. */
  predicate CBuffer(b: seq<byte>) { |b| == STRVAR_LEN && |CStr(b)| < STRVAR_LEN }

  /** The bytes before the first NUL. */
  function CStr(b: seq<byte>): (r: seq<byte>)
    ensures |r| <= |b|
  {
    if b == [] || b[0] == 0 then [] else [b[0]] + CStr(b[1..])
  }

  /** buf once `data` and a NUL have been written at its start. */
  function Fill(buf: seq<byte>, data: seq<byte>): seq<byte>
    requires |data| < |buf|
  {
    data + [0] + buf[|data| + 1..]
  }

  lemma {:induction false} CStrPrefix(a: seq<byte>, b: seq<byte>)
    ensures |CStr(a + [0] + b)| <= |a|
    ensures 0 !in a ==> CStr(a + [0] + b) == a
  {
    if a != [] && a[0] != 0 {
      CStrPrefix(a[1..], b);
      assert (a + [0] + b)[1..] == a[1..] + [0] + b;
    }
  }

  lemma {:induction false} CStrBytes(b: seq<byte>)
    ensures 0 !in CStr(b)
    ensures CStr(b) == b[..|CStr(b)|]
  {
    if b != [] && b[0] != 0 {
      CStrBytes(b[1..]);
    }
  }

  /** The text, the variables A-Z (sign-extended shorts), the variables A$-Z$, and what PEEK reads. */
  datatype Env = Env(line: seq<byte>, vars: seq<u32>, strs: seq<seq<byte>>, peek: u32 -> byte)

  /** Cursor, error flag, a flag for leaving defined behaviour (a zero divide in RND, a copy
      past a buffer), the rotating temporaries and the random seed. */
  datatype St = St(pos: nat, err: bool, fault: bool, next: nat, temps: seq<seq<byte>>, seed: nat)

  /** A `char *`: one of the temporaries, a string variable, or the literal "". */
  datatype Ref = Temp(k: nat) | StrVar(v: nat) | NoString

  datatype Res<+T> = Res(st: St, val: T)

  predicate Buffers(bs: seq<seq<byte>>, n: nat) { |bs| == n && forall i :: 0 <= i < n ==> CBuffer(bs[i]) }

  predicate EnvOk(e: Env) {
    && |e.line| > 0 && e.line[|e.line| - 1] == NL
    && |e.vars| == 26
    && Buffers(e.strs, 26)
  }

  predicate StOk(e: Env, s: St) { s.pos < |e.line| && s.next < NUM_STR_TEMP && Buffers(s.temps, NUM_STR_TEMP) }

  predicate RefOk(r: Ref) { (r.Temp? ==> r.k < NUM_STR_TEMP) && (r.StrVar? ==> r.v < 26) }

  /** What every evaluator step keeps: the cursor stays on the line, never moves back, and errors stick. */
  predicate Follows(e: Env, s: St, t: St) {
    StOk(e, t) && s.pos <= t.pos && (s.err ==> t.err) && (s.fault ==> t.fault)
  }

  /** The buffer that a reference points to. */
  function Deref(e: Env, s: St, r: Ref): (b: seq<byte>)
    requires EnvOk(e) && StOk(e, s) && RefOk(r)
    ensures r.NoString? || CBuffer(b)
  {
    match r
    case Temp(k) => s.temps[k]
    case StrVar(v) => e.strs[v]
    case NoString => [0]
  }

  // ------------------------------------------------------------ cursor steps

  function Fail(s: St): St { s.(err := true) }

  function Step(s: St): St { s.(pos := s.pos + 1) }

  /** `ignore_blanks` from p. */
  function Blanks(line: seq<byte>, p: nat): (r: nat)
    requires p < |line| && line[|line| - 1] == NL
    ensures p <= r < |line| && !IsBlank(line[r])
    decreases |line| - p
  {
    if IsBlank(line[p]) then Blanks(line, p + 1) else p
  }

  function SkipTo(e: Env, s: St): (t: St)
    requires EnvOk(e) && StOk(e, s)
    ensures Follows(e, s, t)
  {
    s.(pos := Blanks(e.line, s.pos))
  }

  // --------------------------------------------------------- keyword tables

  /** Table bytes are ASCII other than newline and blanks, the last byte of a word has 128 added, and 0 ends the
      table. */
  predicate TableByte(b: byte) { b % 128 > 32 }

  predicate Table(t: seq<byte>) {
    && |t| > 0 && t[|t| - 1] == 0
    && (forall i :: 0 <= i < |t| - 1 ==> TableByte(t[i]))
    && (|t| > 1 ==> t[|t| - 2] >= 128)
  }

  /** The rest of the table after the word that t is inside. */
  function NextWord(t: seq<byte>): (r: seq<byte>)
    requires Table(t) && |t| > 1
    ensures Table(r) && |r| < |t|
  {
    if t[0] >= 128 then t[1..] else NextWord(t[1..])
  }

  datatype Scanned = Scanned(pos: nat, index: nat)

  /** `scantable` with i bytes of the current word matched and t what is left of the table. */
  function Scan(line: seq<byte>, t: seq<byte>, pos: nat, i: nat, index: nat): (r: Scanned)
    requires Table(t) && pos + i < |line| && line[|line| - 1] == NL
    ensures pos <= r.pos < |line|
    decreases |t|
  {
    if t[0] == 0 then Scanned(pos, index)
    else if line[pos + i] == t[0] then Scan(line, t[1..], pos, i + 1, index)
    else if line[pos + i] as int + 0x80 == t[0] as int then Scanned(Blanks(line, pos + i + 1), index)
    else Scan(line, NextWord(t), Blanks(line, pos), 0, index + 1)
  }

  lemma TableEnds(t: seq<byte>)
    requires Table(t)
    ensures |t| > 0
  {
  }

  /** One turn of `scantable`. */
  lemma ScanStep(line: seq<byte>, t: seq<byte>, pos: nat, i: nat, index: nat)
    requires Table(t) && pos + i < |line| && line[|line| - 1] == NL
    ensures |t| > 0 && (t[0] == 0 ==> Scan(line, t, pos, i, index) == Scanned(pos, index))
    ensures t[0] != 0 ==> |t| > 1
    ensures t[0] != 0 && line[pos + i] == t[0] ==>
      Table(t[1..]) && pos + i + 1 < |line| && Scan(line, t, pos, i, index) == Scan(line, t[1..], pos, i + 1, index)
    ensures t[0] != 0 && line[pos + i] as int + 0x80 == t[0] as int ==>
      pos + i + 1 < |line| && Scan(line, t, pos, i, index) == Scanned(Blanks(line, pos + i + 1), index)
    ensures t[0] != 0 && line[pos + i] != t[0] && line[pos + i] as int + 0x80 != t[0] as int ==>
      Scan(line, t, pos, i, index) == Scan(line, NextWord(t), Blanks(line, pos), 0, index + 1)
  {
    hide NextWord, Blanks;
  }

  /** A keyword: nonempty, ASCII, no blanks. */
  predicate Word(w: seq<byte>) { |w| > 0 && forall i :: 0 <= i < |w| ==> 32 < w[i] < 128 }

  predicate Words(ws: seq<seq<byte>>) { forall i :: 0 <= i < |ws| ==> Word(ws[i]) }

  /** A word as tables hold it: 128 added to its last byte. */
  function Marked(w: seq<byte>): (m: seq<byte>)
    requires Word(w)
    ensures |m| == |w| && m[|m| - 1] >= 128
    ensures forall i :: 0 <= i < |m| ==> TableByte(m[i])
    ensures forall i :: 0 <= i < |m| - 1 ==> m[i] == w[i]
  {
    w[..|w| - 1] + [w[|w| - 1] + 128]
  }

  /** A table from its words. */
  function Pack(ws: seq<seq<byte>>): (t: seq<byte>)
    requires Words(ws)
    ensures Table(t)
  {
    if ws == [] then [0] else Marked(ws[0]) + Pack(ws[1..])
  }

  // >=  <>  >  =  <=  <  !=
  const RELOPS: seq<seq<byte>> := [[62, 61], [60, 62], [62], [61], [60, 61], [60], [33, 61]]
  const RELOP_GE: nat := 0
  const RELOP_NE: nat := 1
  const RELOP_GT: nat := 2
  const RELOP_EQ: nat := 3
  const RELOP_LE: nat := 4
  const RELOP_LT: nat := 5
  const RELOP_NE_BANG: nat := 6
  const RELOP_UNKNOWN: nat := 7

  // PEEK  ABS  AREAD  DREAD  RND  LEN  ASC
  const FUNCS: seq<seq<byte>> := [
    [80, 69, 69, 75], [65, 66, 83], [65, 82, 69, 65, 68], [68, 82, 69, 65, 68],
    [82, 78, 68], [76, 69, 78], [65, 83, 67]]
  const FUNC_PEEK: nat := 0
  const FUNC_ABS: nat := 1
  const FUNC_RND: nat := 4
  const FUNC_LEN: nat := 5
  const FUNC_ASC: nat := 6
  const FUNC_UNKNOWN: nat := 7

  // LEFT$  RIGHT$  MID$  CHR$  STR$
  const STRFUNCS: seq<seq<byte>> := [
    [76, 69, 70, 84, 36], [82, 73, 71, 72, 84, 36], [77, 73, 68, 36], [67, 72, 82, 36], [83, 84, 82, 36]]
  const STRFUNC_LEFT: nat := 0
  const STRFUNC_RIGHT: nat := 1
  const STRFUNC_MID: nat := 2
  const STRFUNC_CHR: nat := 3
  const STRFUNC_STR: nat := 4
  const STRFUNC_UNKNOWN: nat := 5

  function ScanWords(e: Env, s: St, ws: seq<seq<byte>>): (r: Res<nat>)
    requires EnvOk(e) && StOk(e, s) && Words(ws)
    ensures Follows(e, s, r.st)
  {
    var m := Scan(e.line, Pack(ws), s.pos, 0, 0);
    Res(s.(pos := m.pos), m.index)
  }

  // ------------------------------------------------------- 32-bit arithmetic

  function Wrap(x: int): (r: u32) { x % 0x1_0000_0000 }

  /** `(long)a`. */
  function Signed(a: u32): int { if a < 0x8000_0000 then a else a - 0x1_0000_0000 }

  /** The literal that starts at p, its digits folded into a modulo 2^32. */
  function Literal(line: seq<byte>, p: nat, a: u32): (r: (nat, u32))
    requires p < |line| && line[|line| - 1] == NL
    ensures p <= r.0 < |line|
    decreases |line| - p
  {
    if IsDigit(line[p]) then Literal(line, p + 1, Wrap(a * 10 + line[p] - 48)) else (p, a)
  }

  function NextSeed(seed: nat): nat { (seed * 1103515245 + 12345) % 0x8000_0000 }

  /** `rand()` and the seed after it. */
  function Rand(s: St): (r: Res<u32>) {
    var n := NextSeed(s.seed);
    Res(s.(seed := n), n / 65536 % 0x8000)
  }

  // ---------------------------------------------------------- string results

  /** `str_temp_alloc`, then `data` and a NUL written there. */
  function NewTemp(e: Env, s: St, data: seq<byte>): (r: Res<Ref>)
    requires EnvOk(e) && StOk(e, s) && |data| < STRVAR_LEN
    ensures Follows(e, s, r.st) && RefOk(r.val)
    ensures r.st.pos == s.pos && r.st.err == s.err && r.st.fault == s.fault
  {
    var b := Fill(s.temps[s.next], data);
    CStrPrefix(data, s.temps[s.next][|data| + 1..]);
    Res(s.(temps := s.temps[s.next := b], next := (s.next + 1) % NUM_STR_TEMP), Temp(s.next))
  }

  function NoStr(s: St): Res<Ref> { Res(s, NoString) }

  function Clamp(x: int, hi: nat): (r: nat)
    ensures r <= hi
  {
    if x < 0 then 0 else if x > hi then hi else x
  }

  /** The bytes that LEFT$ copies. */
  function LeftBytes(src: seq<byte>, n: u32): (r: seq<byte>)
    requires |CStr(src)| < STRVAR_LEN
    ensures |r| < STRVAR_LEN
  {
    src[..Clamp(Signed(n), |CStr(src)|)]
  }

  /** The bytes that RIGHT$ copies. */
  function RightBytes(src: seq<byte>, n: u32): (r: seq<byte>)
    requires |CStr(src)| < STRVAR_LEN
    ensures |r| < STRVAR_LEN
  {
    var len := |CStr(src)|;
    src[len - Clamp(Signed(n), len)..len]
  }

  /** Whether MID$'s bound test overflows a 32-bit long, so that it copies far past its buffers. */
  predicate MidOverflows(len: nat, p1: int, p2: int) { 1 <= p1 <= len && p1 - 1 + p2 >= 0x8000_0000 }

  /** The bytes that MID$ copies from src, whose length was len when p1 had been read. */
  function MidBytes(src: seq<byte>, len: nat, p1: int, p2: int): (r: seq<byte>)
    requires len < STRVAR_LEN && len <= |src|
    ensures |r| < STRVAR_LEN
  {
    var a := if p1 < 1 then 1 else p1;
    if a > len then []
    else
      var n := Clamp(p2, len - (a - 1));
      src[a - 1..a - 1 + n]
  }

  /** Decimal digits of a signed number, as STR$ writes them. */
  function SignedDigits(x: int): (r: seq<byte>) { if x < 0 then [45] + Digits(-x) else Digits(x) }

  lemma {:induction false} DigitCount(n: nat, k: nat)
    requires k > 0 && n < Pow10(k)
    ensures |Digits(n)| <= k
  {
    if n >= 10 {
      if k > 1 {
        DigitCount(n / 10, k - 1);
      }
    }
  }

  function Pow10(k: nat): nat { if k == 0 then 1 else 10 * Pow10(k - 1) }

  lemma SignedDigitsFit(a: u32)
    ensures |SignedDigits(Signed(a))| < STRVAR_LEN
  {
    assert Pow10(10) == 10_000_000_000 by {
      assert Pow10(5) == 100_000;
    }
    DigitCount(if Signed(a) < 0 then -Signed(a) else Signed(a), 10);
  }

  // ------------------------------------------------------------ the evaluator

  const MINUS: byte := 45
  const PLUS: byte := 43
  const STAR: byte := 42
  const SLASH: byte := 47
  const OPEN: byte := 40
  const CLOSE: byte := 41
  const COMMA: byte := 44
  const DOLLAR: byte := 36

  function Cur(e: Env, s: St): byte
    requires StOk(e, s)
  {
    e.line[s.pos]
  }

  function Error(s: St): Res<u32> { Res(Fail(s), 0) }

  /** Steps over c, or sets the error flag. */
  function Expect(e: Env, s: St, c: byte): (t: St)
    requires EnvOk(e) && StOk(e, s) && c != NL
    ensures Follows(e, s, t) && (t.err || t.pos > s.pos)
  {
    if Cur(e, s) == c then Step(s) else Fail(s)
  }

  function Expr4(e: Env, s0: St): (r: Res<u32>)
    requires EnvOk(e) && StOk(e, s0)
    ensures Follows(e, s0, r.st)
    decreases |e.line| - s0.pos, 1
  {
    var s := SkipTo(e, s0);
    var c := Cur(e, s);
    if c == MINUS then
      var r := Expr4(e, Step(s));
      Res(r.st, Wrap(0 - r.val))
    else if c == 48 then
      Res(Step(s), 0)
    else if IsDigit(c) then
      var (p, a) := Literal(e.line, s.pos, 0);
      Res(s.(pos := p), a)
    else if IsUpper(c) then
      if !IsUpper(e.line[s.pos + 1]) then Res(Step(s), e.vars[c - 65]) else Function(e, s)
    else
      Paren(e, s)
  }

  function Paren(e: Env, s: St): (r: Res<u32>)
    requires EnvOk(e) && StOk(e, s)
    ensures Follows(e, s, r.st)
    decreases |e.line| - s.pos, 0
  {
    if Cur(e, s) != OPEN then Error(s)
    else
      var a := Expression(e, Step(s));
      if Cur(e, a.st) != CLOSE then Error(a.st) else Res(Step(a.st), a.val)
  }

  function Function(e: Env, s: St): (r: Res<u32>)
    requires EnvOk(e) && StOk(e, s)
    ensures Follows(e, s, r.st)
    decreases |e.line| - s.pos, 0
  {
    hide Buffers, Scan, Pack;
    var m := ScanWords(e, s, FUNCS);
    if m.val == FUNC_UNKNOWN || Cur(e, m.st) != OPEN then Error(m.st)
    else if m.val == FUNC_LEN || m.val == FUNC_ASC then StringFunction(e, Step(m.st), m.val)
    else
      var a := Expression(e, Step(m.st));
      if Cur(e, a.st) != CLOSE then Error(a.st) else NumberFunction(e, Step(a.st), m.val, a.val)
  }

  /** The result of PEEK, ABS or RND; the unimplemented AREAD and DREAD fall through to the parenthesis case. */
  function NumberFunction(e: Env, s: St, f: nat, a: u32): (r: Res<u32>)
    requires EnvOk(e) && StOk(e, s)
    ensures Follows(e, s, r.st)
    decreases |e.line| - s.pos, 1
  {
    if f == FUNC_PEEK then Res(s, e.peek(a))
    else if f == FUNC_ABS then Res(s, a)  // `a < 0` is never true of an unsigned long
    else if f == FUNC_RND then
      var q := Rand(s);
      if a == 0 then Res(q.st.(fault := true), 0) else Res(q.st, q.val % a)
    else Paren(e, s)
  }

  function StringFunction(e: Env, s: St, f: nat): (r: Res<u32>)
    requires EnvOk(e) && StOk(e, s)
    ensures Follows(e, s, r.st)
    decreases |e.line| - s.pos, 2
  {
    var a := StrExpr(e, s);
    if a.st.err || Cur(e, a.st) != CLOSE then Error(a.st)
    else
      var b := Deref(e, a.st, a.val);
      Res(Step(a.st), if f == FUNC_LEN then |CStr(b)| else b[0])
  }

  function Expr3(e: Env, s: St): (r: Res<u32>)
    requires EnvOk(e) && StOk(e, s)
    ensures Follows(e, s, r.st)
    decreases |e.line| - s.pos, 2
  {
    var a := Expr4(e, s);
    Loop3(e, SkipTo(e, a.st), a.val)
  }

  function Loop3(e: Env, s: St, a: u32): (r: Res<u32>)
    requires EnvOk(e) && StOk(e, s)
    ensures Follows(e, s, r.st)
    decreases |e.line| - s.pos, 0
  {
    if Cur(e, s) == STAR then
      var b := Expr4(e, Step(s));
      Loop3(e, b.st, Wrap(a * b.val))
    else if Cur(e, s) == SLASH then
      var b := Expr4(e, Step(s));
      if b.val != 0 then Loop3(e, b.st, Wrap(a / b.val)) else Loop3(e, Fail(b.st), a)
    else Res(s, a)
  }

  function Expr2(e: Env, s: St): (r: Res<u32>)
    requires EnvOk(e) && StOk(e, s)
    ensures Follows(e, s, r.st)
    decreases |e.line| - s.pos, 3
  {
    if Cur(e, s) == MINUS || Cur(e, s) == PLUS then Loop2(e, s, 0)
    else
      var a := Expr3(e, s);
      Loop2(e, a.st, a.val)
  }

  function Loop2(e: Env, s: St, a: u32): (r: Res<u32>)
    requires EnvOk(e) && StOk(e, s)
    ensures Follows(e, s, r.st)
    decreases |e.line| - s.pos, 0
  {
    if Cur(e, s) == MINUS then
      var b := Expr3(e, Step(s));
      Loop2(e, b.st, Wrap(a - b.val))
    else if Cur(e, s) == PLUS then
      var b := Expr3(e, Step(s));
      Loop2(e, b.st, Wrap(a + b.val))
    else Res(s, a)
  }

  predicate Compare(op: nat, a: u32, b: u32) {
    if op == RELOP_GE then a >= b
    else if op == RELOP_NE || op == RELOP_NE_BANG then a != b
    else if op == RELOP_GT then a > b
    else if op == RELOP_EQ then a == b
    else if op == RELOP_LE then a <= b
    else op == RELOP_LT && a < b
  }

  function Expression(e: Env, s: St): (r: Res<u32>)
    requires EnvOk(e) && StOk(e, s)
    ensures Follows(e, s, r.st)
    decreases |e.line| - s.pos, 4
  {
    var a := Expr2(e, s);
    if a.st.err then a
    else
      var m := ScanWords(e, a.st, RELOPS);
      if m.val == RELOP_UNKNOWN then Res(m.st, a.val)
      else
        var b := Expr2(e, m.st);
        Res(b.st, if Compare(m.val, a.val, b.val) then 1 else 0)
  }

  // ------------------------------------------------------- string expressions

  /** The bytes of a quoted literal from p on: up to the delimiter, the newline or 39 bytes. */
  function Quoted(line: seq<byte>, p: nat, delim: byte, n: nat): (r: seq<byte>)
    requires p < |line| && line[|line| - 1] == NL && n < STRVAR_LEN
    ensures |r| + n < STRVAR_LEN && p + |r| < |line|
    decreases |line| - p
  {
    if line[p] == delim || line[p] == NL || n == STRVAR_LEN - 1 then []
    else [line[p]] + Quoted(line, p + 1, delim, n + 1)
  }

  function StringLiteral(e: Env, s: St): (r: Res<Ref>)
    requires EnvOk(e) && StOk(e, s) && (Cur(e, s) == DQUOTE || Cur(e, s) == SQUOTE)
    ensures Follows(e, s, r.st) && RefOk(r.val)
  {
    var delim := Cur(e, s);
    var data := Quoted(e.line, s.pos + 1, delim, 0);
    var t := NewTemp(e, s.(pos := s.pos + 1 + |data|), data);
    Res(Expect(e, t.st, delim), t.val)
  }

  function StringVariable(e: Env, s: St): (r: Res<Ref>)
    requires EnvOk(e) && StOk(e, s)
    ensures Follows(e, s, r.st) && RefOk(r.val)
  {
    if IsUpper(Cur(e, s)) && e.line[s.pos + 1] == DOLLAR
    then Res(Step(Step(s)), StrVar(Cur(e, s) - 65))
    else NoStr(Fail(s))
  }

  function StrExpr(e: Env, s0: St): (r: Res<Ref>)
    requires EnvOk(e) && StOk(e, s0)
    ensures Follows(e, s0, r.st) && RefOk(r.val)
    decreases |e.line| - s0.pos, 1
  {
    var s := SkipTo(e, s0);
    if Cur(e, s) == DQUOTE || Cur(e, s) == SQUOTE then StringLiteral(e, s)
    else
      var m := ScanWords(e, s, STRFUNCS);
      if m.val == STRFUNC_UNKNOWN then StringVariable(e, m.st)
      else if Cur(e, m.st) != OPEN then NoStr(Fail(m.st))
      else if m.val == STRFUNC_CHR || m.val == STRFUNC_STR then FromNumber(e, Step(m.st), m.val)
      else Substring(e, Step(m.st), m.val)
  }

  /** CHR$ and STR$ after their parenthesis. */
  function FromNumber(e: Env, s: St, f: nat): (r: Res<Ref>)
    requires EnvOk(e) && StOk(e, s)
    ensures Follows(e, s, r.st) && RefOk(r.val)
    decreases |e.line| - s.pos, 5
  {
    var p := Expression(e, s);
    if p.st.err then NoStr(p.st)
    else
      var c := Expect(e, p.st, CLOSE);
      SignedDigitsFit(p.val);
      if c.err then NoStr(c)
      else NewTemp(e, c, if f == STRFUNC_CHR then [p.val % 256] else SignedDigits(Signed(p.val)))
  }

  /** LEFT$, RIGHT$ and MID$ after their parenthesis. */
  function Substring(e: Env, s: St, f: nat): (r: Res<Ref>)
    requires EnvOk(e) && StOk(e, s)
    ensures Follows(e, s, r.st) && RefOk(r.val)
    decreases |e.line| - s.pos, 5
  {
    var src := StrExpr(e, s);
    if src.st.err then NoStr(src.st)
    else
      var t := Expect(e, SkipTo(e, src.st), COMMA);
      if t.err then NoStr(t)
      else
        var p := Expression(e, t);
        if p.st.err then NoStr(p.st)
        else if f == STRFUNC_MID then Middle(e, p.st, src.val, Signed(p.val))
        else OneSide(e, p.st, src.val, f, p.val)
  }

  /** LEFT$ and RIGHT$ once their arguments are known. */
  function OneSide(e: Env, s: St, src: Ref, f: nat, n: u32): (r: Res<Ref>)
    requires EnvOk(e) && StOk(e, s) && RefOk(src)
    ensures Follows(e, s, r.st) && RefOk(r.val)
  {
    var c := Expect(e, s, CLOSE);
    if c.err then NoStr(c)
    else
      var b := Deref(e, c, src);
      NewTemp(e, c, if f == STRFUNC_LEFT then LeftBytes(b, n) else RightBytes(b, n))
  }

  /** MID$ once its source and start are known; the length argument is optional. */
  function Middle(e: Env, s0: St, src: Ref, p1: int): (r: Res<Ref>)
    requires EnvOk(e) && StOk(e, s0) && RefOk(src)
    ensures Follows(e, s0, r.st) && RefOk(r.val)
    decreases |e.line| - s0.pos, 5
  {
    var len := |CStr(Deref(e, s0, src))|;
    var s := SkipTo(e, s0);
    if Cur(e, s) == COMMA then
      var p := Expression(e, Step(s));
      if p.st.err then NoStr(p.st) else MiddleEnd(e, p.st, src, len, p1, Signed(p.val))
    else MiddleEnd(e, s, src, len, p1, len)
  }

  function MiddleEnd(e: Env, s: St, src: Ref, len: nat, p1: int, p2: int): (r: Res<Ref>)
    requires EnvOk(e) && StOk(e, s) && RefOk(src) && len < STRVAR_LEN && len < |Deref(e, s, src)|
    ensures Follows(e, s, r.st) && RefOk(r.val)
  {
    var c := Expect(e, s, CLOSE);
    if c.err then NoStr(c)
    else if MidOverflows(len, if p1 < 1 then 1 else p1, p2) then NewTemp(e, c.(fault := true), [])
    else NewTemp(e, c, MidBytes(Deref(e, c, src), len, p1, p2))
  }
}
