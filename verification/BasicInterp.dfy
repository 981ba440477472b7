/** The evaluator itself: mutually recursive methods over one shared cursor, error flag
    and set of temporaries, each proved to compute its function in BasicEval. The text
    ends at its newline, so no method reads past that byte or leaves the cursor beyond it. */
module BasicInterp {
  import opened Ascii
  import opened Machine
  import opened BasicEval

  class Interp {
    const env: Env
    var txtpos: nat
    var tableIndex: nat
    var expressionError: bool
    var fault: bool
    var strTempIdx: nat
    var strTemp: seq<seq<byte>>
    var randSeed: nat

    function State(): St
      reads this
    {
      St(txtpos, expressionError, fault, strTempIdx, strTemp, randSeed)
    }

    ghost predicate Valid()
      reads this
    {
      EnvOk(env) && StOk(env, State())
    }

    constructor (e: Env, pos: nat)
      requires EnvOk(e) && pos < |e.line|
      ensures Valid() && env == e
      ensures State() == St(pos, false, false, 0, seq(NUM_STR_TEMP, _ => seq(STRVAR_LEN, _ => 0)), 1)
    {
      env := e;
      txtpos, tableIndex, expressionError, fault, strTempIdx, randSeed := pos, 0, false, false, 0, 1;
      strTemp := seq(NUM_STR_TEMP, _ => seq(STRVAR_LEN, _ => 0));
    }

    // ------------------------------------------------------------------ cursor

    method IgnoreBlanks()
      requires Valid()
      modifies this`txtpos
      ensures Valid() && State() == SkipTo(env, old(State()))
    {
      while env.line[txtpos] == SPACE || env.line[txtpos] == TAB
        invariant txtpos < |env.line|
        invariant Blanks(env.line, old(txtpos)) == Blanks(env.line, txtpos)
        decreases |env.line| - txtpos
      {
        txtpos := txtpos + 1;
      }
    }

    /** `scantable`: i bytes of the word at table[t..] have matched. */
    method ScanTable(table: seq<byte>)
      requires Valid() && Table(table)
      modifies this`txtpos, this`tableIndex
      ensures Valid()
      ensures State() == old(State()).(pos := Scan(env.line, table, old(txtpos), 0, 0).pos)
      ensures tableIndex == Scan(env.line, table, old(txtpos), 0, 0).index
    {
      hide Blanks, Pack, NextWord, Buffers, Scan, Table;
      assert table[0..] == table;
      TableEnds(table);
      ghost var found := Scan(env.line, table, txtpos, 0, 0);
      var t, i := 0, 0;
      tableIndex := 0;
      while true
        invariant 0 <= t < |table| && 0 <= i && txtpos + i < |env.line| && Table(table[t..])
        invariant found == Scan(env.line, table[t..], txtpos, i, tableIndex)
        decreases |table| - t
      {
        ghost var rest := table[t..];
        ScanStep(env.line, rest, txtpos, i, tableIndex);
        if table[t] == 0 {
          return;
        }
        if env.line[txtpos + i] == table[t] {
          assert table[t..][1..] == table[t + 1..];
          i := i + 1;
          t := t + 1;
        } else {
          if env.line[txtpos + i] as int + 0x80 == table[t] as int {
            txtpos := txtpos + (i + 1);
            IgnoreBlanks();
            return;
          }
          t := WordEnd(table, t);
          tableIndex := tableIndex + 1;
          IgnoreBlanks();
          i := 0;
        }
      }
    }

    /** The index just past the word that table[t] is in. */
    static method WordEnd(table: seq<byte>, t0: nat) returns (t: nat)
      requires t0 < |table| - 1 && Table(table[t0..])
      ensures t0 < t < |table| && table[t..] == NextWord(table[t0..])
    {
      t := t0;
      while table[t] < 128
        invariant t0 <= t < |table| - 1 && Table(table[t..])
        invariant NextWord(table[t0..]) == NextWord(table[t..])
        decreases |table| - t
      {
        assert table[t..][1..] == table[t + 1..];
        t := t + 1;
      }
      assert table[t..][1..] == table[t + 1..];
      t := t + 1;
    }

    method ScanFor(ws: seq<seq<byte>>)
      requires Valid() && Words(ws)
      modifies this`txtpos, this`tableIndex
      ensures Valid() && Res(State(), tableIndex) == ScanWords(env, old(State()), ws)
    {
      ScanTable(Pack(ws));
    }

    // ------------------------------------------------------------ temporaries

    /** `str_temp_alloc`. */
    method Allocate() returns (k: nat)
      requires Valid()
      modifies this`strTempIdx
      ensures k == old(strTempIdx) && strTempIdx == (k + 1) % NUM_STR_TEMP
    {
      k := strTempIdx;
      strTempIdx := (strTempIdx + 1) % NUM_STR_TEMP;
    }

    /** `memcpy` of n bytes of src, from position from on, into temporary k, and the NUL behind them. */
    method CopyInto(k: nat, src: seq<byte>, from: nat, n: nat)
      requires |strTemp| == NUM_STR_TEMP && k < NUM_STR_TEMP && |strTemp[k]| == STRVAR_LEN
      requires from + n <= |src| && n < STRVAR_LEN
      modifies this`strTemp
      ensures strTemp == old(strTemp)[k := Fill(old(strTemp[k]), src[from..from + n])]
    {
      hide Fill, Partly;
      ghost var was, temps, out: seq<byte> := strTemp[k], strTemp, [];
      CopyStarts(temps, k);
      var i := 0;
      while i < n
        invariant 0 <= i <= n && out == src[from..from + i] && strTemp == temps[k := Partly(was, out)]
      {
        CopyGoesOn(was, out, src[from + i]);
        strTemp := strTemp[k := strTemp[k][i := src[from + i]]];
        assert src[from..from + i + 1] == out + [src[from + i]];
        out := out + [src[from + i]];
        i := i + 1;
      }
      CopyEnds(was, out);
      strTemp := strTemp[k := strTemp[k][n := 0]];
    }

    /** A fresh temporary with n bytes of src. */
    method NewPart(src: seq<byte>, from: nat, n: nat) returns (r: Ref)
      requires Valid() && from + n <= |src| && n < STRVAR_LEN
      modifies this`strTempIdx, this`strTemp
      ensures Valid() && RefOk(r) && Res(State(), r) == NewTemp(env, old(State()), src[from..from + n])
    {
      hide Buffers, Fill;
      ghost var spec := NewTemp(env, State(), src[from..from + n]);
      BuffersFacts(strTemp, strTempIdx);
      var k := Allocate();
      CopyInto(k, src, from, n);
      r := Temp(k);
      assert Res(State(), r) == spec;
    }

    method NewString(data: seq<byte>) returns (r: Ref)
      requires Valid() && |data| < STRVAR_LEN
      modifies this`strTempIdx, this`strTemp
      ensures Valid() && RefOk(r) && Res(State(), r) == NewTemp(env, old(State()), data)
    {
      assert data[0..|data|] == data;
      r := NewPart(data, 0, |data|);
    }

    /** `strlen`. */
    static method StrLen(b: seq<byte>) returns (n: nat)
      ensures n == |CStr(b)|
    {
      n := 0;
      while n < |b| && b[n] != 0
        invariant n <= |b| && |CStr(b)| == n + |CStr(b[n..])|
      {
        n := n + 1;
      }
    }

    /** The digits of n, low end first. */
    static method LowDigits(n: nat) returns (tmp: seq<byte>)
      ensures Turned(tmp) == Digits(n)
    {
      hide Turned;
      tmp := [];
      var uv := n;
      TurnedEmpty();
      if uv == 0 {
        TurnedAppend(tmp, 48);
        tmp := tmp + [48];
      }
      while uv > 0
        invariant uv >= 0 && (n == 0 ==> Turned(tmp) == [48])
        invariant n > 0 ==> Digits(n) == if uv > 0 then Digits(uv) + Turned(tmp) else Turned(tmp)
      {
        TurnedAppend(tmp, 48 + uv % 10);
        tmp := tmp + [48 + uv % 10];
        uv := uv / 10;
      }
    }

    static method TurnRound(tmp: seq<byte>) returns (out: seq<byte>)
      ensures out == Turned(tmp)
    {
      out := [];
      var j := 0;
      assert tmp[..|tmp|] == tmp;
      while j < |tmp|
        invariant 0 <= j <= |tmp| && Turned(tmp) == out + Turned(tmp[..|tmp| - j])
        decreases |tmp| - j
      {
        var rest := tmp[..|tmp| - j];
        assert rest[..|rest| - 1] == tmp[..|tmp| - (j + 1)];
        out := out + [tmp[|tmp| - 1 - j]];
        j := j + 1;
      }
    }

    /** The digits of STR$, written low end first with the sign last, and then turned round. */
    static method NumberDigits(p: u32) returns (out: seq<byte>)
      ensures out == SignedDigits(Signed(p)) && |out| < STRVAR_LEN
    {
      hide Turned, Digits;
      var x := Signed(p);
      var tmp := LowDigits(if x < 0 then -x else x);
      if x < 0 {
        TurnedAppend(tmp, 45);
        tmp := tmp + [45];
      }
      SignedDigitsFit(p);
      out := TurnRound(tmp);
    }

    // ---------------------------------------------------------------- numbers

    method Expr4() returns (a: u32)
      requires Valid()
      modifies this
      ensures Valid() && Res(State(), a) == BasicEval.Expr4(env, old(State()))
      decreases |env.line| - txtpos, 1
    {
      hide BasicEval.Expression, BasicEval.Paren, BasicEval.Function, Blanks;
      IgnoreBlanks();
      var c := env.line[txtpos];
      if c == MINUS {
        txtpos := txtpos + 1;
        a := Expr4();
        a := Wrap(0 - a);
      } else if c == 48 {
        txtpos := txtpos + 1;
        a := 0;
      } else if IsDigit(c) {
        a := ReadLiteral();
      } else if IsUpper(c) {
        if env.line[txtpos + 1] < 65 || env.line[txtpos + 1] > 90 {
          a := env.vars[c - 65];
          txtpos := txtpos + 1;
        } else {
          a := Function();
        }
      } else {
        a := Paren();
      }
    }

    method ReadLiteral() returns (a: u32)
      requires Valid() && IsDigit(env.line[txtpos])
      modifies this`txtpos
      ensures Valid()
      ensures var r := Literal(env.line, old(txtpos), 0); State() == old(State()).(pos := r.0) && a == r.1
    {
      a := 0;
      while IsDigit(env.line[txtpos])
        invariant txtpos < |env.line|
        invariant Literal(env.line, old(txtpos), 0) == Literal(env.line, txtpos, a)
        decreases |env.line| - txtpos
      {
        a := Wrap(a * 10 + env.line[txtpos] - 48);
        txtpos := txtpos + 1;
      }
    }

    method Paren() returns (a: u32)
      requires Valid()
      modifies this
      ensures Valid() && Res(State(), a) == BasicEval.Paren(env, old(State()))
      decreases |env.line| - txtpos, 0
    {
      hide BasicEval.Expression, Blanks, Buffers;
      if env.line[txtpos] == OPEN {
        txtpos := txtpos + 1;
        a := Expression();
        if env.line[txtpos] == CLOSE {
          txtpos := txtpos + 1;
          return;
        }
      }
      expressionError := true;
      a := 0;
    }

    method Function() returns (a: u32)
      requires Valid()
      modifies this
      ensures Valid() && Res(State(), a) == BasicEval.Function(env, old(State()))
      decreases |env.line| - txtpos, 0
    {
      hide BasicEval.Expression, ScanWords, BasicEval.StringFunction, BasicEval.NumberFunction, Buffers;
      ScanFor(FUNCS);
      var f := tableIndex;
      if f != FUNC_UNKNOWN && env.line[txtpos] == OPEN {
        txtpos := txtpos + 1;
        if f == FUNC_LEN || f == FUNC_ASC {
          a := StringFunction(f);
          return;
        }
        a := Expression();
        if env.line[txtpos] == CLOSE {
          txtpos := txtpos + 1;
          a := NumberFunction(f, a);
          return;
        }
      }
      expressionError := true;
      a := 0;
    }

    method NumberFunction(f: nat, x: u32) returns (a: u32)
      requires Valid()
      modifies this
      ensures Valid() && Res(State(), a) == BasicEval.NumberFunction(env, old(State()), f, x)
      decreases |env.line| - txtpos, 1
    {
      hide BasicEval.Paren, Buffers;
      if f == FUNC_PEEK {
        a := env.peek(x);
      } else if f == FUNC_ABS {
        a := x;
      } else if f == FUNC_RND {
        randSeed := NextSeed(randSeed);
        if x == 0 {
          fault := true;  // the zero divide
          a := 0;
        } else {
          a := randSeed / 65536 % 0x8000 % x;
        }
      } else {
        a := Paren();
      }
    }

    method StringFunction(f: nat) returns (a: u32)
      requires Valid()
      modifies this
      ensures Valid() && Res(State(), a) == BasicEval.StringFunction(env, old(State()), f)
      decreases |env.line| - txtpos, 2
    {
      hide BasicEval.StrExpr, Buffers;
      var s := StrExpr();
      if expressionError || env.line[txtpos] != CLOSE {
        expressionError := true;
        return 0;
      }
      txtpos := txtpos + 1;
      var b := Deref(env, State(), s);
      if f == FUNC_LEN {
        a := StrLen(b);
      } else {
        a := b[0];
      }
    }

    method Expr3() returns (a: u32)
      requires Valid()
      modifies this
      ensures Valid() && Res(State(), a) == BasicEval.Expr3(env, old(State()))
      decreases |env.line| - txtpos, 2
    {
      hide BasicEval.Expr4, Blanks, Buffers;
      ghost var spec := BasicEval.Expr3(env, State());
      a := Expr4();
      IgnoreBlanks();
      while true
        invariant Valid() && old(txtpos) <= txtpos
        invariant spec == Loop3(env, State(), a)
        decreases |env.line| - txtpos
      {
        var c := env.line[txtpos];
        if c != STAR && c != SLASH {
          return;
        }
        txtpos := txtpos + 1;
        var b := Expr4();
        if c == STAR {
          a := Wrap(a * b);
        } else if b != 0 {
          a := Wrap(a / b);
        } else {
          expressionError := true;
        }
      }
    }

    method Expr2() returns (a: u32)
      requires Valid()
      modifies this
      ensures Valid() && Res(State(), a) == BasicEval.Expr2(env, old(State()))
      decreases |env.line| - txtpos, 3
    {
      hide BasicEval.Expr3, Buffers;
      ghost var spec := BasicEval.Expr2(env, State());
      if env.line[txtpos] == MINUS || env.line[txtpos] == PLUS {
        a := 0;
      } else {
        a := Expr3();
      }
      while true
        invariant Valid() && old(txtpos) <= txtpos
        invariant spec == Loop2(env, State(), a)
        decreases |env.line| - txtpos
      {
        var c := env.line[txtpos];
        if c != MINUS && c != PLUS {
          return;
        }
        txtpos := txtpos + 1;
        var b := Expr3();
        a := if c == MINUS then Wrap(a - b) else Wrap(a + b);
      }
    }

    method Expression() returns (a: u32)
      requires Valid()
      modifies this
      ensures Valid() && Res(State(), a) == BasicEval.Expression(env, old(State()))
      decreases |env.line| - txtpos, 4
    {
      hide BasicEval.Expr2, ScanWords, Buffers;
      a := Expr2();
      if expressionError {
        return;
      }
      ScanFor(RELOPS);
      var op := tableIndex;
      if op == RELOP_UNKNOWN {
        return;
      }
      var b := Expr2();
      a := if Compare(op, a, b) then 1 else 0;
    }

    // ---------------------------------------------------------------- strings

    /** Steps over c, or sets the error flag; returns whether the flag is clear. */
    method Skip(c: byte) returns (ok: bool)
      requires Valid() && c != NL
      modifies this`txtpos, this`expressionError
      ensures Valid() && State() == Expect(env, old(State()), c) && ok == !expressionError
    {
      if env.line[txtpos] == c {
        txtpos := txtpos + 1;
      } else {
        expressionError := true;
      }
      ok := !expressionError;
    }

    /** A quoted literal, copied byte by byte into a fresh temporary. */
    method StringLiteral() returns (r: Ref)
      requires Valid() && (env.line[txtpos] == DQUOTE || env.line[txtpos] == SQUOTE)
      modifies this
      ensures Valid() && RefOk(r) && Res(State(), r) == BasicEval.StringLiteral(env, old(State()))
    {
      hide Buffers, CBuffer, Quoted, Fill, CStr;
      ghost var data := Quoted(env.line, txtpos + 1, env.line[txtpos], 0);
      ghost var spec := NewTemp(env, State().(pos := txtpos + 1 + |data|), data);
      BuffersFacts(strTemp, strTempIdx);
      var delim := env.line[txtpos];
      txtpos := txtpos + 1;
      var k := Allocate();
      CopyQuoted(k, delim);
      r := Temp(k);
      assert Res(State(), r) == spec;
      var ok := Skip(delim);
    }

    method CopyQuoted(k: nat, delim: byte)
      requires EnvOk(env) && txtpos < |env.line| && |strTemp| == NUM_STR_TEMP && k < NUM_STR_TEMP
      requires |strTemp[k]| == STRVAR_LEN
      modifies this`txtpos, this`strTemp
      ensures var data := Quoted(env.line, old(txtpos), delim, 0);
              txtpos == old(txtpos) + |data| && strTemp == old(strTemp)[k := Fill(old(strTemp[k]), data)]
    {
      hide Buffers, Fill, Partly;
      ghost var was, temps, out: seq<byte> := strTemp[k], strTemp, [];
      CopyStarts(temps, k);
      var i := 0;
      while env.line[txtpos] != delim && env.line[txtpos] != NL && i < STRVAR_LEN - 1
        invariant txtpos < |env.line| && txtpos == old(txtpos) + i && i == |out| < STRVAR_LEN
        invariant Quoted(env.line, old(txtpos), delim, 0) == out + Quoted(env.line, txtpos, delim, i)
        invariant strTemp == temps[k := Partly(was, out)]
        decreases |env.line| - txtpos
      {
        CopyGoesOn(was, out, env.line[txtpos]);
        strTemp := strTemp[k := strTemp[k][i := env.line[txtpos]]];
        out := out + [env.line[txtpos]];
        txtpos := txtpos + 1;
        i := i + 1;
      }
      assert out + [] == out;
      CopyEnds(was, out);
      strTemp := strTemp[k := strTemp[k][i := 0]];
    }

    method StrExpr() returns (r: Ref)
      requires Valid()
      modifies this
      ensures Valid() && RefOk(r) && Res(State(), r) == BasicEval.StrExpr(env, old(State()))
      decreases |env.line| - txtpos, 1
    {
      hide BasicEval.FromNumber, BasicEval.Substring, BasicEval.StringLiteral, ScanWords, Blanks, Buffers;
      IgnoreBlanks();
      if env.line[txtpos] == DQUOTE || env.line[txtpos] == SQUOTE {
        r := StringLiteral();
        return;
      }
      ScanFor(STRFUNCS);
      var f := tableIndex;
      if f != STRFUNC_UNKNOWN {
        if env.line[txtpos] != OPEN {
          expressionError := true;
          return NoString;
        }
        txtpos := txtpos + 1;
        if f == STRFUNC_CHR || f == STRFUNC_STR {
          r := FromNumber(f);
        } else {
          r := Substring(f);
        }
        return;
      }
      if IsUpper(env.line[txtpos]) && env.line[txtpos + 1] == DOLLAR {
        r := StrVar(env.line[txtpos] - 65);
        txtpos := txtpos + 2;
        return;
      }
      expressionError := true;
      r := NoString;
    }

    method FromNumber(f: nat) returns (r: Ref)
      requires Valid()
      modifies this
      ensures Valid() && RefOk(r) && Res(State(), r) == BasicEval.FromNumber(env, old(State()), f)
      decreases |env.line| - txtpos, 5
    {
      hide BasicEval.Expression, NewTemp, SignedDigits, Buffers;
      var p := Expression();
      if expressionError {
        return NoString;
      }
      var ok := Skip(CLOSE);
      if !ok {
        return NoString;
      }
      var data := [p % 256];
      if f != STRFUNC_CHR {
        data := NumberDigits(p);
      }
      r := NewString(data);
    }

    method Substring(f: nat) returns (r: Ref)
      requires Valid()
      modifies this
      ensures Valid() && RefOk(r) && Res(State(), r) == BasicEval.Substring(env, old(State()), f)
      decreases |env.line| - txtpos, 5
    {
      hide BasicEval.StrExpr, BasicEval.Expression, BasicEval.OneSide, BasicEval.Middle, Blanks, Buffers;
      var src := StrExpr();
      if expressionError {
        return NoString;
      }
      IgnoreBlanks();
      var ok := Skip(COMMA);
      if !ok {
        return NoString;
      }
      var p := Expression();
      if expressionError {
        return NoString;
      }
      if f == STRFUNC_MID {
        r := Middle(src, Signed(p));
      } else {
        r := OneSide(src, f, p);
      }
    }

    method OneSide(src: Ref, f: nat, n: u32) returns (r: Ref)
      requires Valid() && RefOk(src)
      modifies this
      ensures Valid() && RefOk(r) && Res(State(), r) == BasicEval.OneSide(env, old(State()), src, f, n)
    {
      hide NewTemp, Buffers, CStr;
      var ok := Skip(CLOSE);
      if !ok {
        return NoString;
      }
      var b := Deref(env, State(), src);
      var srclen := StrLen(b);
      var p1 := Signed(n);
      if p1 < 0 {
        p1 := 0;
      }
      if p1 > srclen {
        p1 := srclen;
      }
      var from := if f == STRFUNC_LEFT then 0 else srclen - p1;
      assert b[0..p1] == b[..p1];
      r := NewPart(b, from, p1);
    }

    method Middle(src: Ref, p1: int) returns (r: Ref)
      requires Valid() && RefOk(src)
      modifies this
      ensures Valid() && RefOk(r) && Res(State(), r) == BasicEval.Middle(env, old(State()), src, p1)
      decreases |env.line| - txtpos, 5
    {
      hide BasicEval.Expression, BasicEval.MiddleEnd, Blanks;
      var srclen := StrLen(Deref(env, State(), src));
      IgnoreBlanks();
      var p2 := srclen;
      if env.line[txtpos] == COMMA {
        txtpos := txtpos + 1;
        var p := Expression();
        if expressionError {
          return NoString;
        }
        p2 := Signed(p);
      }
      r := MiddleEnd(src, srclen, p1, p2);
    }

    method MiddleEnd(src: Ref, srclen: nat, start: int, length: int) returns (r: Ref)
      requires Valid() && RefOk(src) && srclen < STRVAR_LEN && srclen < |Deref(env, State(), src)|
      modifies this
      ensures Valid() && RefOk(r)
      ensures Res(State(), r) == BasicEval.MiddleEnd(env, old(State()), src, srclen, start, length)
    {
      hide NewTemp, Buffers;
      var ok := Skip(CLOSE);
      if !ok {
        return NoString;
      }
      var p1, p2 := start, length;
      if p1 < 1 {
        p1 := 1;
      }
      if p1 > srclen {
        r := NewString([]);
        return;
      }
      if p2 < 0 {
        p2 := 0;
      }
      if p1 - 1 + p2 >= 0x8000_0000 {  // a long cannot hold the sum
        fault := true;
        r := NewString([]);
        return;
      }
      if p1 - 1 + p2 > srclen {
        p2 := srclen - (p1 - 1);
      }
      r := NewPart(Deref(env, State(), src), p1 - 1, p2);
    }
  }

  /** A buffer of which the bytes of out have been overwritten. */
  ghost function Partly(was: seq<byte>, out: seq<byte>): (r: seq<byte>)
    requires |out| <= |was|
    ensures |r| == |was|
  {
    out + was[|out|..]
  }

  lemma CopyStarts(temps: seq<seq<byte>>, k: nat)
    requires k < |temps|
    ensures temps[k := Partly(temps[k], [])] == temps
  {
    assert Partly(temps[k], []) == temps[k];
  }

  lemma CopyGoesOn(was: seq<byte>, out: seq<byte>, b: byte)
    requires |out| < |was|
    ensures Partly(was, out)[|out| := b] == Partly(was, out + [b])
  {
  }

  lemma CopyEnds(was: seq<byte>, out: seq<byte>)
    requires |out| < |was|
    ensures Partly(was, out)[|out| := 0] == Fill(was, out)
  {
  }

  lemma BuffersFacts(temps: seq<seq<byte>>, k: nat)
    requires Buffers(temps, NUM_STR_TEMP) && k < NUM_STR_TEMP
    ensures |temps| == NUM_STR_TEMP && |temps[k]| == STRVAR_LEN
  {
  }

  function Turned(s: seq<byte>): seq<byte> { if s == [] then [] else [s[|s| - 1]] + Turned(s[..|s| - 1]) }

  lemma TurnedEmpty()
    ensures Turned([]) == []
  {
  }

  lemma TurnedAppend(s: seq<byte>, b: byte)
    ensures Turned(s + [b]) == [b] + Turned(s)
  {
    assert (s + [b])[..|s|] == s;
  }
}
