/** The shell's in-place tokeniser: it cuts the line buffer into NUL-terminated words. */
module ShellTokens {
  import opened Machine

  const MAXARGS := 40
  const ESC: byte := 0x1b

  predicate IsSpace(c: byte) { 9 <= c <= 13 || c == 32 }

  // ------------------------------------------------------------------- meaning

  /** The number of leading bytes of s that are spaces. */
  function Spaces(s: seq<byte>): (n: nat)
    ensures n <= |s| && (n < |s| ==> !IsSpace(s[n]))
  {
    if s == [] || !IsSpace(s[0]) then 0 else 1 + Spaces(s[1..])
  }

  /** The number of leading bytes of s that are not spaces. */
  function Solid(s: seq<byte>): (n: nat)
    ensures n <= |s| && (n < |s| ==> IsSpace(s[n]))
    ensures s != [] && !IsSpace(s[0]) ==> n > 0
  {
    if s == [] || IsSpace(s[0]) then 0 else 1 + Solid(s[1..])
  }

  /** The maximal runs of non-space bytes of s, in order. */
  function Words(s: seq<byte>): (r: seq<seq<byte>>)
    decreases |s|
  {
    var a := Spaces(s);
    if a == |s| then []
    else
      var t := s[a..];
      var k := Solid(t);
      assert !IsSpace(t[0]);
      [t[..k]] + Words(t[k..])
  }

  /** What the shell gets: the words, except that a line of blanks gives one empty word. */
  function Tokens(s: seq<byte>): seq<seq<byte>> { if s != [] && Words(s) == [] then [[]] else Words(s) }

  function FirstTokens(s: seq<byte>): seq<seq<byte>> {
    if |Tokens(s)| <= 40 then Tokens(s) else Tokens(s)[..40]
  }

  /** Words are nonempty and hold no spaces. */
  lemma {:induction false} WordsAreSolid(s: seq<byte>, k: nat)
    requires k < |Words(s)|
    ensures SolidWord(Words(s)[k])
    decreases |s|
  {
    hide SolidWord, IsSpace, Words, Spaces, Solid;
    WordsUnfold(s);
    var t := s[Spaces(s)..];
    var n := Solid(t);
    if k == 0 {
      FirstIsSolid(t);
    } else {
      WordsAreSolid(t[n..], k - 1);
    }
  }

  lemma WordsUnfold(s: seq<byte>)
    ensures var t := s[Spaces(s)..];
            Words(s) == if t == [] then [] else [t[..Solid(t)]] + Words(t[Solid(t)..])
  {
    hide Spaces, Solid, IsSpace;
  }

  lemma FirstIsSolid(t: seq<byte>)
    requires t != [] && !IsSpace(t[0])
    ensures SolidWord(t[..Solid(t)])
  {
    SolidPart(t);
  }

  lemma {:induction false} SolidPart(t: seq<byte>)
    ensures forall i :: 0 <= i < Solid(t) ==> !IsSpace(t[i])
  {
    if t != [] && !IsSpace(t[0]) {
      SolidPart(t[1..]);
      forall i | 0 <= i < Solid(t) ensures !IsSpace(t[i]) {
        if i > 0 {
          assert t[i] == t[1..][i - 1];
        }
      }
    }
  }

  /** Leading spaces do not matter to the words. */
  lemma WordsSkip(s: seq<byte>)
    ensures Words(s) == Words(s[Spaces(s)..])
  {
    var t := s[Spaces(s)..];
    assert Spaces(t) == 0;
    assert t[0..] == t;
  }

  /** Only blanks: tab, newline, vertical tab, form feed, carriage return and space. */
  predicate Blank(g: seq<byte>) { forall i :: 0 <= i < |g| ==> g[i] in {9, 10, 11, 12, 13, 32} }

  predicate SolidWord(w: seq<byte>) { w != [] && forall i :: 0 <= i < |w| ==> w[i] !in {9, 10, 11, 12, 13, 32} }

  /** A line made of words with blanks around them: gaps[0] w0 gaps[1] w1 ... and a last gap. */
  function Join(gaps: seq<seq<byte>>, ws: seq<seq<byte>>): seq<byte>
    requires |gaps| == |ws| + 1
    decreases |ws|
  {
    if ws == [] then gaps[0] else gaps[0] + (ws[0] + Join(gaps[1..], ws[1..]))
  }

  lemma {:induction false} SpacesOf(g: seq<byte>, t: seq<byte>)
    requires Blank(g) && (t != [] ==> !IsSpace(t[0]))
    ensures Spaces(g + t) == |g|
  {
    if g == [] {
      assert g + t == t;
    } else {
      SpacesOf(g[1..], t);
      assert (g + t)[1..] == g[1..] + t;
    }
  }

  lemma {:induction false} SolidOf(w: seq<byte>, t: seq<byte>)
    requires (forall i :: 0 <= i < |w| ==> !IsSpace(w[i])) && (t != [] ==> IsSpace(t[0]))
    ensures Solid(w + t) == |w|
  {
    if w == [] {
      assert w + t == t;
    } else {
      SolidOf(w[1..], t);
      assert (w + t)[1..] == w[1..] + t;
    }
  }

  /** Splitting undoes joining, whatever the blanks between the words. */
  lemma {:induction false} WordsOfJoin(gaps: seq<seq<byte>>, ws: seq<seq<byte>>)
    requires |gaps| == |ws| + 1
    requires forall i :: 0 <= i < |gaps| ==> Blank(gaps[i])
    requires forall i :: 0 < i < |ws| ==> gaps[i] != []
    requires forall i :: 0 <= i < |ws| ==> SolidWord(ws[i])
    ensures Words(Join(gaps, ws)) == ws
    decreases |ws|
  {
    hide Words, SolidWord, Blank;
    if ws == [] {
      WordsOfBlank(gaps[0]);
    } else {
      var rest := Join(gaps[1..], ws[1..]);
      if |ws| > 1 {
        StartsWithGap(gaps[1], ws[1] + Join(gaps[2..], ws[2..]));
        assert gaps[1..][0] == gaps[1] && ws[1..][0] == ws[1];
        assert gaps[1..][1..] == gaps[2..] && ws[1..][1..] == ws[2..];
      } else {
        StartsWithGap(gaps[1], []);
        assert rest == gaps[1] + [];
      }
      WordsOfPiece(gaps[0], ws[0], rest);
      WordsOfJoin(gaps[1..], ws[1..]);
    }
  }

  lemma StartsWithGap(g: seq<byte>, t: seq<byte>)
    requires Blank(g) && (g == [] ==> t == [])
    ensures g + t != [] ==> IsSpace((g + t)[0])
  {
  }

  lemma WordsOfBlank(g: seq<byte>)
    requires Blank(g)
    ensures Words(g) == []
  {
    assert g + [] == g;
    SpacesOf(g, []);
  }

  lemma WordsOfPiece(g: seq<byte>, w: seq<byte>, rest: seq<byte>)
    requires Blank(g) && SolidWord(w) && (rest != [] ==> IsSpace(rest[0]))
    ensures Words(g + (w + rest)) == [w] + Words(rest)
  {
    hide Spaces, Solid;
    var s := g + (w + rest);
    SpacesOf(g, w + rest);
    SolidOf(w, rest);
    assert s[|g|..] == w + rest;
    assert (w + rest)[..|w|] == w && (w + rest)[|w|..] == rest;
  }

  // ------------------------------------------------------------------ the code

  /** w is at p, followed by a NUL. */
  ghost predicate Holds(m: seq<byte>, p: nat, w: seq<byte>) {
    p + |w| < |m| && m[p..p + |w|] == w && m[p + |w|] == 0
  }

  ghost predicate HoldsAll(m: seq<byte>, args: seq<nat>, ws: seq<seq<byte>>, limit: nat) {
    |args| == |ws| && forall k :: 0 <= k < |args| ==> args[k] + |ws[k]| < limit && Holds(m, args[k], ws[k])
  }

  /** From p up to the terminator at p + |s|, the line is s. */
  ghost predicate Rest(m: seq<byte>, p: nat, s: seq<byte>) {
    && p + |s| < |m| && m[p + |s|] == 0
    && forall i :: p <= i < p + |s| ==> m[i] == s[i - p] != 0
  }

  lemma RestSuffix(m: seq<byte>, p: nat, s: seq<byte>, k: nat)
    requires Rest(m, p, s) && k <= |s|
    ensures Rest(m, p + k, s[k..])
  {
  }

  method SkipSpaces(line: array<byte>, p: nat, ghost s: seq<byte>) returns (q: nat)
    requires Rest(line[..], p, s)
    ensures q == p + Spaces(s)
  {
    q := p;
    while IsSpace(line[q])
      invariant p <= q <= p + |s| && Spaces(s) == q - p + Spaces(s[q - p..])
      decreases p + |s| - q
    {
      assert line[q] == line[..][q];
      assert s[q - p..][1..] == s[q - p + 1..];
      q := q + 1;
    }
    assert line[q] == line[..][q];
  }

  method SkipWord(line: array<byte>, p: nat, ghost s: seq<byte>) returns (q: nat)
    requires Rest(line[..], p, s)
    ensures q == p + Solid(s)
  {
    q := p;
    while line[q] != 0 && !IsSpace(line[q])
      invariant p <= q <= p + |s| && Solid(s) == q - p + Solid(s[q - p..])
      decreases p + |s| - q
    {
      assert line[q] == line[..][q];
      assert s[q - p..][1..] == s[q - p + 1..];
      q := q + 1;
    }
    assert line[q] == line[..][q];
  }

  /** Overwrites the spaces at p with NULs. */
  method ClearSpaces(line: array<byte>, p: nat, ghost s: seq<byte>) returns (q: nat)
    requires Rest(line[..], p, s)
    modifies line
    ensures q == p + Spaces(s)
    ensures forall i :: p <= i < q ==> line[i] == 0
    ensures forall i :: 0 <= i < p || q <= i < line.Length ==> line[i] == old(line[i])
  {
    q := p;
    ghost var was := line[..];
    while IsSpace(line[q])
      invariant p <= q <= p + |s| && Spaces(s) == q - p + Spaces(s[q - p..])
      invariant forall i :: p <= i < q ==> line[i] == 0
      invariant forall i :: 0 <= i < p || q <= i < line.Length ==> line[i] == was[i]
      decreases p + |s| - q
    {
      assert s[q - p..][1..] == s[q - p + 1..];
      line[q] := 0;
      q := q + 1;
    }
  }

  lemma HoldsKept(m: seq<byte>, m': seq<byte>, args: seq<nat>, ws: seq<seq<byte>>, limit: nat)
    requires HoldsAll(m, args, ws, limit) && limit <= |m| == |m'|
    requires forall i :: 0 <= i < limit ==> m'[i] == m[i]
    ensures HoldsAll(m', args, ws, limit)
  {
    forall k | 0 <= k < |args| ensures Holds(m', args[k], ws[k]) {
      var p, w := args[k], ws[k];
      assert Holds(m, p, w);
      assert m'[p..p + |w|] == m[p..p + |w|];
    }
  }

  lemma HoldsMore(m: seq<byte>, args: seq<nat>, ws: seq<seq<byte>>, limit: nat, p: nat, w: seq<byte>, limit': nat)
    requires HoldsAll(m, args, ws, limit) && limit <= limit' && Holds(m, p, w) && p + |w| < limit'
    ensures HoldsAll(m, args + [p], ws + [w], limit')
  {
    var a, b := args + [p], ws + [w];
    forall k | 0 <= k < |a| ensures a[k] + |b[k]| < limit' && Holds(m, a[k], b[k]) {
      if k < |args| {
        assert a[k] == args[k] && b[k] == ws[k];
      }
    }
  }

  /** The first word of what is left, with a NUL put behind it. */
  lemma WordCut(m: seq<byte>, p: nat, s: seq<byte>, m': seq<byte>)
    requires Rest(m, p, s) && |m'| == |m|
    requires forall i :: p <= i < p + Solid(s) ==> m'[i] == m[i]
    requires m'[p + Solid(s)] == 0
    ensures Holds(m', p, s[..Solid(s)])
  {
    var w := s[..Solid(s)];
    forall i | 0 <= i < |w| ensures m'[p..p + |w|][i] == w[i] {
    }
  }

  /** What one turn of the loop takes: the first word, or an empty one when only blanks are left. */
  function TurnWord(s: seq<byte>): seq<byte> { s[Spaces(s)..][..Solid(s[Spaces(s)..])] }

  /** What it leaves: the line after that word and the spaces behind it. */
  function TurnRest(s: seq<byte>): (r: seq<byte>)
    ensures s != [] ==> |r| < |s|
    ensures r != [] ==> !IsSpace(r[0])
  {
    var t := s[Spaces(s)..];
    var u := t[Solid(t)..];
    u[Spaces(u)..]
  }

  /** Cuts one word off: `ptr` goes past it and the spaces after it, which become NULs. */
  method TakeWord(line: array<byte>, ptr: nat, ghost s: seq<byte>) returns (arg: nat, next: nat)
    requires Rest(line[..], ptr, s) && s != []
    modifies line
    ensures next + |TurnRest(s)| == ptr + |s| && Rest(line[..], next, TurnRest(s))
    ensures Holds(line[..], arg, TurnWord(s)) && ptr <= arg
    ensures arg + |TurnWord(s)| <= next && (arg + |TurnWord(s)| == next ==> TurnRest(s) == [])
    ensures forall i :: 0 <= i < ptr || next <= i < line.Length ==> line[i] == old(line[i])
  {
    hide Spaces, Solid, TurnWord, TurnRest, Holds;
    ghost var m := line[..];
    arg := SkipSpaces(line, ptr, s);
    ghost var t := s[Spaces(s)..];
    RestSuffix(m, ptr, s, Spaces(s));
    next := SkipWord(line, arg, t);
    ghost var u := t[Solid(t)..];
    RestSuffix(m, arg, t, Solid(t));
    ghost var end := next;
    AtEnd(m, end, u);
    if line[next] != 0 {
      next := ClearSpaces(line, next, u);
    }
    WordTaken(m, line[..], arg, t, next);
    TurnParts(s);
  }

  lemma TurnParts(s: seq<byte>)
    ensures var t := s[Spaces(s)..];
            var u := t[Solid(t)..];
            TurnWord(s) == t[..Solid(t)] && TurnRest(s) == u[Spaces(u)..]
  {
    hide Spaces, Solid;
  }

  lemma AtEnd(m: seq<byte>, p: nat, u: seq<byte>)
    requires Rest(m, p, u) && (u != [] ==> IsSpace(u[0]))
    ensures m[p] == 0 <==> u == []
    ensures u == [] ==> Spaces(u) == 0
    ensures u != [] ==> Spaces(u) > 0
  {
  }

  lemma WordTaken(m: seq<byte>, m': seq<byte>, arg: nat, t: seq<byte>, next: nat)
    requires Rest(m, arg, t) && |m'| == |m|
    requires var u := t[Solid(t)..];
             && next == arg + Solid(t) + Spaces(u)
             && (forall i :: arg + Solid(t) <= i < next ==> m'[i] == 0)
    requires forall i :: 0 <= i < arg + Solid(t) || next <= i < |m| ==> m'[i] == m[i]
    ensures var u := t[Solid(t)..];
            && Holds(m', arg, t[..Solid(t)])
            && Rest(m', next, u[Spaces(u)..])
            && (Spaces(u) == 0 ==> u == [])
  {
    hide Spaces, Solid, Holds;
    var u := t[Solid(t)..];
    RestSuffix(m, arg, t, Solid(t));
    AtEnd(m, arg + Solid(t), u);
    RestSuffix(m, arg + Solid(t), u, Spaces(u));
    RestKept(m, m', next, u[Spaces(u)..]);
    WordCut(m, arg, t, m');
  }

  lemma RestKept(m: seq<byte>, m': seq<byte>, p: nat, s: seq<byte>)
    requires Rest(m, p, s) && |m'| == |m| && forall i :: p <= i < |m| ==> m'[i] == m[i]
    ensures Rest(m', p, s)
  {
  }

  /** One turn peels the first token off. */
  lemma TurnPeels(s: seq<byte>, first: bool)
    requires s != [] && (first || !IsSpace(s[0]))
    ensures (if first then Tokens(s) else Words(s)) == [TurnWord(s)] + Words(TurnRest(s))
  {
    hide Spaces, Solid, TurnWord, TurnRest, Words, IsSpace;
    var a := Spaces(s);
    var t := s[a..];
    var u := t[Solid(t)..];
    TurnParts(s);
    WordsStep(s);
    WordsSkip(u);
    if a == |s| {
      Nothing();
      assert t == [] && u == [];
      StartsBlank(s);
    }
  }

  lemma WordsStep(s: seq<byte>)
    ensures Words(s) ==
            if Spaces(s) == |s| then []
            else [s[Spaces(s)..][..Solid(s[Spaces(s)..])]] + Words(s[Spaces(s)..][Solid(s[Spaces(s)..])..])
  {
    hide Spaces, Solid;
  }

  lemma StartsBlank(s: seq<byte>)
    requires s != [] && Spaces(s) == |s|
    ensures IsSpace(s[0])
  {
  }

  lemma Nothing()
    ensures Spaces([]) == 0 && Solid([]) == 0 && Words([]) == []
  {
  }

  /** The words of the line, at most 40 of them, each NUL-terminated where it stood. A line that
      starts with ESC is refused instead. */
  method ExecuteCmd(line: array<byte>, ghost n: nat) returns (ok: bool, args: seq<nat>)
    requires n < line.Length && line[n] == 0 && forall i :: 0 <= i < n ==> line[i] != 0
    modifies line
    ensures ok <==> old(line[0]) != 0x1b
    ensures ok ==> HoldsAll(line[..], args, FirstTokens(old(line[..n])), n + 1)
    ensures forall i :: n < i < line.Length ==> line[i] == old(line[i])
  {
    hide Words, Tokens, FirstTokens, TurnWord, TurnRest, Holds, IsSpace;
    args := [];
    if line[0] == ESC {
      return false, args;
    }
    ghost var all := line[..n];
    var ptr := 0;
    ghost var s, done: seq<seq<byte>>, limit: nat := all, [], 0;
    while true
      invariant ptr + |s| == n && Rest(line[..], ptr, s)
      invariant |args| <= MAXARGS && (args == [] ==> ptr == 0 && s == all && done == [])
      invariant args != [] && s != [] ==> !IsSpace(s[0])
      invariant args != [] ==> Tokens(all) == done + Words(s)
      invariant limit <= n + 1 && (s != [] ==> limit <= ptr)
      invariant HoldsAll(line[..], args, done, limit)
      invariant forall i :: n < i < line.Length ==> line[i] == old(line[i])
      decreases |s|
    {
      ghost var m := line[..];
      if |args| == MAXARGS {
        line[ptr] := 0;
        LastKept(m, line[..], args, done, limit, ptr, s, n);
        CutAtLimit(all, done, Words(s));
        return true, args;
      }
      if line[ptr] == 0 {
        Finished(m, args, done, limit, ptr, s, n);
        CutNowhere(all, s, done, args == []);
        return true, args;
      }
      assert s != [] by {
        assert m[ptr] != 0;
      }
      TurnPeels(s, args == []);
      var arg, next := TakeWord(line, ptr, s);
      ghost var w, s' := TurnWord(s), TurnRest(s);
      ghost var limit' := if s' == [] then n + 1 else next;
      HoldsKept(m, line[..], args, done, limit);
      HoldsMore(line[..], args, done, limit, arg, w, limit');
      assert done + [w] + Words(s') == done + ([w] + Words(s'));
      assert args == [] ==> Tokens(all) == [w] + Words(s') == done + [w] + Words(s');
      args, done, limit := args + [arg], done + [w], limit';
      ptr, s := next, s';
    }
  }

  lemma Widen(m: seq<byte>, args: seq<nat>, ws: seq<seq<byte>>, limit: nat, limit': nat)
    requires HoldsAll(m, args, ws, limit) && limit <= limit'
    ensures HoldsAll(m, args, ws, limit')
  {
    hide Holds;
  }

  lemma LastKept(m: seq<byte>, m': seq<byte>, args: seq<nat>, ws: seq<seq<byte>>, limit: nat, ptr: nat,
                 s: seq<byte>, n: nat)
    requires Rest(m, ptr, s) && ptr + |s| == n && HoldsAll(m, args, ws, limit)
    requires limit <= n + 1 && (s != [] ==> limit <= ptr) && m' == m[ptr := 0]
    ensures HoldsAll(m', args, ws, n + 1)
  {
    hide Holds;
    HoldsKept(m, m', args, ws, limit);
    Widen(m', args, ws, limit, n + 1);
  }

  lemma Finished(m: seq<byte>, args: seq<nat>, ws: seq<seq<byte>>, limit: nat, ptr: nat, s: seq<byte>, n: nat)
    requires Rest(m, ptr, s) && ptr + |s| == n && m[ptr] == 0 && HoldsAll(m, args, ws, limit) && limit <= n + 1
    ensures s == [] && HoldsAll(m, args, ws, n + 1)
  {
    hide Holds;
    Widen(m, args, ws, limit, n + 1);
  }

  lemma CutAtLimit(all: seq<byte>, done: seq<seq<byte>>, rest: seq<seq<byte>>)
    requires |done| == MAXARGS && Tokens(all) == done + rest
    ensures FirstTokens(all) == done
  {
  }

  lemma CutNowhere(all: seq<byte>, s: seq<byte>, done: seq<seq<byte>>, first: bool)
    requires s == [] && |done| <= MAXARGS
    requires if first then all == s && done == [] else Tokens(all) == done + Words(s)
    ensures FirstTokens(all) == done
  {
  }
}
