/** The shell's line editor and its ring of the last 16 commands. */
module ShellHistory {
  import opened Machine

  const HIST_SIZE := 16
  const LINE_MAX := 128
  const KEY_UP: byte := 0x10
  const KEY_DOWN: byte := 0x11
  const KEY_BS: byte := 0x08
  const KEY_ENTER: byte := 13

  // ------------------------------------------------------------------- meaning

  /** The line being edited and the history position shown (-1: a line of one's own). */
  datatype Editor = Editor(text: seq<byte>, cursor: int)

  /** A session: every non-empty command so far, oldest first, and the line being edited. */
  datatype Session = Session(cmds: seq<seq<byte>>, edit: Editor)

  predicate Reachable(cmds: seq<seq<byte>>, cursor: int) { -1 <= cursor < |cmds| && cursor < HIST_SIZE }

  /** The command that history position h shows: the (h+1)-th most recent. */
  function Shown(cmds: seq<seq<byte>>, h: nat): seq<byte>
    requires h < |cmds|
  {
    cmds[|cmds| - 1 - h]
  }

  function KeyPressed(s: Session, c: byte): Session
    requires Reachable(s.cmds, s.edit.cursor)
  {
    var e := s.edit;
    if c == KEY_ENTER then s
    else if c == KEY_BS then
      if e.text == [] then s else s.(edit := e.(text := e.text[..|e.text| - 1]))
    else if c == KEY_UP then
      if Reachable(s.cmds, e.cursor + 1) then s.(edit := Editor(Shown(s.cmds, e.cursor + 1), e.cursor + 1)) else s
    else if c == KEY_DOWN then
      if e.cursor > 0 then s.(edit := Editor(Shown(s.cmds, e.cursor - 1), e.cursor - 1))
      else if e.cursor == 0 then s.(edit := Editor([], -1))
      else s
    else if |e.text| < LINE_MAX - 1 then s.(edit := e.(text := e.text + [c]))
    else s
  }

  function Cut(cmd: seq<byte>): seq<byte> { if |cmd| < LINE_MAX then cmd else cmd[..LINE_MAX - 1] }

  function Added(s: Session, cmd: seq<byte>): Session {
    if cmd == [] then s else Session(s.cmds + [Cut(cmd)], s.edit.(cursor := -1))
  }

  datatype Event = Key(c: byte) | NewLine | Add(cmd: seq<byte>)

  function Happen(s: Session, e: Event): Session
    requires Reachable(s.cmds, s.edit.cursor)
  {
    match e
    case Key(c) => KeyPressed(s, c)
    case NewLine => s.(edit := Editor([], -1))
    case Add(cmd) => Added(s, cmd)
  }

  predicate Typable(t: seq<byte>) { |t| < LINE_MAX && 0 !in t }

  predicate EventOk(e: Event) { (e.Key? ==> e.c != 0) && (e.Add? ==> 0 !in e.cmd) }

  /** What every session keeps: the line and every stored command fit their buffers and hold no NUL. */
  predicate SessionOk(s: Session) {
    && Reachable(s.cmds, s.edit.cursor)
    && Typable(s.edit.text)
    && forall i :: 0 <= i < |s.cmds| ==> Typable(s.cmds[i]) && s.cmds[i] != []
  }

  lemma EventKeepsSession(s: Session, e: Event)
    requires SessionOk(s) && EventOk(e)
    ensures SessionOk(Happen(s, e))
  {
    var t := Happen(s, e);
    if e.Add? && e.cmd != [] {
      assert 0 !in Cut(e.cmd);
    } else if e.Key? {
      assert t.cmds == s.cmds;
      assert Typable(t.edit.text);
    }
  }

  /** All the events of a session in order. */
  function Play(s: Session, es: seq<Event>): (r: Session)
    requires SessionOk(s) && forall i :: 0 <= i < |es| ==> EventOk(es[i])
    ensures SessionOk(r)
    decreases |es|
  {
    if es == [] then s
    else
      EventKeepsSession(s, es[0]);
      Play(Happen(s, es[0]), es[1..])
  }

  // -------------------------------------------------------------------- editing

  lemma UpOnce(s: Session)
    requires SessionOk(s)
    ensures KeyPressed(s, 0x10) ==
            var h := s.edit.cursor + 1;
            if h < |s.cmds| && h < 16 then Session(s.cmds, Editor(s.cmds[|s.cmds| - 1 - h], h)) else s
  {
  }

  /** Pressing up k times from a line of one's own shows the k-th most recent command, and stops at 16. */
  lemma {:induction false} UpShowsHistory(s: Session, k: nat)
    requires SessionOk(s) && s.edit.cursor == -1
    ensures var n := if |s.cmds| < 16 then |s.cmds| else 16;
            var shown := if k < n then k else n;
            var r := Presses(s, 0x10, k);
            r.cmds == s.cmds && r.edit == if shown == 0 then s.edit else Editor(s.cmds[|s.cmds| - shown], shown - 1)
  {
    hide SessionOk, KeyPressed;
    if k > 0 {
      UpShowsHistory(s, k - 1);
      UpOnce(Presses(s, 0x10, k - 1));
    }
  }

  /** Pressing down k times while the m-th most recent command is shown leads back to more recent ones, and after
      the most recent to an empty line of one's own. */
  lemma {:induction false} DownLeadsBack(s: Session, k: nat)
    requires SessionOk(s) && s.edit.cursor >= 0 && k > 0
    ensures var m := s.edit.cursor + 1;
            var r := Presses(s, 0x11, k);
            && r.cmds == s.cmds
            && r.edit == if k < m then Editor(s.cmds[|s.cmds| - (m - k)], m - k - 1) else Editor([], -1)
  {
    if k > 1 {
      DownLeadsBack(s, k - 1);
    }
    assert k == 1 ==> Presses(s, 0x11, 0) == s;
  }

  /** The key c pressed k times. */
  function Presses(s: Session, c: byte, k: nat): (r: Session)
    requires SessionOk(s) && c != 0
    ensures SessionOk(r)
    decreases k
  {
    if k == 0 then s
    else
      EventKeepsSession(Presses(s, c, k - 1), Key(c));
      KeyPressed(Presses(s, c, k - 1), c)
  }

  /** A key that goes into the line: not backspace, enter, up or down. */
  predicate Ordinary(c: byte) { c !in {0, 0x08, 13, 0x10, 0x11} }

  function Keys(keys: seq<byte>): (es: seq<Event>)
    requires forall i :: 0 <= i < |keys| ==> Ordinary(keys[i])
    ensures forall i :: 0 <= i < |es| ==> EventOk(es[i])
  {
    if keys == [] then [] else
      assert Ordinary(keys[0]);
      [Key(keys[0])] + Keys(keys[1..])
  }

  /** The first 127 bytes. */
  function Front(t: seq<byte>): seq<byte> { if |t| <= 127 then t else t[..127] }

  lemma KeyAppends(s: Session, c: byte)
    requires SessionOk(s) && Ordinary(c)
    ensures KeyPressed(s, c) == Session(s.cmds, Editor(Front(s.edit.text + [c]), s.edit.cursor))
  {
  }

  /** Typing puts the keys behind the line, up to 127 bytes in all, and leaves the history alone. */
  lemma {:induction false} TypingAppends(s: Session, keys: seq<byte>)
    requires SessionOk(s) && forall i :: 0 <= i < |keys| ==> Ordinary(keys[i])
    ensures Play(s, Keys(keys)) == Session(s.cmds, Editor(Front(s.edit.text + keys), s.edit.cursor))
    decreases |keys|
  {
    hide SessionOk, KeyPressed;
    TextFits(s);
    if keys == [] {
      assert s.edit.text + keys == s.edit.text;
    } else {
      EventKeepsSession(s, Key(keys[0]));
      KeyAppends(s, keys[0]);
      TypingAppends(KeyPressed(s, keys[0]), keys[1..]);
      assert Keys(keys)[1..] == Keys(keys[1..]);
      assert Front(Front(s.edit.text + [keys[0]]) + keys[1..]) == Front(s.edit.text + keys);
    }
  }

  lemma TextFits(s: Session)
    requires SessionOk(s)
    ensures |s.edit.text| <= 127 && Reachable(s.cmds, s.edit.cursor)
  {
  }

  /** Typing a key and then backspace changes nothing if and only if the line had room for the key. */
  lemma BackspaceUndoesKey(s: Session, c: byte)
    requires SessionOk(s) && Ordinary(c)
    ensures Play(s, [Key(c), Key(0x08)]) == s <==> |s.edit.text| < 127
    ensures |s.edit.text| == 127 ==> Play(s, [Key(c), Key(0x08)]).edit.text == s.edit.text[..126]
  {
    EventKeepsSession(s, Key(c));
    var t := KeyPressed(s, c);
    assert [Key(c), Key(0x08)][1..] == [Key(0x08)];
    EventKeepsSession(t, Key(0x08));
    assert Play(t, [Key(0x08)]) == KeyPressed(t, 0x08);
    if |s.edit.text| < 127 {
      assert t.edit.text[..|t.edit.text| - 1] == s.edit.text;
    }
  }

  /** A finished command goes behind the earlier ones, cut to 127 bytes, unless it is empty. */
  lemma CommandIsKept(s: Session, cmd: seq<byte>)
    requires SessionOk(s) && 0 !in cmd
    ensures Happen(s, Add(cmd)).cmds ==
            if cmd == [] then s.cmds else s.cmds + [Front(cmd)]
  {
  }

  // ------------------------------------------------------------------ the code

  /** A NUL-terminated row of LINE_MAX bytes that reads t. */
  predicate Row(b: seq<byte>, t: seq<byte>) {
    |b| == LINE_MAX && |t| < LINE_MAX && b[..|t|] == t && b[|t|] == 0
  }

  /** The rows of the history ring hold the last 16 commands. */
  predicate Rows(history: seq<seq<byte>>, cmds: seq<seq<byte>>)
    requires |history| == HIST_SIZE
  {
    forall k :: |cmds| - HIST_SIZE <= k < |cmds| && 0 <= k ==> Row(history[k % HIST_SIZE], cmds[k])
  }

  class Shell {
    var history: seq<seq<byte>>
    var histCount: nat
    var histCursor: int
    const buf: array<byte>
    var len: nat
    ghost var session: Session

    ghost predicate Valid()
      reads this, buf
    {
      && SessionOk(session)
      && buf.Length == LINE_MAX && |history| == HIST_SIZE
      && histCount == |session.cmds| && histCursor == session.edit.cursor
      && len == |session.edit.text| && Row(buf[..], session.edit.text)
      && Rows(history, session.cmds)
    }

    constructor ()
      ensures Valid() && session == Session([], Editor([], -1))
    {
      history := seq(HIST_SIZE, _ => seq(LINE_MAX, _ => 0));
      histCount, histCursor, len := 0, -1, 0;
      buf := new byte[LINE_MAX](_ => 0);
      session := Session([], Editor([], -1));
    }

    /** `history_add`: strncpy pads the row with NULs. */
    method HistoryAdd(cmd: seq<byte>)
      requires Valid() && 0 !in cmd
      modifies this
      ensures Valid() && session == Happen(old(session), Add(cmd))
    {
      EventKeepsSession(session, Add(cmd));
      if cmd == [] {
        return;
      }
      var row := Padded(Cut(cmd));
      history := history[histCount % HIST_SIZE := row];
      ghost var n := |session.cmds|;
      SlotsDiffer(n);
      histCount := histCount + 1;
      histCursor := -1;
      session := Added(session, cmd);
    }

    /** Starts reading a line. */
    method StartLine()
      requires Valid()
      modifies this, buf
      ensures Valid() && session == Happen(old(session), NewLine)
    {
      len := 0;
      buf[0] := 0;
      histCursor := -1;
      session := Happen(session, NewLine);
    }

    /** One turn of the key loop; true when the line is finished. */
    method KeyTurn(c: byte) returns (done: bool)
      requires Valid() && c != 0
      modifies this, buf
      ensures Valid() && session == Happen(old(session), Key(c)) && (done <==> c == 13)
    {
      hide Rows;
      EventKeepsSession(session, Key(c));
      done := false;
      if c == KEY_ENTER {
        buf[len] := 0;
        done := true;
      } else if c == KEY_BS {
        if len > 0 {
          len := len - 1;
          buf[len] := 0;
          session := KeyPressed(session, c);
          assert buf[..len] == session.edit.text;
        }
      } else if c == KEY_UP {
        if histCursor + 1 < histCount && histCursor + 1 < HIST_SIZE {
          histCursor := histCursor + 1;
          session := KeyPressed(session, c);
          ShowRow();
        }
      } else if c == KEY_DOWN {
        if histCursor > 0 {
          histCursor := histCursor - 1;
          session := KeyPressed(session, c);
          ShowRow();
        } else if histCursor == 0 {
          histCursor := -1;
          buf[0] := 0;
          len := 0;
          session := KeyPressed(session, c);
        }
      } else if len < LINE_MAX - 1 {
        buf[len] := c;
        len := len + 1;
        buf[len] := 0;
        session := KeyPressed(session, c);
        assert buf[..len] == session.edit.text;
      }
    }

    /** Copies the row at the cursor into the line. */
    method ShowRow()
      requires SessionOk(session) && buf.Length == LINE_MAX && |history| == HIST_SIZE
      requires histCount == |session.cmds| && 0 <= histCursor == session.edit.cursor
      requires session.edit.text == Shown(session.cmds, histCursor)
      requires Rows(history, session.cmds)
      modifies this`len, buf
      ensures len == |session.edit.text| && Row(buf[..], session.edit.text)
    {
      var idx := (histCount - 1 - histCursor + HIST_SIZE) % HIST_SIZE;
      ghost var k := |session.cmds| - 1 - histCursor;
      assert idx == k % HIST_SIZE;
      assert Row(history[idx], session.cmds[k]);
      len := CopyString(history[idx], buf, session.cmds[k]);
    }
  }

  /** t and NULs up to the end of a row. */
  function Padded(t: seq<byte>): (r: seq<byte>)
    requires |t| < LINE_MAX
    ensures Row(r, t)
  {
    t + seq(LINE_MAX - |t|, _ => 0)
  }

  lemma SlotsDiffer(n: nat)
    ensures forall k :: n - HIST_SIZE < k < n && 0 <= k ==> k % HIST_SIZE != n % HIST_SIZE
  {
  }

  /** `strcpy` and `strlen`. */
  method CopyString(src: seq<byte>, dst: array<byte>, ghost t: seq<byte>) returns (n: nat)
    requires Row(src, t) && 0 !in t && dst.Length == LINE_MAX
    modifies dst
    ensures n == |t| && Row(dst[..], t)
  {
    n := 0;
    while src[n] != 0
      invariant n <= |t| && dst[..n] == t[..n]
      decreases |t| - n
    {
      assert n < |t| by {
        assert src[|t|] == 0;
      }
      assert src[n] == src[..|t|][n];
      dst[n] := src[n];
      n := n + 1;
    }
    dst[n] := 0;
    assert dst[..n] == t;
  }

  /** A whole session of keys, fresh lines and added commands: the buffers hold what the events say. */
  method Replay(shell: Shell, es: seq<Event>)
    requires shell.Valid() && forall i :: 0 <= i < |es| ==> EventOk(es[i])
    modifies shell, shell.buf
    ensures shell.Valid() && shell.session == Play(old(shell.session), es)
  {
    var i := 0;
    while i < |es|
      invariant 0 <= i <= |es| && shell.Valid()
      invariant Play(old(shell.session), es) == Play(shell.session, es[i..])
    {
      assert es[i..][0] == es[i] && es[i..][1..] == es[i + 1..];
      match es[i] {
        case Key(c) =>
          var done := shell.KeyTurn(c);
        case NewLine =>
          shell.StartLine();
        case Add(cmd) =>
          shell.HistoryAdd(cmd);
      }
      i := i + 1;
    }
  }
}
