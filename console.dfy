/** The debug console: a file-like sink for standard output that splits what is
    written into log lines, a detector for input that still needs a
    continuation line (open brackets, a trailing colon), and the one-line editor
    with history that feeds the interpreter. Evaluating the input is not part
    of this model: what an evaluation printed and the traceback it raised are
    parameters. */
module Console {
  import opened Util

  datatype LineKind = LogText | PromptText | ReplText | ErrorText

  /** A line of the console's scroll-back and how it is coloured. */
  type Line = (LineKind, string)

  const PS1: string := ">>> "
  const PS2: string := "... "
  const STARTED: string := "Debug console started"

  // ---------------------------------------------------------------------
  // Writing

  /** One written character: a newline emits the buffer as a log line, a
      carriage return is dropped, anything else is buffered. */
  function Fed(w: (seq<Line>, string), c: char): (seq<Line>, string)
  {
    if c == '\n' then (w.0 + [(LogText, w.1)], "")
    else if c == '\r' then w
    else (w.0, w.1 + [c])
  }

  /** The lines and the buffer after writing `text`. */
  function Written(lines: seq<Line>, buf: string, text: string): (seq<Line>, string)
    decreases |text|
  {
    if text == [] then (lines, buf)
    else Fed(Written(lines, buf, text[..|text| - 1]), text[|text| - 1])
  }

  /** `text` without its carriage returns. */
  function WithoutCR(text: string): string
    decreases |text|
  {
    if text == [] then ""
    else WithoutCR(text[..|text| - 1]) + (if text[|text| - 1] == '\r' then "" else [text[|text| - 1]])
  }

  /** The text of `ls`, each line followed by a newline. */
  function Joined(ls: seq<Line>): string
    decreases |ls|
  {
    if ls == [] then "" else Joined(ls[..|ls| - 1]) + ls[|ls| - 1].1 + "\n"
  }

  predicate Clean(s: string)
  {
    '\n' !in s && '\r' !in s
  }

  /** Writing keeps the lines already there and adds only log lines; those
      lines, each with its newline, followed by the new buffer, are the old
      buffer followed by the written text minus its carriage returns. */
  lemma {:induction false} WrittenSplits(lines: seq<Line>, buf: string, text: string)
    ensures var w := Written(lines, buf, text);
      |lines| <= |w.0| && w.0[..|lines|] == lines
      && (forall i :: |lines| <= i < |w.0| ==> w.0[i].0 == LogText)
      && Joined(w.0[|lines|..]) + w.1 == buf + WithoutCR(text)
    decreases |text|
  {
    if text != [] {
      var t, c := text[..|text| - 1], text[|text| - 1];
      WrittenSplits(lines, buf, t);
      FedSplits(lines, buf, Written(lines, buf, t), WithoutCR(t), c);
      assert WithoutCR(text) == WithoutCR(t) + (if c == '\r' then "" else [c]);
    }
  }

  /** One step of the previous lemma. */
  lemma FedSplits(lines: seq<Line>, buf: string, v: (seq<Line>, string), done: string, c: char)
    requires |lines| <= |v.0| && v.0[..|lines|] == lines
    requires forall i :: |lines| <= i < |v.0| ==> v.0[i].0 == LogText
    requires Joined(v.0[|lines|..]) + v.1 == buf + done
    ensures var w := Fed(v, c);
      |lines| <= |w.0| && w.0[..|lines|] == lines
      && (forall i :: |lines| <= i < |w.0| ==> w.0[i].0 == LogText)
      && Joined(w.0[|lines|..]) + w.1 == buf + done + (if c == '\r' then "" else [c])
  {
    var w := Fed(v, c);
    if c == '\n' {
      assert w.0[|lines|..] == v.0[|lines|..] + [(LogText, v.1)];
      JoinedSnoc(v.0[|lines|..], (LogText, v.1));
      assert w.0[..|lines|] == v.0[..|lines|];
    } else if c != '\r' {
      assert Joined(w.0[|lines|..]) + w.1 == (Joined(v.0[|lines|..]) + v.1) + [c];
    }
  }

  lemma JoinedSnoc(ls: seq<Line>, l: Line)
    ensures Joined(ls + [l]) == Joined(ls) + l.1 + "\n"
  {
    assert (ls + [l])[..|ls|] == ls;
  }

  /** With a buffer free of line breaks, no emitted line and no new buffer
      holds a newline or a carriage return: the split of the previous lemma is
      the only one. */
  lemma {:induction false} WrittenClean(lines: seq<Line>, buf: string, text: string)
    requires Clean(buf)
    ensures var w := Written(lines, buf, text);
      Clean(w.1) && forall i :: |lines| <= i < |w.0| ==> Clean(w.0[i].1)
    decreases |text|
  {
    if text != [] {
      WrittenClean(lines, buf, text[..|text| - 1]);
      WrittenSplits(lines, buf, text[..|text| - 1]);
    }
  }

  /** Text without line breaks only grows the buffer. */
  lemma {:induction false} WrittenPlain(lines: seq<Line>, buf: string, text: string)
    requires Clean(text)
    ensures Written(lines, buf, text) == (lines, buf + text)
    decreases |text|
  {
    if text != [] {
      var t := text[..|text| - 1];
      assert Clean(t) by {
        assert forall c :: c in t ==> c in text;
      }
      WrittenPlain(lines, buf, t);
      var c := text[|text| - 1];
      assert c in text;
      assert text == t + [c];
      assert c != '\n' && c != '\r';
      assert Written(lines, buf, text) == Fed((lines, buf + t), c);
      assert (buf + t) + [c] == buf + text;
    } else {
      assert buf + text == buf;
    }
  }

  /** Writing `t` and a newline emits the buffer that `t` leaves as one more
      log line and empties the buffer. */
  lemma WrittenLine(lines: seq<Line>, buf: string, t: string)
    ensures var w := Written(lines, buf, t);
      Written(lines, buf, t + "\n") == (w.0 + [(LogText, w.1)], "")
  {
    assert (t + "\n")[..|t|] == t;
  }

  // ---------------------------------------------------------------------
  // Whitespace, as Python's str.isspace sees it

  predicate IsSpace(c: char)
  {
    c == ' ' || '\t' <= c <= '\r' || '\U{1c}' <= c <= '\U{1f}' || c == '\U{85}' || c == '\U{a0}'
    || c == '\U{1680}' || '\U{2000}' <= c <= '\U{200a}' || c == '\U{2028}' || c == '\U{2029}'
    || c == '\U{202f}' || c == '\U{205f}' || c == '\U{3000}'
  }

  /** `s.strip()` is empty. */
  predicate Blank(s: string)
  {
    forall i :: 0 <= i < |s| ==> IsSpace(s[i])
  }

  /** `s.rstrip()`: without trailing whitespace. */
  function RStrip(s: string): (r: string)
    ensures |r| <= |s| && r == s[..|r|] && (r == [] || !IsSpace(r[|r| - 1]))
    ensures forall i :: |r| <= i < |s| ==> IsSpace(s[i])
    decreases |s|
  {
    if s != [] && IsSpace(s[|s| - 1]) then RStrip(s[..|s| - 1]) else s
  }

  /** `s.rstrip(' ')`: without trailing spaces. */
  function RStripSpaces(s: string): (r: string)
    ensures |r| <= |s| && r == s[..|r|] && (r == [] || r[|r| - 1] != ' ')
    ensures forall i :: |r| <= i < |s| ==> s[i] == ' '
    decreases |s|
  {
    if s != [] && s[|s| - 1] == ' ' then RStripSpaces(s[..|s| - 1]) else s
  }

  predicate EndsWith(s: string, c: char)
  {
    s != [] && s[|s| - 1] == c
  }

  // ---------------------------------------------------------------------
  // Is the input complete?

  /** The scanner's state after part of the input: the brackets still open,
      the quote of the string being read, the previous character, and whether
      a colon ended a line. */
  datatype Scan = Scan(brackets: string, quote: Option<char>, prev: Option<char>, block: bool)

  const Fresh := Scan("", None, None, false)

  predicate IsOpener(c: char) { c == '(' || c == '[' || c == '{' }
  predicate IsCloser(c: char) { c == ')' || c == ']' || c == '}' }

  /** The opener a closer matches. */
  function Partner(c: char): (r: char)
    requires IsCloser(c)
    ensures IsOpener(r)
  {
    if c == ')' then '(' else if c == ']' then '[' else '{'
  }

  /** One character of the scan. An unescaped quote opens a string or closes
      the string it opened; outside a string an opener is pushed and a closer
      takes the first matching opener out (a closer without one is ignored). */
  function Scanned(s: Scan, c: char): Scan
  {
    var quote :=
      if (c == '"' || c == '\'') && s.prev != Some('\\') then
        if s.quote.None? then Some(c) else if s.quote == Some(c) then None else s.quote
      else s.quote;
    var brackets :=
      if IsOpener(c) && quote.None? then s.brackets + [c]
      else if IsCloser(c) && quote.None? && Partner(c) in s.brackets then Remove(s.brackets, Partner(c))
      else s.brackets;
    Scan(brackets, quote, Some(c), s.block || (c == '\n' && s.prev == Some(':')))
  }

  /** The scan of the whole input. */
  function ScanOf(inp: string): Scan
    decreases |inp|
  {
    if inp == [] then Fresh else Scanned(ScanOf(inp[..|inp| - 1]), inp[|inp| - 1])
  }

  /** The input is complete: it does not end in a colon, leaves no bracket
      open, and, if a line ended in a colon, it ends with an empty line. */
  predicate IsClosed(inp: string)
  {
    var s := ScanOf(inp);
    !EndsWith(RStrip(inp), ':') && s.brackets == []
    && !(s.block && !EndsWith(RStripSpaces(inp), '\n'))
  }

  /** The scan, run one character at a time. */
  method Closed(inp: string) returns (closed: bool)
    ensures closed == IsClosed(inp)
  {
    var s := Fresh;
    var i := 0;
    while i < |inp|
      invariant 0 <= i <= |inp|
      invariant s == ScanOf(inp[..i])
    {
      assert inp[..i + 1][..i] == inp[..i];
      s := Scanned(s, inp[i]);
      i := i + 1;
    }
    assert inp[..|inp|] == inp;
    closed := true;
    if EndsWith(RStrip(inp), ':') || s.brackets != [] {
      closed := false;
    } else if s.block && !EndsWith(RStripSpaces(inp), '\n') {
      closed := false;
    }
  }

  /** Only openers are ever left open. */
  lemma {:induction false} OnlyOpenersPending(inp: string)
    ensures forall c :: c in ScanOf(inp).brackets ==> IsOpener(c)
    decreases |inp|
  {
    if inp != [] {
      var s := ScanOf(inp[..|inp| - 1]);
      OnlyOpenersPending(inp[..|inp| - 1]);
      var c := inp[|inp| - 1];
      if IsCloser(c) && Partner(c) in s.brackets {
        RemoveCount(s.brackets, Partner(c));
        forall d | d in Remove(s.brackets, Partner(c)) ensures d in s.brackets {
          assert d in multiset(Remove(s.brackets, Partner(c)));
        }
      }
    }
  }

  /** The scan of a longer input is one more step. */
  lemma ScanOfSnoc(inp: string, c: char)
    ensures ScanOf(inp + [c]) == Scanned(ScanOf(inp), c)
  {
    assert (inp + [c])[..|inp|] == inp;
  }

  /** Input whose last non-blank character is a colon is not complete. */
  lemma ColonContinues(inp: string)
    requires EndsWith(RStrip(inp), ':')
    ensures !IsClosed(inp)
  {
  }

  /** An opener outside a string leaves the input incomplete. */
  lemma OpenerContinues(inp: string, c: char)
    requires ScanOf(inp).quote.None? && IsOpener(c)
    ensures ScanOf(inp + [c]).brackets == ScanOf(inp).brackets + [c]
    ensures !IsClosed(inp + [c])
  {
    ScanOfSnoc(inp, c);
  }

  /** A closer with no open partner changes nothing but the previous
      character. */
  lemma StrayCloserIgnored(inp: string, c: char)
    requires IsCloser(c) && Partner(c) !in ScanOf(inp).brackets
    ensures ScanOf(inp + [c]).brackets == ScanOf(inp).brackets
    ensures ScanOf(inp + [c]).quote == ScanOf(inp).quote
  {
    ScanOfSnoc(inp, c);
    assert c != '"' && c != '\'';
  }

  /** A quote right after a backslash neither opens nor closes a string. */
  lemma EscapedQuoteIgnored(inp: string, q: char)
    requires q == '"' || q == '\''
    requires EndsWith(inp, '\\')
    ensures ScanOf(inp + [q]).quote == ScanOf(inp).quote
  {
    ScanOfSnoc(inp, q);
    assert ScanOf(inp).prev == Some('\\');
  }

  // ---------------------------------------------------------------------
  // The editor

  datatype Key = Backspace | Delete | Enter | Left | Right | Tab | Up | Down | KeyC | Backquote | OtherKey

  /** A key press (with the Ctrl modifier and the text it types), a quit
      request, or any other event. */
  datatype Event = KeyDown(key: Key, ctrl: bool, text: string) | Quit | OtherEvent

  /** What the console answers when offered an event: Python's False, True
      and None. Only Grabbed keeps the event from the scenes. */
  datatype Reply = Refused | Grabbed | NoReply

  /** What evaluating a complete input did: what it printed and, when it
      raised, the lines of its traceback. */
  datatype Outcome = Outcome(output: string, traceback: Option<seq<string>>)

  /** The traceback lines shown: all but the second and third, which name the
      console itself. */
  function Shown(tb: seq<string>): (r: seq<Line>)
    ensures |r| == (if |tb| <= 1 then |tb| else if |tb| <= 3 then 1 else |tb| - 2)
    ensures forall i :: 0 <= i < |r| ==> r[i].0 == ErrorText
    ensures |tb| > 0 ==> r[0] == (ErrorText, tb[0])
    ensures forall i :: 3 <= i < |tb| ==> r[i - 2] == (ErrorText, tb[i])
  {
    if tb == [] then []
    else [(ErrorText, tb[0])] + seq(if |tb| <= 3 then 0 else |tb| - 3, i requires 0 <= i < |tb| - 3 => (ErrorText, tb[i + 3]))
  }

  /** `s[..i]` and `s[i..]` as Python slices them: clamped to the string. */
  function Take(s: string, i: int): (r: string)
    ensures |r| == if i <= 0 then 0 else if i <= |s| then i else |s|
  {
    if i <= 0 then [] else if i <= |s| then s[..i] else s
  }

  function Drop(s: string, i: int): (r: string)
    ensures Take(s, i) + r == s
  {
    if i <= 0 then s else if i <= |s| then s[i..] else []
  }

  /** Everything the console's keys change: the scroll-back and its pending
      text, the line being edited and its cursor, the input gathered so far
      under its prompt, and the history with the position browsed in it and
      the unfinished line saved while browsing. */
  datatype Editor = Editor(lines: seq<Line>, lBuff: string, current: string, cursor: int, inp: string,
                           prompt: string, history: seq<string>, historyPos: int, hCache: string)

  /** The cursor inside the line and the history position inside the history. */
  predicate EditorOk(e: Editor)
  {
    0 <= e.cursor <= |e.current| && 0 <= e.historyPos <= |e.history|
  }

  /** The line and cursor after an editing key other than Enter, Up and Down. */
  function Edited(key: Key, ctrl: bool, text: string, line: string, cursor: int): (r: (string, int))
    requires 0 <= cursor <= |line| && key !in {Enter, Up, Down}
    ensures 0 <= r.1 <= |r.0|
    ensures key in {Left, Right} ==> r.0 == line
    ensures key == Backspace && cursor > 0 ==> |r.0| == |line| - 1 && r.1 == cursor - 1
  {
    if key == Backspace then
      if cursor > 0 then (line[..cursor - 1] + line[cursor..], cursor - 1) else (line, cursor)
    else if key == Delete then (Take(line, cursor) + Drop(line, cursor + 1), cursor)
    else if key == Left then (line, if cursor - 1 > 0 then cursor - 1 else 0)
    else if key == Right then (line, if |line| < cursor + 1 then |line| else cursor + 1)
    else if key == Tab then (line + "    ", cursor + 4)
    else if key == KeyC && ctrl then ("", 0)
    else if text != [] then (line[..cursor] + text + line[cursor..], cursor + 1)
    else (line, cursor)
  }

  /** The editor after Up or Down: the entry `historyPos` back from the
      newest, or the saved unfinished line past the newest. */
  function Browsed(key: Key, e: Editor): (r: Editor)
    requires EditorOk(e) && (key == Up || key == Down)
    ensures EditorOk(r) && r.history == e.history && r.lines == e.lines && r.inp == e.inp
    ensures r.historyPos > 0 && r.historyPos != e.historyPos ==> r.current == e.history[|e.history| - r.historyPos]
    ensures r.historyPos == 0 && key == Down ==> r.current == e.hCache
  {
    if key == Up then
      if e.historyPos < |e.history| then
        var pos := e.historyPos + 1;
        var line := e.history[|e.history| - pos];
        e.(historyPos := pos, current := line, cursor := |line|,
           hCache := if e.historyPos == 0 then e.current else e.hCache)
      else e
    else if e.historyPos <= 1 then
      e.(historyPos := 0, current := e.hCache, cursor := |e.hCache|)
    else
      var pos := e.historyPos - 1;
      var line := e.history[|e.history| - pos];
      e.(historyPos := pos, current := line, cursor := |line|)
  }

  /** The editor after Enter, when evaluating the input would print
      `outcome.output` and raise `outcome.traceback`. */
  function Entered(e: Editor, outcome: Outcome): (r: Editor)
    ensures EditorOk(r) && r.historyPos == 0 && r.hCache == "" && r.cursor == 0
    ensures r.history == e.history + (if Blank(e.current) then [] else [e.current])
    ensures r.prompt == PS2 <==> !IsClosed(e.inp + e.current)
    ensures r.prompt == PS2 ==> r.inp == e.inp + e.current + "\n"
    ensures r.prompt != PS2 ==> r.inp == "" && r.current == ""
    ensures |r.lines| > |e.lines| && r.lines[..|e.lines| + 1] == e.lines + [(PromptText, e.prompt + e.current)]
  {
    var echoed := e.lines + [(PromptText, e.prompt + e.current)];
    var all := e.inp + e.current;
    var e1 := e.(lines := echoed, history := e.history + (if Blank(e.current) then [] else [e.current]),
                 historyPos := 0, hCache := "", cursor := 0);
    if !IsClosed(all) then e1.(prompt := PS2, inp := all + "\n", current := " ")
    else if Blank(all) then e1.(prompt := PS1, inp := "", current := "")
    else
      var w := Written(echoed, e.lBuff, outcome.output);
      WrittenSplits(echoed, e.lBuff, outcome.output);
      e1.(prompt := PS1, inp := "", current := "", lBuff := w.1,
          lines := w.0 + (if outcome.traceback.Some? then Shown(outcome.traceback.value) else []))
  }

  /** The editor after a key press on the open console. */
  function Keyed(e: Editor, key: Key, ctrl: bool, text: string, outcome: Outcome): (r: Editor)
    requires EditorOk(e)
    ensures EditorOk(r)
    ensures key != Enter ==> r.lines == e.lines && r.lBuff == e.lBuff && r.inp == e.inp && r.history == e.history
  {
    if key == Enter then Entered(e, outcome)
    else if key == Up || key == Down then Browsed(key, e)
    else
      var (line, cursor) := Edited(key, ctrl, text, e.current, e.cursor);
      e.(current := line, cursor := cursor)
  }

  /** Typing a character and then Backspace leaves the line and the cursor as
      they were. */
  lemma TypeThenBackspace(line: string, cursor: int, c: char)
    requires 0 <= cursor <= |line|
    ensures var (l1, c1) := Edited(OtherKey, false, [c], line, cursor);
      Edited(Backspace, false, "", l1, c1) == (line, cursor)
  {
    var (l1, c1) := Edited(OtherKey, false, [c], line, cursor);
    assert l1[..c1 - 1] == line[..cursor] && l1[c1..] == line[cursor..];
    assert line[..cursor] + line[cursor..] == line;
  }

  /** Left then Right puts the cursor back, unless it was already at the
      start of the line. */
  lemma LeftThenRight(line: string, cursor: int)
    requires 0 < cursor <= |line|
    ensures var (l1, c1) := Edited(Left, false, "", line, cursor);
      Edited(Right, false, "", l1, c1) == (line, cursor)
  {
  }

  /** Up from the unfinished line and then Down brings the unfinished line
      back, with the cursor at its end. */
  lemma UpThenDown(e: Editor)
    requires EditorOk(e) && e.historyPos == 0 && |e.history| > 0
    ensures var r := Browsed(Down, Browsed(Up, e));
      r.current == e.current && r.historyPos == 0 && r.cursor == |e.current| && r.history == e.history
  {
  }

  class Console {
    var lines: seq<Line>
    var lBuff: string
    var current: string
    var cursor: int
    var inp: string
    var active: bool
    var prompt: string
    var history: seq<string>
    var historyPos: int
    var hCache: string

    /** The cursor stays inside the line being edited and the history
        position inside the history (0: not browsing it). */
    ghost predicate Valid()
      reads this`cursor, this`current, this`historyPos, this`history
    {
      0 <= cursor <= |current| && 0 <= historyPos <= |history|
    }

    /** The fields the console's keys change, as one value. */
    ghost function State(): Editor
      reads this`lines, this`lBuff, this`current, this`cursor, this`inp, this`prompt,
            this`history, this`historyPos, this`hCache
    {
      Editor(lines, lBuff, current, cursor, inp, prompt, history, historyPos, hCache)
    }

    constructor ()
      ensures Valid() && !active && prompt == PS1
      ensures lines == [(LogText, STARTED)] && lBuff == ""
      ensures current == "" && cursor == 0 && inp == ""
      ensures history == [] && historyPos == 0 && hCache == ""
    {
      // The start message is logged on an empty console.
      lines, lBuff := [(LogText, STARTED)], "";
      current, cursor, inp, active, prompt := "", 0, "", false, PS1;
      history, historyPos, hCache := [], 0, "";
    }

    /** Standard output's write: every newline emits the buffered text as a
        log line, carriage returns are dropped, everything else is buffered. */
    method Write(text: string)
      modifies this`lines, this`lBuff
      ensures (lines, lBuff) == Written(old(lines), old(lBuff), text)
    {
      var i := 0;
      while i < |text|
        invariant 0 <= i <= |text|
        invariant (lines, lBuff) == Written(old(lines), old(lBuff), text[..i])
      {
        assert text[..i + 1][..i] == text[..i];
        if text[i] == '\n' {
          lines := lines + [(LogText, lBuff)];
          lBuff := "";
        } else if text[i] != '\r' {
          lBuff := lBuff + [text[i]];
        }
        i := i + 1;
      }
      assert text[..|text|] == text;
    }

    /** A non-empty buffer is emitted as one more line; the buffer ends
        empty. */
    method Flush()
      modifies this`lines, this`lBuff
      ensures lBuff == ""
      ensures lines == old(lines) + (if old(lBuff) == "" then [] else [(LogText, old(lBuff))])
    {
      if lBuff != "" {
        Write("\n");
        assert Written(old(lines), old(lBuff), "\n") == Fed((old(lines), old(lBuff)), '\n');
      }
    }

    /** Logging is writing the text and a newline: the buffer, completed by
        `text`, becomes one more line. */
    method Log(text: string)
      modifies this`lines, this`lBuff
      ensures (lines, lBuff) == Written(old(lines), old(lBuff), text + "\n")
      ensures lines == Written(old(lines), old(lBuff), text).0 + [(LogText, Written(old(lines), old(lBuff), text).1)]
      ensures lBuff == ""
    {
      Write(text + "\n");
      WrittenLine(old(lines), old(lBuff), text);
    }

    method Show()
      modifies this`active
      ensures active
    {
      active := true;
    }

    method Hide()
      modifies this`active
      ensures !active
    {
      active := false;
    }

    method Toggle()
      modifies this`active
      ensures active == !old(active)
    {
      active := !active;
    }

    /** Enter: the prompt and the line go to the scroll-back, the line joins
        the input and, when not blank, the history. Incomplete input asks for
        a continuation line under PS2; complete input is evaluated (when not
        blank) and the editor starts afresh under PS1. */
    method Return(outcome: Outcome)
      requires Valid()
      modifies this`lines, this`lBuff, this`inp, this`history, this`historyPos, this`hCache,
               this`prompt, this`cursor, this`current
      ensures Valid() && historyPos == 0 && hCache == "" && cursor == 0
      ensures history == old(history) + (if Blank(old(current)) then [] else [old(current)])
      ensures !IsClosed(old(inp) + old(current)) ==>
        prompt == PS2 && inp == old(inp) + old(current) + "\n" && current == " "
        && lines == old(lines) + [(PromptText, old(prompt) + old(current))] && lBuff == old(lBuff)
      ensures IsClosed(old(inp) + old(current)) ==>
        prompt == PS1 && inp == "" && current == ""
      ensures IsClosed(old(inp) + old(current)) && Blank(old(inp) + old(current)) ==>
        lines == old(lines) + [(PromptText, old(prompt) + old(current))] && lBuff == old(lBuff)
      ensures IsClosed(old(inp) + old(current)) && !Blank(old(inp) + old(current)) ==>
        var w := Written(old(lines) + [(PromptText, old(prompt) + old(current))], old(lBuff), outcome.output);
        lBuff == w.1
        && lines == w.0 + (if outcome.traceback.Some? then Shown(outcome.traceback.value) else [])
      ensures State() == Entered(old(State()), outcome)
    {
      Echo();
      var closed := Closed(inp);
      if !closed {
        prompt := PS2;
        inp := inp + "\n";
        cursor := 0;
        current := " ";
      } else {
        prompt := PS1;
        Evaluate(outcome);
        current := "";
        inp := "";
        cursor := 0;
      }
    }

    /** The first half of Enter: echo the line, add it to the input and,
        when not blank, to the history, and stop browsing the history. */
    method Echo()
      modifies this`lines, this`inp, this`history, this`historyPos, this`hCache
      ensures lines == old(lines) + [(PromptText, prompt + current)]
      ensures inp == old(inp) + current && historyPos == 0 && hCache == ""
      ensures history == old(history) + (if Blank(current) then [] else [current])
    {
      lines := lines + [(PromptText, prompt + current)];
      inp := inp + current;
      if !Blank(current) {
        history := history + [current];
      }
      historyPos := 0;
      hCache := "";
    }

    /** Complete input that is not blank is evaluated: what it prints is
        written to the console, then the traceback it raised, if any. */
    method Evaluate(outcome: Outcome)
      modifies this`lines, this`lBuff
      ensures Blank(inp) ==> lines == old(lines) && lBuff == old(lBuff)
      ensures !Blank(inp) ==>
        var w := Written(old(lines), old(lBuff), outcome.output);
        lBuff == w.1 && lines == w.0 + (if outcome.traceback.Some? then Shown(outcome.traceback.value) else [])
    {
      if !Blank(inp) {
        Write(outcome.output);
        if outcome.traceback.Some? {
          lines := lines + Shown(outcome.traceback.value);
        }
      }
    }

    /** The editing keys other than Enter and the arrows that browse the
        history: Backspace and Delete remove the character before and at the
        cursor, Left and Right move the cursor, Tab adds four spaces at the
        end, Ctrl-C clears the line, and any other key types its text at the
        cursor. */
    method Type(key: Key, ctrl: bool, text: string)
      requires Valid() && key !in {Enter, Up, Down}
      modifies this`current, this`cursor
      ensures Valid()
      ensures key == Backspace && old(cursor) > 0 ==>
        current == old(current)[..old(cursor) - 1] + old(current)[old(cursor)..] && cursor == old(cursor) - 1
      ensures key == Backspace && old(cursor) == 0 ==> current == old(current) && cursor == 0
      ensures key == Delete ==>
        cursor == old(cursor)
        && (if old(cursor) < |old(current)|
            then current == old(current)[..old(cursor)] + old(current)[old(cursor) + 1..]
            else current == old(current))
      ensures key == Left ==> current == old(current) && cursor == if old(cursor) > 0 then old(cursor) - 1 else 0
      ensures key == Right ==> current == old(current) && cursor == if old(cursor) < |current| then old(cursor) + 1 else |current|
      ensures key == Tab ==> current == old(current) + "    " && cursor == old(cursor) + 4
      ensures key == KeyC && ctrl ==> current == "" && cursor == 0
      ensures key !in {Backspace, Delete, Left, Right, Tab} && !(key == KeyC && ctrl) ==>
        if text == [] then current == old(current) && cursor == old(cursor)
        else current == old(current)[..old(cursor)] + text + old(current)[old(cursor)..] && cursor == old(cursor) + 1
      ensures (current, cursor) == Edited(key, ctrl, text, old(current), old(cursor))
    {
      if key == Backspace {
        if cursor > 0 {
          current := current[..cursor - 1] + current[cursor..];
          cursor := cursor - 1;
        }
      } else if key == Delete {
        current := Take(current, cursor) + Drop(current, cursor + 1);
      } else if key == Left {
        cursor := if cursor - 1 > 0 then cursor - 1 else 0;
      } else if key == Right {
        cursor := if |current| < cursor + 1 then |current| else cursor + 1;
      } else if key == Tab {
        cursor := cursor + 4;
        current := current + "    ";
      } else if key == KeyC && ctrl {
        current := "";
        cursor := 0;
      } else if text != [] {
        current := current[..cursor] + text + current[cursor..];
        cursor := cursor + 1;
      }
    }

    /** Up and Down browse the history, newest entry first: leaving the
        unfinished line for the history saves it, and coming back past the
        newest entry restores it; the cursor goes to the end of the line. */
    method Browse(key: Key)
      requires Valid() && (key == Up || key == Down)
      modifies this`current, this`cursor, this`historyPos, this`hCache
      ensures Valid()
      ensures key == Up && old(historyPos) < |history| ==>
        historyPos == old(historyPos) + 1 && current == history[|history| - historyPos] && cursor == |current|
        && hCache == (if old(historyPos) == 0 then old(current) else old(hCache))
      ensures key == Up && old(historyPos) == |history| ==>
        historyPos == old(historyPos) && current == old(current) && cursor == old(cursor) && hCache == old(hCache)
      ensures key == Down && old(historyPos) <= 1 ==> historyPos == 0 && current == old(hCache) && cursor == |current|
      ensures key == Down && old(historyPos) > 1 ==>
        historyPos == old(historyPos) - 1 && current == history[|history| - historyPos] && cursor == |current|
      ensures key == Down ==> hCache == old(hCache)
      ensures State() == Browsed(key, old(State()))
    {
      if key == Up {
        if historyPos < |history| {
          if historyPos == 0 {
            hCache := current;
          }
          historyPos := historyPos + 1;
          current := history[|history| - historyPos];
          cursor := |current|;
        }
      } else {
        if historyPos <= 1 {
          historyPos := 0;
          current := hCache;
        } else {
          historyPos := historyPos - 1;
          current := history[|history| - historyPos];
        }
        cursor := |current|;
      }
    }

    /** An event offered to the console. Closed, it refuses everything and
        changes nothing. Open, it takes every key press (Enter through
        `Return`, the arrows Up and Down through `Browse`, the rest
        through `Type`) and answers Grabbed, except for the
        backquote, whose press it types but refuses so that it still toggles
        the console; other events get no answer. */
    method Tick(ev: Event, outcome: Outcome) returns (r: Reply)
      requires Valid()
      modifies this
      ensures Valid()
      ensures !old(active) ==> r == Refused && unchanged(this)
      ensures old(active) && !ev.KeyDown? ==> r == NoReply && unchanged(this)
      ensures old(active) && ev.KeyDown? ==> r == (if ev.key == Backquote then Refused else Grabbed) && active
      ensures ev.KeyDown? && ev.key != Enter ==>
        lines == old(lines) && lBuff == old(lBuff) && inp == old(inp) && prompt == old(prompt) && history == old(history)
      ensures ev.KeyDown? && ev.key == Enter && old(active) ==>
        historyPos == 0 && cursor == 0
        && history == old(history) + (if Blank(old(current)) then [] else [old(current)])
        && (prompt == PS2 <==> !IsClosed(old(inp) + old(current)))
      ensures old(active) && ev.KeyDown? ==> State() == Keyed(old(State()), ev.key, ev.ctrl, ev.text, outcome)
    {
      if !active {
        r := Refused;
      } else if !ev.KeyDown? {
        r := NoReply;
      } else {
        if ev.key == Enter {
          Return(outcome);
        } else if ev.key == Up || ev.key == Down {
          Browse(ev.key);
        } else {
          Type(ev.key, ev.ctrl, ev.text);
        }
        r := if ev.key == Backquote then Refused else Grabbed;
      }
    }
  }
}
