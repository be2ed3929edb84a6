/**
 The shell's line editor: input bytes are decoded into editing actions by a small escape
 automaton, and the actions work on the text, the history and its cursor. The method that
 edits the line buffer in place is shown to do exactly this.
 */
module LineEditor {
  import opened Types
  import opened Memory
  import opened History
  import opened Completion
  import opened Tokenizer

  /** Buffer sizes, the table of completable names and whether CTRL-D logs out. */
  datatype Config = Config(size: nat, histSize: nat, names: seq<Line>, exitEnabled: bool)

  /** A line's length has to fit its length byte, and a name the line. */
  ghost predicate Usable(cfg: Config) {
    && 1 <= cfg.size <= 256
    && cfg.histSize >= 1
    && forall n | n in cfg.names :: IsString(n) && |n| < cfg.size
  }

  // ---------------------------------------------------------------- keys

  const ESC: byte := 27
  const CR: byte := 13
  const BS: byte := 8
  const DEL: byte := 127
  const CTRL_D: byte := 4
  const CTRL_N: byte := 14
  const CTRL_P: byte := 16

  datatype Mode = Mode(escape: bool, bracket: bool)

  const Plain: Mode := Mode(false, false)

  datatype Action = Ignore | Push(c: byte) | Delete | Older | Newer | Complete | Submit | Close

  predicate EndsLine(a: Action) {
    a == Submit || a == Close
  }

  function Key(exitEnabled: bool, c: byte): Action {
    if exitEnabled && c == CTRL_D then Close
    else if c == BS || c == DEL then Delete
    else if c == CR then Submit
    else if c == TAB then Complete
    else if c == CTRL_N then Newer
    else if c == CTRL_P then Older
    else if c < 0x20 then Ignore
    else Push(c)
  }

  /** One byte: the next escape mode and the action, independent of what is being edited. */
  function Lex(exitEnabled: bool, mode: Mode, c: byte): (Mode, Action) {
    if c == ESC then (mode.(escape := true), Ignore)
    else if mode.escape then
      if c == '[' as int then (Mode(true, true), Ignore)
      else if mode.bracket then
        (Plain, if c == 'A' as int then Older else if c == 'B' as int then Newer else Ignore)
      else (Plain, Ignore)
    else (mode, Key(exitEnabled, c))
  }

  /** The actions of one line: everything up to its end, or to the end of the stream. */
  function Actions(exitEnabled: bool, mode: Mode, input: seq<byte>): seq<Action>
    decreases |input|
  {
    if input == [] then []
    else
      var (next, a) := Lex(exitEnabled, mode, input[0]);
      if EndsLine(a) then [a] else [a] + Actions(exitEnabled, next, input[1..])
  }

  // ---------------------------------------------------------------- editing

  datatype Edit = Edit(text: Line, lines: seq<Line>, cur: nat)

  /** What editing keeps: the text fits the line buffer, and so does every stored line. */
  ghost predicate Sound(cfg: Config, e: Edit) {
    && |e.text| < cfg.size && IsString(e.text)
    && e.cur <= |e.lines|
    && forall i | 0 <= i < |e.lines| :: Storable(cfg, e.lines[i])
  }

  ghost function Recalling(e: Edit, dir: Direction): Edit
    requires e.cur <= |e.lines|
  {
    var r := Recall(e.lines, e.cur, dir);
    e.(text := if r.Show? then r.text else e.text, cur := Move(|e.lines|, e.cur, dir))
  }

  ghost function Completing(cfg: Config, e: Edit): Edit {
    if |e.text| < cfg.size - 1 then e.(text := Completed(e.text, Matches(cfg.names, e.text), cfg.size)) else e
  }

  ghost function Submitting(cfg: Config, e: Edit): Edit {
    Edit(e.text, Saved(e.lines, e.text, cfg.histSize), if IsKept(e.text, cfg.histSize) then 0 else e.cur)
  }

  ghost function Apply(cfg: Config, e: Edit, a: Action): Edit
    requires Sound(cfg, e)
  {
    match a
    case Push(c) => if |e.text| < cfg.size - 1 then e.(text := e.text + [c]) else e
    case Delete => if e.text != [] then e.(text := e.text[..|e.text| - 1]) else e
    case Older => Recalling(e, Back)
    case Newer => Recalling(e, Forward)
    case Complete => Completing(cfg, e)
    case Submit => Submitting(cfg, e)
    case Ignore => e
    case Close => e
  }

  /** What `Sound` asks of a stored line. */
  ghost predicate Storable(cfg: Config, line: Line) {
    1 <= |line| < cfg.size && IsString(line)
  }

  lemma {:induction false} EvictKeepsStorable(cfg: Config, lines: seq<Line>, length: nat)
    requires forall i | 0 <= i < |lines| :: Storable(cfg, lines[i])
    ensures var r := Evict(lines, length, cfg.histSize); forall i | 0 <= i < |r| :: Storable(cfg, r[i])
  {
    hide Storable, Fits;
    if lines != [] && !Fits(lines, length, cfg.histSize) {
      var rest := lines[1..];
      forall i | 0 <= i < |rest| ensures Storable(cfg, rest[i]) {
        assert rest[i] == lines[i + 1];
      }
      EvictKeepsStorable(cfg, rest, length);
      assert Evict(lines, length, cfg.histSize) == Evict(rest, length, cfg.histSize);
    }
  }

  lemma SavedKeepsSound(cfg: Config, e: Edit)
    requires Sound(cfg, e)
    ensures Sound(cfg, Submitting(cfg, e))
  {
    if IsKept(e.text, cfg.histSize) {
      assert Storable(cfg, Trim(e.text));
      EvictKeepsStorable(cfg, e.lines, |Trim(e.text)|);
      var lines := Saved(e.lines, e.text, cfg.histSize);
      assert lines == Evict(e.lines, |Trim(e.text)|, cfg.histSize) + [Trim(e.text)];
      hide Storable, Evict;
      forall i | 0 <= i < |lines| ensures Storable(cfg, lines[i]) {
      }
    }
  }

  lemma CompletingKeepsSound(cfg: Config, e: Edit)
    requires Usable(cfg) && Sound(cfg, e)
    ensures Sound(cfg, Completing(cfg, e))
    ensures Matches(cfg.names, e.text) != [] ==> |CommonPrefix(Matches(cfg.names, e.text))| < cfg.size
  {
    var found := Matches(cfg.names, e.text);
    if found != [] {
      CommonPrefixIsLongest(found, []);
      var p := CommonPrefix(found);
      assert found[0] in found;
      assert p <= found[0];
    }
  }

  /** No action lets the text or a stored line outgrow the line buffer. */
  lemma ApplyKeepsSound(cfg: Config, e: Edit, a: Action)
    requires Usable(cfg) && Sound(cfg, e)
    requires a.Push? ==> a.c != NUL
    ensures Sound(cfg, Apply(cfg, e, a))
  {
    match a
    case Submit => SavedKeepsSound(cfg, e);
    case Complete => CompletingKeepsSound(cfg, e);
    case Older => RecallKeepsSound(cfg, e, Back);
    case Newer => RecallKeepsSound(cfg, e, Forward);
    case _ =>
  }

  lemma RecallKeepsSound(cfg: Config, e: Edit, dir: Direction)
    requires Sound(cfg, e)
    ensures Sound(cfg, Recalling(e, dir))
  {
    var cur := Move(|e.lines|, e.cur, dir);
    assert cur > 0 ==> Storable(cfg, e.lines[|e.lines| - cur]);
  }

  // ---------------------------------------------------------------- one line

  /** The end of `shellGetLine`: closed or submitted, the state then, and the input not read. */
  datatype Outcome = Outcome(closed: bool, edit: Edit, rest: seq<byte>)

  ghost function Run(cfg: Config, mode: Mode, e: Edit, input: seq<byte>): Outcome
    requires Usable(cfg) && Sound(cfg, e)
    decreases |input|
  {
    if input == [] then Outcome(true, e, [])
    else
      var (next, a) := Lex(cfg.exitEnabled, mode, input[0]);
      ApplyKeepsSound(cfg, e, a);
      var after := Apply(cfg, e, a);
      if EndsLine(a) then Outcome(a == Close, after, input[1..]) else Run(cfg, next, after, input[1..])
  }

  ghost function Fold(cfg: Config, e: Edit, actions: seq<Action>): Edit
    requires Usable(cfg) && Sound(cfg, e)
    requires forall a | a in actions :: a.Push? ==> a.c != NUL
    decreases |actions|
  {
    if actions == [] then e
    else
      ApplyKeepsSound(cfg, e, actions[0]);
      Fold(cfg, Apply(cfg, e, actions[0]), actions[1..])
  }

  lemma {:induction false} ActionsPushNoNul(exitEnabled: bool, mode: Mode, input: seq<byte>)
    ensures forall a | a in Actions(exitEnabled, mode, input) :: a.Push? ==> a.c != NUL
    decreases |input|
  {
    if input != [] {
      ActionsPushNoNul(exitEnabled, Lex(exitEnabled, mode, input[0]).0, input[1..]);
    }
  }

  /** A line is the fold of its decoded actions: decoding never looks at what is edited. */
  lemma {:induction false} RunIsFold(cfg: Config, mode: Mode, e: Edit, input: seq<byte>)
    requires Usable(cfg) && Sound(cfg, e)
    ensures var actions := Actions(cfg.exitEnabled, mode, input);
      && (forall a | a in actions :: a.Push? ==> a.c != NUL)
      && Run(cfg, mode, e, input).edit == Fold(cfg, e, actions)
      && (Run(cfg, mode, e, input).closed <==> actions == [] || actions[|actions| - 1] != Submit)
      && |Run(cfg, mode, e, input).rest| == |input| - |actions|
    decreases |input|
  {
    ActionsPushNoNul(cfg.exitEnabled, mode, input);
    if input != [] {
      var (next, a) := Lex(cfg.exitEnabled, mode, input[0]);
      ApplyKeepsSound(cfg, e, a);
      if EndsLine(a) {
        assert Fold(cfg, e, [a]) == Apply(cfg, e, a);
      } else {
        RunIsFold(cfg, next, Apply(cfg, e, a), input[1..]);
        var rest := Actions(cfg.exitEnabled, next, input[1..]);
        assert ([a] + rest)[1..] == rest;
      }
    }
  }

  lemma {:induction false} RunKeepsSound(cfg: Config, mode: Mode, e: Edit, input: seq<byte>)
    requires Usable(cfg) && Sound(cfg, e)
    ensures Sound(cfg, Run(cfg, mode, e, input).edit)
    ensures !Run(cfg, mode, e, input).closed ==> |Run(cfg, mode, e, input).rest| < |input|
    decreases |input|
  {
    if input != [] {
      var (next, a) := Lex(cfg.exitEnabled, mode, input[0]);
      ApplyKeepsSound(cfg, e, a);
      if !EndsLine(a) {
        RunKeepsSound(cfg, next, Apply(cfg, e, a), input[1..]);
      }
    }
  }

  // ---------------------------------------------------------------- sessions

  /** Every line submitted before the stream ends, the history being carried along. */
  ghost function Session(cfg: Config, e: Edit, input: seq<byte>): seq<Line>
    requires Usable(cfg) && Sound(cfg, e)
    requires e.text == []
    decreases |input|
  {
    var r := Run(cfg, Plain, e, input);
    RunKeepsSound(cfg, Plain, e, input);
    if r.closed then [] else [r.edit.text] + Session(cfg, r.edit.(text := []), r.rest)
  }

  /** Bytes that are typed as themselves. */
  ghost predicate Typable(s: Line) {
    forall i | 0 <= i < |s| :: s[i] >= 0x20 && s[i] != DEL
  }

  lemma RunStep(cfg: Config, mode: Mode, e: Edit, c: byte, more: seq<byte>)
    requires Usable(cfg) && Sound(cfg, e)
    ensures var (next, a) := Lex(cfg.exitEnabled, mode, c);
      var after := Apply(cfg, e, a);
      && Sound(cfg, after)
      && Run(cfg, mode, e, [c] + more)
         == if EndsLine(a) then Outcome(a == Close, after, more) else Run(cfg, next, after, more)
  {
    ApplyKeepsSound(cfg, e, Lex(cfg.exitEnabled, mode, c).1);
    assert ([c] + more)[1..] == more;
  }

  lemma TypeOne(cfg: Config, e: Edit, c: byte, more: seq<byte>)
    requires Usable(cfg) && Sound(cfg, e)
    requires c >= 0x20 && c != DEL && |e.text| + 1 < cfg.size
    ensures Sound(cfg, e.(text := e.text + [c]))
    ensures Run(cfg, Plain, e, [c] + more) == Run(cfg, Plain, e.(text := e.text + [c]), more)
  {
    hide Run, Sound, Usable;
    RunStep(cfg, Plain, e, c, more);
  }

  /** Typing a text that fits adds exactly that text, byte by byte. */
  lemma {:induction false} TypingAppends(cfg: Config, e: Edit, s: Line, more: seq<byte>)
    requires Usable(cfg) && Sound(cfg, e)
    requires Typable(s) && |e.text| + |s| < cfg.size
    ensures Sound(cfg, e.(text := e.text + s))
    ensures Run(cfg, Plain, e, s + more) == Run(cfg, Plain, e.(text := e.text + s), more)
    decreases |s|
  {
    hide Run, Sound, Usable;
    if s == [] {
      assert s + more == more && e.text + s == e.text;
    } else {
      assert s + more == [s[0]] + (s[1..] + more);
      TypeOne(cfg, e, s[0], s[1..] + more);
      TypingAppends(cfg, e.(text := e.text + [s[0]]), s[1..], more);
      assert e.text + [s[0]] + s[1..] == e.text + s;
    }
  }

  /** A typed line comes back as typed, and is what the history keeps. */
  lemma TypedLineReturned(cfg: Config, lines: seq<Line>, cur: nat, s: Line, more: seq<byte>)
    requires Usable(cfg) && Sound(cfg, Edit([], lines, cur))
    requires Typable(s) && |s| < cfg.size
    ensures Run(cfg, Plain, Edit([], lines, cur), s + [CR] + more)
         == Outcome(false, Submitting(cfg, Edit(s, lines, cur)), more)
  {
    assert s + [CR] + more == s + ([CR] + more);
    TypingAppends(cfg, Edit([], lines, cur), s, [CR] + more);
    assert [] + s == s;
    assert ([CR] + more)[1..] == more;
  }

  /** The two ways to ask for an older or newer line. */
  function UpKey(arrow: bool): seq<byte> {
    if arrow then [ESC, '[' as int, 'A' as int] else [CTRL_P]
  }

  /** An arrow key sequence recalls once and leaves the decoder where it was. */
  lemma ArrowRun(cfg: Config, e: Edit, last: byte, more: seq<byte>)
    requires Usable(cfg) && Sound(cfg, e)
    requires last == 'A' as int || last == 'B' as int
    ensures var after := Apply(cfg, e, if last == 'A' as int then Older else Newer);
      Sound(cfg, after) && Run(cfg, Plain, e, [ESC, '[' as int, last] + more) == Run(cfg, Plain, after, more)
  {
    hide Run, Sound, Usable;
    assert [ESC, '[' as int, last] + more == [ESC] + (['[' as int] + ([last] + more));
    RunStep(cfg, Plain, e, ESC, ['[' as int] + ([last] + more));
    RunStep(cfg, Mode(true, false), e, '[' as int, [last] + more);
    RunStep(cfg, Mode(true, true), e, last, more);
  }

  lemma UpKeyRecalls(cfg: Config, e: Edit, arrow: bool, more: seq<byte>)
    requires Usable(cfg) && Sound(cfg, e)
    ensures Sound(cfg, Recalling(e, Back))
    ensures Run(cfg, Plain, e, UpKey(arrow) + more) == Run(cfg, Plain, Recalling(e, Back), more)
  {
    hide Run, Sound, Usable;
    if arrow {
      ArrowRun(cfg, e, 'A' as int, more);
    } else {
      RunStep(cfg, Plain, e, CTRL_P, more);
    }
  }

  /**
   Submitting a non-blank line, recalling it with either key and submitting again yields the
   line and then the line without its trailing spaces, whatever the history held before.
   */
  lemma RecallResubmits(cfg: Config, lines: seq<Line>, cur: nat, s: Line, arrow: bool)
    requires Usable(cfg) && Sound(cfg, Edit([], lines, cur))
    requires Typable(s) && |s| < cfg.size && IsKept(s, cfg.histSize)
    ensures Session(cfg, Edit([], lines, cur), s + [CR] + (UpKey(arrow) + [CR])) == [s, Trim(s)]
  {
    hide Run, Sound, Usable, Saved, Evict, Session;
    var second := UpKey(arrow) + [CR];
    var saved := Saved(lines, s, cfg.histSize);
    TypedLineReturned(cfg, lines, cur, s, second);
    SessionStep(cfg, Edit([], lines, cur), s + [CR] + second);
    RecalledLineReturned(cfg, saved, Trim(s), arrow) by {
      SavedEndsWithLine(lines, s, cfg.histSize);
    }
    SessionStep(cfg, Edit([], saved, 0), second);
    SessionEnds(cfg, Submitting(cfg, Edit(Trim(s), saved, 1)).(text := []));
  }

  lemma SavedEndsWithLine(lines: seq<Line>, s: Line, size: nat)
    requires IsKept(s, size)
    ensures var saved := Saved(lines, s, size); saved != [] && saved[|saved| - 1] == Trim(s)
  {
  }

  lemma SessionStep(cfg: Config, e: Edit, input: seq<byte>)
    requires Usable(cfg) && Sound(cfg, e) && e.text == []
    ensures var r := Run(cfg, Plain, e, input);
      && Sound(cfg, r.edit) && Sound(cfg, r.edit.(text := []))
      && Session(cfg, e, input) == if r.closed then [] else [r.edit.text] + Session(cfg, r.edit.(text := []), r.rest)
  {
    RunKeepsSound(cfg, Plain, e, input);
  }

  lemma SessionEnds(cfg: Config, e: Edit)
    requires Usable(cfg) && Sound(cfg, e) && e.text == []
    ensures Session(cfg, e, []) == []
  {
  }

  lemma RecalledLineReturned(cfg: Config, lines: seq<Line>, newest: Line, arrow: bool)
    requires Usable(cfg) && Sound(cfg, Edit([], lines, 0))
    requires lines != [] && lines[|lines| - 1] == newest
    ensures Run(cfg, Plain, Edit([], lines, 0), UpKey(arrow) + [CR])
         == Outcome(false, Submitting(cfg, Edit(newest, lines, 1)), [])
  {
    hide Run, Sound, Usable, Saved;
    UpKeyRecalls(cfg, Edit([], lines, 0), arrow, [CR]);
    RunStep(cfg, Plain, Edit(newest, lines, 1), CR, []);
    assert [CR] + [] == [CR];
  }

  // ---------------------------------------------------------------- arrow keys

  /** A key as bytes, with CTRL-P and CTRL-N replaced by the arrow key sequences. */
  function KeyBytes(c: byte): seq<byte> {
    if c == CTRL_P then [ESC, '[' as int, 'A' as int]
    else if c == CTRL_N then [ESC, '[' as int, 'B' as int]
    else [c]
  }

  function WithArrows(input: seq<byte>): seq<byte> {
    if input == [] then [] else KeyBytes(input[0]) + WithArrows(input[1..])
  }

  lemma KeyRun(cfg: Config, e: Edit, c: byte, more: seq<byte>)
    requires Usable(cfg) && Sound(cfg, e)
    requires c != ESC
    ensures var a := Key(cfg.exitEnabled, c);
      var after := Apply(cfg, e, a);
      && Sound(cfg, after)
      && Run(cfg, Plain, e, KeyBytes(c) + more)
         == if EndsLine(a) then Outcome(a == Close, after, more) else Run(cfg, Plain, after, more)
  {
    hide Run, Sound, Usable, Apply;
    if c == CTRL_P {
      ArrowRun(cfg, e, 'A' as int, more);
    } else if c == CTRL_N {
      ArrowRun(cfg, e, 'B' as int, more);
    } else {
      RunStep(cfg, Plain, e, c, more);
    }
  }

  /** Arrow keys and control keys are interchangeable anywhere in a line. */
  lemma {:induction false} ArrowsRunLikeControlKeys(cfg: Config, e: Edit, input: seq<byte>)
    requires Usable(cfg) && Sound(cfg, e)
    requires ESC !in input
    ensures var plain, arrows := Run(cfg, Plain, e, input), Run(cfg, Plain, e, WithArrows(input));
      && arrows == Outcome(plain.closed, plain.edit, WithArrows(plain.rest))
      && ESC !in plain.rest
    decreases |input|
  {
    if input != [] {
      hide Run, Sound, Usable, Apply, KeyBytes, Key;
      var c, more := input[0], input[1..];
      assert c in input && forall b | b in more :: b in input;
      assert input == [c] + more;
      RunStep(cfg, Plain, e, c, more);
      KeyRun(cfg, e, c, WithArrows(more));
      var a := Key(cfg.exitEnabled, c);
      if !EndsLine(a) {
        ArrowsRunLikeControlKeys(cfg, Apply(cfg, e, a), more);
      }
    }
  }

  /** A whole session is the same whichever of the two ways the user asks for history. */
  lemma {:induction false} ArrowsSessionLikeControlKeys(cfg: Config, e: Edit, input: seq<byte>)
    requires Usable(cfg) && Sound(cfg, e) && e.text == []
    requires ESC !in input
    ensures Session(cfg, e, WithArrows(input)) == Session(cfg, e, input)
    decreases |input|
  {
    var r := Run(cfg, Plain, e, input);
    RunKeepsSound(cfg, Plain, e, input);
    ArrowsRunLikeControlKeys(cfg, e, input);
    SessionStep(cfg, e, input);
    SessionStep(cfg, e, WithArrows(input));
    hide Session, Run, Sound, Usable;
    if !r.closed {
      ArrowsSessionLikeControlKeys(cfg, r.edit.(text := []), r.rest);
    }
  }

  // ---------------------------------------------------------------- in place

  /** The line buffer and the history object show the abstract state. */
  ghost predicate Shows(cfg: Config, line: array<byte>, p: nat, hist: ShellHistory, e: Edit)
    reads line, hist, hist.buffer
  {
    && line.Length == cfg.size && hist.buffer.Length == cfg.histSize && line != hist.buffer
    && hist.Valid() && hist.lines == e.lines && hist.cur == e.cur
    && p == |e.text| < line.Length && line[..p] == e.text
  }

  /** The state in which a new line is begun. */
  ghost function Fresh(hist: ShellHistory): (e: Edit)
    reads hist, hist.buffer
    requires hist.Valid()
    ensures e.text == []
  {
    Edit([], hist.lines, hist.cur)
  }

  /** The history keys: the recalled text replaces the line, or nothing happens. */
  method RecallInto(cfg: Config, line: array<byte>, p: nat, hist: ShellHistory, dir: Direction, ghost e: Edit)
    returns (q: nat)
    requires Sound(cfg, e) && Shows(cfg, line, p, hist, e)
    modifies line, hist`cur
    ensures Shows(cfg, line, q, hist, Recalling(e, dir))
  {
    q := p;
    var len := hist.Get(line, dir);
    ghost var r := Recall(e.lines, e.cur, dir);
    if dir == Back {
      if len > 0 {
        q := len;
      }
    } else {
      if len == 0 {
        line[0] := NUL;
      }
      if len >= 0 {
        q := len;
      }
    }
    RecallKeepsSound(cfg, e, dir);
    if r.Show? && r.text != [] {
      assert line[..q] == line[..][..|r.text|] == r.text;
    }
  }

  /** The tab key. */
  method CompleteInto(cfg: Config, line: array<byte>, p: nat, hist: ShellHistory, ghost e: Edit) returns (q: nat)
    requires Usable(cfg) && Sound(cfg, e) && Shows(cfg, line, p, hist, e)
    modifies line
    ensures Shows(cfg, line, q, hist, Completing(cfg, e))
  {
    q := p;
    if p < line.Length - 1 {
      line[p] := NUL;
      assert line[..p] == e.text;
      var candidates := GetCompletions(cfg.names, line, p);
      CompletingKeepsSound(cfg, e);
      if candidates != [] {
        CommonPrefixIsLongest(candidates, e.text);
        assert IsCommonPrefix(e.text, candidates) by {
          assert forall i | 0 <= i < |candidates| :: candidates[i] in candidates;
        }
      }
      var len := ProcessCompletions(candidates, line, p);
      if len > 0 {
        q := len;
      }
    }
  }

  /** Return: the line goes to the history and is terminated. */
  method SubmitFrom(cfg: Config, line: array<byte>, p: nat, hist: ShellHistory, ghost e: Edit)
    requires Usable(cfg) && Sound(cfg, e) && Shows(cfg, line, p, hist, e)
    modifies line, hist, hist.buffer
    ensures Shows(cfg, line, p, hist, Submitting(cfg, e))
    ensures line[p] == NUL
  {
    hist.Save(line, p);
    line[p] := NUL;
    assert line[..p] == e.text;
  }

  /** The character keys. */
  method EditText(cfg: Config, line: array<byte>, p: nat, hist: ShellHistory, c: byte, ghost e: Edit) returns (q: nat)
    requires Sound(cfg, e) && Shows(cfg, line, p, hist, e)
    modifies line
    ensures var a := if c == BS || c == DEL then Delete else if c < 0x20 then Ignore else Push(c);
      Shows(cfg, line, q, hist, Apply(cfg, e, a))
  {
    q := p;
    if c == BS || c == DEL {
      if p != 0 {
        q := p - 1;
        assert line[..q] == line[..p][..q];
      }
      return;
    }
    if c < 0x20 {
      return;
    }
    if p < line.Length - 1 {
      line[p] := c;
      q := p + 1;
      assert line[..q] == line[..p] + [c];
    }
  }

  /** A byte outside escape sequences; the status is set when the line has ended. */
  method PlainKey(cfg: Config, line: array<byte>, p: nat, hist: ShellHistory, c: byte, ghost e: Edit)
    returns (q: nat, status: Option<bool>)
    requires Usable(cfg) && Sound(cfg, e) && Shows(cfg, line, p, hist, e)
    modifies line, hist, hist.buffer
    ensures var a := Key(cfg.exitEnabled, c);
      && Shows(cfg, line, q, hist, Apply(cfg, e, a))
      && status == (if EndsLine(a) then Some(a == Close) else None)
      && (a == Submit ==> line[q] == NUL)
  {
    hide Sound, Usable, Shows, Recalling, Completing, Submitting;
    q, status := p, None;
    if cfg.exitEnabled && c == CTRL_D {
      status := Some(true);
    } else if c == BS || c == DEL {
      q := EditText(cfg, line, p, hist, c, e);
    } else if c == CR {
      SubmitFrom(cfg, line, p, hist, e);
      status := Some(false);
    } else if c == TAB {
      q := CompleteInto(cfg, line, p, hist, e);
    } else if c == CTRL_N {
      q := RecallInto(cfg, line, p, hist, Forward, e);
    } else if c == CTRL_P {
      q := RecallInto(cfg, line, p, hist, Back, e);
    } else {
      q := EditText(cfg, line, p, hist, c, e);
    }
  }

  /** One pass of the loop in `shellGetLine`, with its two escape flags. */
  method HandleByte(cfg: Config, line: array<byte>, p: nat, hist: ShellHistory,
                    escape: bool, bracket: bool, c: byte, ghost e: Edit)
    returns (q: nat, escape': bool, bracket': bool, status: Option<bool>)
    requires Usable(cfg) && Sound(cfg, e) && Shows(cfg, line, p, hist, e)
    modifies line, hist, hist.buffer
    ensures var (next, a) := Lex(cfg.exitEnabled, Mode(escape, bracket), c);
      && Mode(escape', bracket') == next
      && Shows(cfg, line, q, hist, Apply(cfg, e, a))
      && status == (if EndsLine(a) then Some(a == Close) else None)
      && (a == Submit ==> line[q] == NUL)
  {
    hide Sound, Usable, Shows, Recalling, Completing, Submitting;
    q, escape', bracket', status := p, escape, bracket, None;
    if c == ESC {
      escape' := true;
      return;
    }
    if escape {
      escape' := false;
      if c == '[' as int {
        escape', bracket' := true, true;
        return;
      }
      if bracket {
        bracket' := false;
        if c == 'A' as int {
          q := RecallInto(cfg, line, p, hist, Back, e);
          return;
        }
        if c == 'B' as int {
          q := RecallInto(cfg, line, p, hist, Forward, e);
          return;
        }
      }
      return;
    }
    q, status := PlainKey(cfg, line, p, hist, c, e);
  }

  /**
   `shellGetLine` on the bytes the stream will deliver; reading past their end is the reset of
   the channel. The result is the abstract run: what was read, how it ended, the history and
   cursor afterwards, and the submitted text as a terminated string in the buffer.
   */
  method GetLine(cfg: Config, line: array<byte>, hist: ShellHistory, input: seq<byte>) returns (closed: bool, used: nat)
    requires hist.Valid() && Usable(cfg) && Sound(cfg, Fresh(hist)) && Shows(cfg, line, 0, hist, Fresh(hist))
    modifies line, hist, hist.buffer
    ensures var r := Run(cfg, Plain, old(Fresh(hist)), input);
      && closed == r.closed && used <= |input| && input[used..] == r.rest
      && Shows(cfg, line, |r.edit.text|, hist, r.edit)
      && (!closed ==> line[|r.edit.text|] == NUL)
    ensures input == [] ==> line[..] == old(line[..])
  {
    var p, escape, bracket := 0, false, false;
    used := 0;
    ghost var start := Fresh(hist);
    ghost var e := start;
    assert input[0..] == input;
    hide Sound, Usable, Shows, Apply, Run, Lex;
    while true
      invariant used <= |input|
      invariant input == [] ==> line[..] == old(line[..])
      invariant Sound(cfg, e) && Shows(cfg, line, p, hist, e)
      invariant Run(cfg, Mode(escape, bracket), e, input[used..]) == Run(cfg, Plain, start, input)
      decreases |input| - used
    {
      if used == |input| {
        RunAtEnd(cfg, Mode(escape, bracket), e);
        ShowsText(cfg, line, p, hist, e);
        return true, used;
      }
      var c := input[used];
      assert input[used..] == [c] + input[used + 1..];
      used := used + 1;
      RunStep(cfg, Mode(escape, bracket), e, c, input[used..]);
      ghost var (_, a) := Lex(cfg.exitEnabled, Mode(escape, bracket), c);
      var status;
      p, escape, bracket, status := HandleByte(cfg, line, p, hist, escape, bracket, c, e);
      e := Apply(cfg, e, a);
      if status.Some? {
        ShowsText(cfg, line, p, hist, e);
        return status.value, used;
      }
    }
  }

  lemma RunAtEnd(cfg: Config, mode: Mode, e: Edit)
    requires Usable(cfg) && Sound(cfg, e)
    ensures Run(cfg, mode, e, []) == Outcome(true, e, [])
  {
  }

  lemma ShowsText(cfg: Config, line: array<byte>, p: nat, hist: ShellHistory, e: Edit)
    requires Shows(cfg, line, p, hist, e)
    ensures p == |e.text| < line.Length
  {
  }
}
