/** The shell thread: lines read by the editor, split in place and handed to the commands. */
module Shell {
  import opened Types
  import opened Memory
  import opened History
  import opened Tokenizer
  import opened LineEditor

  /** The commands that the lines of a session stand for. */
  function Commands(lines: seq<Line>): (r: seq<Command>)
    ensures |r| == |lines|
    ensures forall i | 0 <= i < |lines| :: r[i] == Split(lines[i])
  {
    if lines == [] then [] else [Split(lines[0])] + Commands(lines[1..])
  }

  lemma CommandsSnoc(a: seq<Line>, line: Line)
    ensures Commands(a + [line]) == Commands(a) + [Split(line)]
  {
    var all := a + [line];
    hide Split;
    forall i | 0 <= i < |all| ensures Commands(all)[i] == (Commands(a) + [Split(line)])[i] {
    }
  }

  lemma ShownLineHolds(cfg: Config, line: array<byte>, p: nat, hist: ShellHistory, e: Edit)
    requires Sound(cfg, e) && Shows(cfg, line, p, hist, e) && line[p] == NUL
    ensures Holds(line[..], 0, e.text)
  {
    forall i | 0 <= i < |e.text| ensures line[..][0 + i] == e.text[i] {
      assert e.text[i] == line[..p][i];
    }
  }

  /** Reads what `args` points at, as a command handler sees it. */
  method ReadCommand(line: array<byte>, cmd: Option<nat>, args: seq<nat>) returns (command: Command)
    requires cmd.Some? ==> cmd.value <= line.Length
    requires forall i | 0 <= i < |args| :: args[i] <= line.Length
    ensures command.name == if cmd.Some? then Some(CString(line[..], cmd.value)) else None
    ensures |command.args| == |args|
    ensures forall i | 0 <= i < |args| :: command.args[i] == CString(line[..], args[i])
  {
    var texts := [];
    var i := 0;
    while i < |args|
      invariant 0 <= i <= |args|
      invariant |texts| == i && forall k | 0 <= k < i :: texts[k] == CString(line[..], args[k])
    {
      texts := texts + [CString(line[..], args[i])];
      i := i + 1;
    }
    command := Command(if cmd.Some? then Some(CString(line[..], cmd.value)) else None, texts);
  }

  /** One pass of the loop in `shellThread`: a line read, split and seen as a command. */
  method NextCommand(cfg: Config, line: array<byte>, hist: ShellHistory, input: seq<byte>)
    returns (command: Option<Command>, used: nat)
    requires hist.Valid() && Usable(cfg) && Sound(cfg, Fresh(hist)) && Shows(cfg, line, 0, hist, Fresh(hist))
    modifies line, hist, hist.buffer
    ensures var r := Run(cfg, Plain, old(Fresh(hist)), input);
      && command == (if r.closed then None else Some(Split(r.edit.text)))
      && used <= |input| && input[used..] == r.rest
      && (!r.closed ==> |r.rest| < |input|)
      && hist.Valid() && Fresh(hist) == r.edit.(text := [])
      && Sound(cfg, Fresh(hist)) && Shows(cfg, line, 0, hist, Fresh(hist))
      && (!r.closed ==> Holds(line[..], 0, Kept(r.edit.text)))
    ensures input == [] ==> line[..] == old(line[..])
  {
    ghost var r := Run(cfg, Plain, Fresh(hist), input);
    RunKeepsSound(cfg, Plain, Fresh(hist), input);
    hide Run, Split, Kept;
    assert input == [] ==> r.closed by {
      RunAtEnd(cfg, Plain, Fresh(hist));
    }
    var closed;
    closed, used := GetLine(cfg, line, hist, input);
    assert line[..0] == [];
    if closed {
      return None, used;
    }
    ShownLineHolds(cfg, line, |r.edit.text|, hist, r.edit);
    var cmd, args := SplitLine(line, r.edit.text);
    var seen := ReadCommand(line, cmd, args);
    SameCommand(line[..], cmd, args, seen, Split(r.edit.text), |r.edit.text| + 1);
    assert line[..0] == [];
    return Some(seen), used;
  }

  lemma SameCommand(buf: seq<byte>, cmd: Option<nat>, args: seq<nat>, seen: Command, split: Command, limit: nat)
    requires Placed(buf, args, split.args, limit)
    requires cmd.Some? ==> cmd.value <= |buf|
    requires forall i | 0 <= i < |args| :: args[i] <= |buf| && CString(buf, args[i]) == split.args[i]
    requires cmd == None <==> split.name == None
    requires cmd.Some? ==> CString(buf, cmd.value) == split.name.value
    requires seen.name == if cmd.Some? then Some(CString(buf, cmd.value)) else None
    requires |seen.args| == |args| && forall i | 0 <= i < |args| :: seen.args[i] == CString(buf, args[i])
    ensures seen == split
  {
    assert |split.args| == |args|;
    assert seen.args == split.args;
  }

  /**
   What the thread goes on with: history and cursor, and the string left in the line buffer, as far
   as it is known. A reset while a line is being typed leaves a mixture that is not.
   */
  datatype Desk = Desk(edit: Edit, left: Option<Line>)

  ghost function Ending(cfg: Config, desk: Desk, input: seq<byte>): (r: Desk)
    requires Usable(cfg) && Sound(cfg, desk.edit) && desk.edit.text == []
    ensures Sound(cfg, r.edit) && r.edit.text == []
    decreases |input|
  {
    SessionStep(cfg, desk.edit, input);
    RunKeepsSound(cfg, Plain, desk.edit, input);
    var r := Run(cfg, Plain, desk.edit, input);
    var next := r.edit.(text := []);
    if r.closed then Desk(next, if input == [] then desk.left else None)
    else Ending(cfg, Desk(next, Some(Kept(r.edit.text))), r.rest)
  }

  lemma EndingStep(cfg: Config, desk: Desk, input: seq<byte>)
    requires Usable(cfg) && Sound(cfg, desk.edit) && desk.edit.text == []
    ensures var r := Run(cfg, Plain, desk.edit, input);
      var next := r.edit.(text := []);
      && Sound(cfg, next)
      && Ending(cfg, desk, input)
         == if r.closed then Desk(next, if input == [] then desk.left else None)
            else Ending(cfg, Desk(next, Some(Kept(r.edit.text))), r.rest)
  {
    SessionStep(cfg, desk.edit, input);
  }

  /** The left string, if known, is what the buffer holds. */
  ghost predicate LeftIn(left: Option<Line>, line: seq<byte>) {
    left.Some? ==> Holds(line, 0, left.value)
  }

  /** The loop of `shellThread`, until the channel is closed or reset. */
  method ShellLoop(cfg: Config, line: array<byte>, hist: ShellHistory, input: seq<byte>, ghost left: Option<Line>)
    returns (commands: seq<Command>)
    requires hist.Valid() && Usable(cfg) && Sound(cfg, Fresh(hist)) && Shows(cfg, line, 0, hist, Fresh(hist))
    requires LeftIn(left, line[..])
    modifies line, hist, hist.buffer
    ensures commands == Commands(Session(cfg, old(Fresh(hist)), input))
    ensures var end := Ending(cfg, Desk(old(Fresh(hist)), left), input);
      && hist.Valid() && Fresh(hist) == end.edit && LeftIn(end.left, line[..])
      && Shows(cfg, line, 0, hist, Fresh(hist))
  {
    hide *;
    commands := [];
    var at := 0;
    ghost var done, all := [], Session(cfg, Fresh(hist), input);
    ghost var desk, end := Desk(Fresh(hist), left), Ending(cfg, Desk(Fresh(hist), left), input);
    assert input[0..] == input;
    while true
      invariant at <= |input|
      invariant hist.Valid() && Sound(cfg, Fresh(hist)) && Shows(cfg, line, 0, hist, Fresh(hist))
      invariant desk.edit == Fresh(hist) && LeftIn(desk.left, line[..])
      invariant commands == Commands(done)
      invariant done + Session(cfg, Fresh(hist), input[at..]) == all
      invariant Ending(cfg, desk, input[at..]) == end
      decreases |input| - at
    {
      ghost var e, before := Fresh(hist), line[..];
      SessionStep(cfg, e, input[at..]);
      EndingStep(cfg, desk, input[at..]);
      ghost var r := Run(cfg, Plain, e, input[at..]);
      var command, used := NextCommand(cfg, line, hist, input[at..]);
      if command == None {
        NothingLeft(before, line[..]);
        return;
      }
      CommandsSnoc(done, r.edit.text);
      commands := commands + [command.value];
      assert input[at..][used..] == input[at + used..];
      ghost var later := Session(cfg, r.edit.(text := []), r.rest);
      assert done + ([r.edit.text] + later) == (done + [r.edit.text]) + later;
      at := at + used;
      done := done + [r.edit.text];
      desk := Desk(r.edit.(text := []), Some(Kept(r.edit.text)));
      NowLeft(Kept(r.edit.text), line[..]);
    }
  }

  lemma NothingLeft(before: seq<byte>, line: seq<byte>)
    ensures LeftIn(None, line)
    ensures forall left | LeftIn(left, before) && before == line :: LeftIn(left, line)
  {
  }

  lemma NowLeft(text: Line, line: seq<byte>)
    requires Holds(line, 0, text)
    ensures LeftIn(Some(text), line)
  {
  }

  /**
   What the thread does after a reset when there is no exit command: it splits whatever string is
   in the buffer. Without a terminator the code would read on behind the buffer; what it finds
   there is not modelled.
   */
  method SplitLeft(line: array<byte>, ghost left: Option<Line>) returns (command: Option<Command>)
    requires LeftIn(left, line[..])
    modifies line
    ensures NUL in old(line[..]) ==> command == Some(Split(CString(old(line[..]), 0)))
    ensures left.Some? ==> command == Some(Split(left.value)) && Holds(line[..], 0, Kept(left.value))
  {
    hide Split, Kept, Placed, CString;
    var n := 0;
    while n < line.Length && line[n] != NUL
      invariant 0 <= n <= line.Length && forall k | 0 <= k < n :: line[k] != NUL
    {
      n := n + 1;
    }
    if n == line.Length {
      return None;
    }
    ghost var text := line[..n];
    assert Holds(line[..], 0, text);
    CStringIs(line[..], 0, text);
    if left.Some? {
      CStringIs(line[..], 0, left.value);
    }
    var cmd, args := SplitLine(line, text);
    var seen := ReadCommand(line, cmd, args);
    SameCommand(line[..], cmd, args, seen, Split(text), |text| + 1);
    return Some(seen);
  }

  /** One stretch of input between resets: the commands of its lines, then the one of the reset. */
  datatype Round = Round(seen: seq<Command>, afterReset: Option<Command>)

  /** What is left once the string in the buffer has been split after a reset. */
  function KeptLeft(left: Option<Line>): Option<Line> {
    if left.Some? then Some(Kept(left.value)) else None
  }

  /** The thread at its prompt: the line begun anew, the history and the buffer as on the desk. */
  ghost predicate AtPrompt(cfg: Config, line: array<byte>, hist: ShellHistory, desk: Desk)
    reads line, hist, hist.buffer
  {
    hist.Valid() && Shows(cfg, line, 0, hist, Fresh(hist)) && desk.edit == Fresh(hist) && LeftIn(desk.left, line[..])
  }

  /** A session on the bytes up to a reset, and what the thread does with the reset. */
  method NextRound(cfg: Config, line: array<byte>, hist: ShellHistory, input: seq<byte>, ghost desk: Desk)
    returns (round: Round)
    requires Usable(cfg) && Sound(cfg, desk.edit) && desk.edit.text == [] && AtPrompt(cfg, line, hist, desk)
    modifies line, hist, hist.buffer
    ensures AsExpected(cfg, desk, input, round)
    ensures var end := Ending(cfg, desk, input);
      !cfg.exitEnabled ==> AtPrompt(cfg, line, hist, Desk(end.edit, KeptLeft(end.left)))
  {
    hide Ending, Session, Commands, Kept, Split, Sound, Usable, Holds, CString;
    ghost var end := Ending(cfg, desk, input);
    var seen := ShellLoop(cfg, line, hist, input, desk.left);
    if cfg.exitEnabled {
      return Round(seen, None);
    }
    var command := SplitLeft(line, end.left);
    assert line[..0] == [];
    return Round(seen, command);
  }

  /** The commands of the session, and after the reset that of the string left, where it is known. */
  ghost predicate AsExpected(cfg: Config, desk: Desk, input: seq<byte>, round: Round)
    requires Usable(cfg) && Sound(cfg, desk.edit) && desk.edit.text == []
  {
    var left := Ending(cfg, desk, input).left;
    && round.seen == Commands(Session(cfg, desk.edit, input))
    && (cfg.exitEnabled ==> round.afterReset == None)
    && (!cfg.exitEnabled && left.Some? ==> round.afterReset == Some(Split(left.value)))
  }

  /** Before the k-th stretch, from an empty history and a buffer of unknown contents. */
  ghost function DeskAt(cfg: Config, stretches: seq<seq<byte>>, k: nat): (r: Desk)
    requires Usable(cfg) && k <= |stretches|
    ensures Sound(cfg, r.edit) && r.edit.text == []
  {
    if k == 0 then Desk(Edit([], [], 0), None)
    else
      var end := Ending(cfg, DeskAt(cfg, stretches, k - 1), stretches[k - 1]);
      end.(left := KeptLeft(end.left))
  }

  /** The rounds so far are those of the abstract sessions. */
  ghost predicate Played(cfg: Config, stretches: seq<seq<byte>>, rounds: seq<Round>)
    requires Usable(cfg)
  {
    && |rounds| <= |stretches|
    && forall k | 0 <= k < |rounds| :: AsExpected(cfg, DeskAt(cfg, stretches, k), stretches[k], rounds[k])
  }

  lemma PlayedOneMore(cfg: Config, stretches: seq<seq<byte>>, rounds: seq<Round>, round: Round)
    requires Usable(cfg) && Played(cfg, stretches, rounds) && |rounds| < |stretches|
    requires AsExpected(cfg, DeskAt(cfg, stretches, |rounds|), stretches[|rounds|], round)
    ensures Played(cfg, stretches, rounds + [round])
  {
    hide AsExpected, DeskAt, Usable, Sound, Ending;
    var more := rounds + [round];
    forall k | 0 <= k < |more| ensures AsExpected(cfg, DeskAt(cfg, stretches, k), stretches[k], more[k]) {
      assert k < |rounds| ==> more[k] == rounds[k];
    }
  }

  /**
   `shellThread` from start-up on, given the bytes between the resets of the channel: the commands
   it sees are those of the abstract sessions on the same bytes, the history going on from one to
   the next. With the exit command the first reset ends the thread; without it each reset brings up
   one more command, the one of the string left in the buffer.
   */
  method ShellThread(cfg: Config, histbuf: array<byte>, stretches: seq<seq<byte>>) returns (rounds: seq<Round>)
    requires Usable(cfg) && histbuf.Length == cfg.histSize
    modifies histbuf
    ensures |rounds| == if cfg.exitEnabled && stretches != [] then 1 else |stretches|
    ensures Played(cfg, stretches, rounds)
  {
    var hist := new ShellHistory(histbuf);
    var line := new byte[cfg.size];
    assert line[..0] == [];
    rounds := [];
    assert AtPrompt(cfg, line, hist, DeskAt(cfg, stretches, 0));
    hide AtPrompt, AsExpected, DeskAt, Ending, KeptLeft, Sound, Usable, Shows, LeftIn, Played;
    NonePlayed(cfg, stretches);
    while |rounds| < |stretches|
      invariant Played(cfg, stretches, rounds) && |rounds| <= |stretches| && (cfg.exitEnabled ==> rounds == [])
      invariant fresh(hist) && fresh(line) && hist.buffer == histbuf
      invariant AtPrompt(cfg, line, hist, DeskAt(cfg, stretches, |rounds|))
      decreases |stretches| - |rounds|
    {
      DeskNext(cfg, stretches, |rounds|);
      var round := NextRound(cfg, line, hist, stretches[|rounds|], DeskAt(cfg, stretches, |rounds|));
      PlayedOneMore(cfg, stretches, rounds, round);
      rounds := rounds + [round];
      if cfg.exitEnabled {
        return;
      }
    }
  }

  lemma NonePlayed(cfg: Config, stretches: seq<seq<byte>>)
    requires Usable(cfg)
    ensures Played(cfg, stretches, [])
  {
  }

  lemma DeskNext(cfg: Config, stretches: seq<seq<byte>>, k: nat)
    requires Usable(cfg) && k < |stretches|
    ensures var end := Ending(cfg, DeskAt(cfg, stretches, k), stretches[k]);
      DeskAt(cfg, stretches, k + 1) == Desk(end.edit, KeptLeft(end.left))
  {
    hide Ending;
  }

  /**
   A reset right after a submitted line brings its command up again, without its arguments, and so
   does every reset that follows at once; even if the line had too many arguments to be run.
   */
  lemma ResetRepeatsCommand(cfg: Config, desk: Desk, words: seq<Word>, tail: Line)
    requires Usable(cfg) && Sound(cfg, desk.edit) && desk.edit.text == []
    requires words != [] && (forall w | w in words :: WellFormed(w)) && Separated(words) && AllBlank(tail)
    requires Typable(Print(words, tail)) && |Print(words, tail)| < cfg.size
    ensures var end := Ending(cfg, desk, Print(words, tail) + [CR]);
      && end.left.Some? && Split(end.left.value) == Command(Some(words[0].text), [])
      && Ending(cfg, end.(left := Some(Kept(end.left.value))), []).left == end.left
  {
    var s := Print(words, tail);
    var e := desk.edit;
    FirstWord(words, tail);
    KeptSplits(s);
    TypedLineReturned(cfg, e.lines, e.cur, s, []);
    assert s + [CR] + [] == s + [CR];
    hide *;
    EndingStep(cfg, desk, s + [CR]);
    var next := Desk(Run(cfg, Plain, e, s + [CR]).edit.(text := []), Some(Kept(s)));
    EndingNow(cfg, next);
    var again := Ending(cfg, next, []);
    EndingNow(cfg, again.(left := Some(Kept(again.left.value))));
  }

  lemma EndingNow(cfg: Config, desk: Desk)
    requires Usable(cfg) && Sound(cfg, desk.edit) && desk.edit.text == []
    ensures Ending(cfg, desk, []).left == desk.left
  {
  }

  lemma FirstWord(words: seq<Word>, tail: Line)
    requires words != [] && (forall w | w in words :: WellFormed(w)) && Separated(words) && AllBlank(tail)
    ensures words[0].text != [] && Token(Print(words, tail), 0) == words[0].text
  {
    hide *;
    TokensOfPrint(words, tail);
    TextsFirst(words);
    FirstToken(Print(words, tail), Texts(words));
  }

  lemma TextsFirst(words: seq<Word>)
    requires words != [] && WellFormed(words[0])
    ensures Texts(words) != [] && Texts(words)[0] == words[0].text != []
  {
  }

  /** A command line typed from its words and ended with return is seen as that command. */
  lemma TypedCommandSeen(cfg: Config, e: Edit, words: seq<Word>, tail: Line)
    requires Usable(cfg) && Sound(cfg, e) && e.text == []
    requires 1 <= |words| <= 5
    requires forall w | w in words :: WellFormed(w)
    requires Separated(words) && AllBlank(tail)
    requires Typable(Print(words, tail)) && |Print(words, tail)| < cfg.size
    ensures Commands(Session(cfg, e, Print(words, tail) + [13]))
         == [Command(Some(words[0].text), Texts(words[1..]))]
  {
    var s := Print(words, tail);
    SplitOfPrint(words, tail);
    TypedLineReturned(cfg, e.lines, e.cur, s, []);
    assert s + [CR] + [] == s + [CR];
    hide *;
    SessionStep(cfg, e, s + [CR]);
    var after := Run(cfg, Plain, e, s + [CR]).edit.(text := []);
    SessionEnds(cfg, after);
    OneCommand(s);
  }

  lemma OneCommand(line: Line)
    ensures Commands([line]) == [Split(line)]
  {
    hide Split;
  }
}
