/**
 What each key of the line editor does, stated on whole runs of the editor and with the byte
 values themselves: a user's view of the decoder and of the editing actions.
 */
module Keys {
  import opened Types
  import opened Memory
  import opened History
  import opened Completion
  import opened LineEditor

  /** A byte outside escape sequences: it acts, and either ends the line or the run goes on. */
  lemma PlainByte(cfg: Config, e: Edit, c: byte, more: seq<byte>)
    requires Usable(cfg) && Sound(cfg, e) && c != 27
    ensures var a := Key(cfg.exitEnabled, c);
      var after := Apply(cfg, e, a);
      && Sound(cfg, after)
      && Run(cfg, Plain, e, [c] + more)
         == if EndsLine(a) then Outcome(a == Close, after, more) else Run(cfg, Plain, after, more)
  {
    hide Run, Sound, Usable, Apply;
    RunStep(cfg, Plain, e, c, more);
  }

  // ---------------------------------------------------------------- typing and deleting

  /** Either delete key undoes one typed byte. */
  lemma DeleteUndoesTyping(cfg: Config, e: Edit, c: byte, k: byte, more: seq<byte>)
    requires Usable(cfg) && Sound(cfg, e)
    requires c >= 32 && c != 127 && (k == 8 || k == 127) && |e.text| + 1 < cfg.size
    ensures Run(cfg, Plain, e, [c, k] + more) == Run(cfg, Plain, e, more)
  {
    hide Run, Sound, Usable;
    assert [c, k] + more == [c] + ([k] + more);
    TypeOne(cfg, e, c, [k] + more);
    PlainByte(cfg, e.(text := e.text + [c]), k, more);
    assert (e.text + [c])[..|e.text|] == e.text;
  }

  /** As many deletes as bytes typed leave the line as it was. */
  lemma {:induction false} DeletesUndoTyping(cfg: Config, e: Edit, s: Line, ks: seq<byte>, more: seq<byte>)
    requires Usable(cfg) && Sound(cfg, e)
    requires Typable(s) && |e.text| + |s| < cfg.size
    requires |ks| == |s| && forall i | 0 <= i < |ks| :: ks[i] == 8 || ks[i] == 127
    ensures Run(cfg, Plain, e, s + ks + more) == Run(cfg, Plain, e, more)
    decreases |s|
  {
    hide Run, Sound, Usable;
    if s == [] {
      assert s + ks + more == more;
    } else {
      var n := |s| - 1;
      var front, c, k, rest := s[..n], s[n], ks[0], ks[1..];
      assert s + ks + more == front + ([c, k] + (rest + more));
      TypingAppends(cfg, e, front, [c, k] + (rest + more));
      TypingAppends(cfg, e, front, rest + more);
      DeleteUndoesTyping(cfg, e.(text := e.text + front), c, k, rest + more);
      assert front + (rest + more) == front + rest + more;
      DeletesUndoTyping(cfg, e, front, rest, more);
    }
  }

  /** On an empty line there is nothing to delete. */
  lemma DeleteOnEmptyIgnored(cfg: Config, e: Edit, k: byte, more: seq<byte>)
    requires Usable(cfg) && Sound(cfg, e) && e.text == [] && (k == 8 || k == 127)
    ensures Run(cfg, Plain, e, [k] + more) == Run(cfg, Plain, e, more)
  {
    hide Run, Sound, Usable;
    PlainByte(cfg, e, k, more);
  }

  /** A full line takes no more bytes, and no completion either. */
  lemma FullLineIgnores(cfg: Config, e: Edit, c: byte, more: seq<byte>)
    requires Usable(cfg) && Sound(cfg, e) && |e.text| + 1 == cfg.size
    requires (c >= 32 && c != 127) || c == 9
    ensures Run(cfg, Plain, e, [c] + more) == Run(cfg, Plain, e, more)
  {
    hide Run, Sound, Usable;
    PlainByte(cfg, e, c, more);
  }

  // ---------------------------------------------------------------- control keys and escapes

  /** Control bytes without a meaning are ignored, and CTRL-D is one of them without the exit command. */
  lemma ControlIgnored(cfg: Config, e: Edit, c: byte, more: seq<byte>)
    requires Usable(cfg) && Sound(cfg, e)
    requires c < 32 && c !in {8, 9, 13, 14, 16, 27} && (c == 4 ==> !cfg.exitEnabled)
    ensures Run(cfg, Plain, e, [c] + more) == Run(cfg, Plain, e, more)
  {
    hide Run, Sound, Usable;
    PlainByte(cfg, e, c, more);
  }

  /** With the exit command CTRL-D closes the line as it is. */
  lemma ControlDCloses(cfg: Config, e: Edit, more: seq<byte>)
    requires Usable(cfg) && Sound(cfg, e) && cfg.exitEnabled
    ensures Run(cfg, Plain, e, [4] + more) == Outcome(true, e, more)
  {
    hide Run, Sound, Usable;
    PlainByte(cfg, e, 4, more);
  }

  /** Escape sequences other than the two arrows swallow their bytes. */
  lemma EscapeSwallows(cfg: Config, e: Edit, c: byte, more: seq<byte>)
    requires Usable(cfg) && Sound(cfg, e)
    ensures c != 27 && c != 91 ==> Run(cfg, Plain, e, [27, c] + more) == Run(cfg, Plain, e, more)
    ensures c !in {27, 91, 65, 66} ==> Run(cfg, Plain, e, [27, 91, c] + more) == Run(cfg, Plain, e, more)
    ensures Run(cfg, Plain, e, [27, 27] + more) == Run(cfg, Plain, e, [27] + more)
  {
    hide Run, Sound, Usable;
    assert [27, c] + more == [27] + ([c] + more);
    assert [27, 91, c] + more == [27] + ([91] + ([c] + more));
    assert [27, 27] + more == [27] + ([27] + more);
    RunStep(cfg, Plain, e, 27, [c] + more);
    RunStep(cfg, Mode(true, false), e, c, more);
    RunStep(cfg, Plain, e, 27, [91] + ([c] + more));
    RunStep(cfg, Mode(true, false), e, 91, [c] + more);
    RunStep(cfg, Mode(true, true), e, c, more);
    RunStep(cfg, Plain, e, 27, [27] + more);
    RunStep(cfg, Mode(true, false), e, 27, more);
    RunStep(cfg, Plain, e, 27, more);
  }

  /** Inside a sequence a second escape or bracket changes nothing. */
  lemma EscapeRepeats(cfg: Config, e: Edit, c: byte, more: seq<byte>)
    requires Usable(cfg) && Sound(cfg, e) && (c == 27 || c == 91)
    ensures Run(cfg, Plain, e, [27, 91, c] + more) == Run(cfg, Plain, e, [27, 91] + more)
  {
    hide Run, Sound, Usable;
    assert [27, 91, c] + more == [27] + ([91] + ([c] + more));
    assert [27, 91] + more == [27] + ([91] + more);
    RunStep(cfg, Plain, e, 27, [91] + ([c] + more));
    RunStep(cfg, Mode(true, false), e, 91, [c] + more);
    RunStep(cfg, Mode(true, true), e, c, more);
    RunStep(cfg, Plain, e, 27, [91] + more);
    RunStep(cfg, Mode(true, false), e, 91, more);
  }

  // ---------------------------------------------------------------- history keys

  /** Going back: the next older line, or no change at the oldest; CTRL-P and the up arrow. */
  lemma BackKey(cfg: Config, e: Edit, arrow: bool, more: seq<byte>)
    requires Usable(cfg) && Sound(cfg, e)
    ensures var n, keys := |e.lines|, if arrow then [27, 91, 65] else [16];
      var after := if e.cur < n then Edit(e.lines[n - 1 - e.cur], e.lines, e.cur + 1) else e;
      Sound(cfg, after) && Run(cfg, Plain, e, keys + more) == Run(cfg, Plain, after, more)
  {
    hide Run, Sound, Usable;
    assert e.cur <= |e.lines| by { CursorInRange(cfg, e); }
    if arrow {
      ArrowRun(cfg, e, 65, more);
    } else {
      PlainByte(cfg, e, 16, more);
    }
  }

  /** Going forward: the next newer line, or the empty line at the newest end; CTRL-N and the down arrow. */
  lemma ForwardKey(cfg: Config, e: Edit, arrow: bool, more: seq<byte>)
    requires Usable(cfg) && Sound(cfg, e)
    ensures var n, keys := |e.lines|, if arrow then [27, 91, 66] else [14];
      e.cur <= n &&
      var after := if e.cur > 1 then Edit(e.lines[n + 1 - e.cur], e.lines, e.cur - 1) else Edit([], e.lines, 0);
      Sound(cfg, after) && Run(cfg, Plain, e, keys + more) == Run(cfg, Plain, after, more)
  {
    hide Run, Sound, Usable;
    CursorInRange(cfg, e);
    if arrow {
      ArrowRun(cfg, e, 66, more);
    } else {
      PlainByte(cfg, e, 14, more);
    }
  }

  lemma CursorInRange(cfg: Config, e: Edit)
    requires Sound(cfg, e)
    ensures e.cur <= |e.lines|
  {
  }

  function Times(keys: seq<byte>, k: nat): seq<byte> {
    if k == 0 then [] else keys + Times(keys, k - 1)
  }

  /** From the newest end, k times back shows the k-th newest line. */
  lemma {:induction false} BackTimes(cfg: Config, e: Edit, arrow: bool, k: nat, more: seq<byte>)
    requires Usable(cfg) && Sound(cfg, e)
    requires e.cur <= |e.lines| && 1 <= k <= |e.lines| - e.cur
    ensures var n, keys := |e.lines|, if arrow then [27, 91, 65] else [16];
      var after := Edit(e.lines[n - e.cur - k], e.lines, e.cur + k);
      Sound(cfg, after) && Run(cfg, Plain, e, Times(keys, k) + more) == Run(cfg, Plain, after, more)
    decreases k
  {
    hide Run, Sound, Usable;
    var n, keys := |e.lines|, if arrow then [27, 91, 65] else [16];
    var rest := Times(keys, k - 1);
    assert Times(keys, k) + more == keys + (rest + more);
    BackKey(cfg, e, arrow, rest + more);
    if k > 1 {
      BackTimes(cfg, Edit(e.lines[n - 1 - e.cur], e.lines, e.cur + 1), arrow, k - 1, more);
    } else {
      assert rest + more == more;
    }
  }

  // ---------------------------------------------------------------- return

  /** Which lines are kept: those with a byte other than a space that leave two bytes of the buffer. */
  lemma KeptIff(text: Line, size: nat)
    ensures IsKept(text, size) <==> |text| + 2 <= size && exists i | 0 <= i < |text| :: text[i] != 32
  {
    if Trim(text) != [] {
      assert text[|Trim(text)| - 1] != 32;
    }
  }

  /** Return gives the line as it stands; a line that is not kept leaves history and cursor alone. */
  lemma ReturnKey(cfg: Config, e: Edit, more: seq<byte>)
    requires Usable(cfg) && Sound(cfg, e)
    ensures var r := Run(cfg, Plain, e, [13] + more);
      var kept := |e.text| + 2 <= cfg.histSize && exists i | 0 <= i < |e.text| :: e.text[i] != 32;
      && !r.closed && r.rest == more && r.edit.text == e.text
      && (!kept ==> r.edit == e)
      && (kept ==> r.edit.cur == 0 && r.edit.lines != [] && r.edit.lines[|r.edit.lines| - 1] == Trim(e.text))
  {
    hide Run, Sound, Usable, Evict;
    PlainByte(cfg, e, 13, more);
    KeptIff(e.text, cfg.histSize);
  }

  function Typed(lines: seq<Line>): seq<byte> {
    if lines == [] then [] else lines[0] + [13] + Typed(lines[1..])
  }

  /** Any number of lines, typed one after the other, come back in order, whatever the history holds. */
  lemma {:induction false} TypedLinesReturned(cfg: Config, e: Edit, lines: seq<Line>)
    requires Usable(cfg) && Sound(cfg, e) && e.text == []
    requires forall i | 0 <= i < |lines| :: Typable(lines[i]) && |lines[i]| < cfg.size
    ensures Session(cfg, e, Typed(lines)) == lines
    decreases |lines|
  {
    hide Run, Sound, Usable, Session, Typable, Saved;
    if lines == [] {
      SessionEnds(cfg, e);
    } else {
      var s, rest := lines[0], Typed(lines[1..]);
      TypedLineReturned(cfg, e.lines, e.cur, s, rest);
      assert e == Edit([], e.lines, e.cur);
      SessionStep(cfg, e, s + [13] + rest);
      var after := Run(cfg, Plain, e, s + [13] + rest).edit;
      assert after.text == s;
      forall i | 0 <= i < |lines[1..]| ensures Typable(lines[1..][i]) && |lines[1..][i]| < cfg.size {
        assert lines[1..][i] == lines[i + 1];
      }
      TypedLinesReturned(cfg, after.(text := []), lines[1..]);
    }
  }

  // ---------------------------------------------------------------- tab

  /** The names that extend the text, in the order and number of the table. */
  lemma MatchesOne(name: Line, text: Line)
    ensures Matches([name], text) == if text <= name then [name] else []
  {
    assert [name][1..] == [];
  }

  /** No name: nothing changes. */
  lemma TabWithoutMatch(cfg: Config, e: Edit, more: seq<byte>)
    requires Usable(cfg) && Sound(cfg, e)
    requires forall n | n in cfg.names :: !(e.text <= n)
    ensures Run(cfg, Plain, e, [9] + more) == Run(cfg, Plain, e, more)
  {
    hide Run, Sound, Usable;
    NoMatch(cfg.names, e.text);
    PlainByte(cfg, e, 9, more);
  }

  /** One name: it is written out, and a space behind it where one fits. */
  lemma TabCompletesName(cfg: Config, e: Edit, before: seq<Line>, name: Line, behind: seq<Line>, more: seq<byte>)
    requires Usable(cfg) && Sound(cfg, e) && |e.text| + 1 < cfg.size
    requires cfg.names == before + [name] + behind && e.text <= name
    requires forall n | n in before || n in behind :: !(e.text <= n)
    ensures var after := e.(text := if |name| + 1 < cfg.size then name + [32] else name);
      Sound(cfg, after) && Run(cfg, Plain, e, [9] + more) == Run(cfg, Plain, after, more)
  {
    hide Run, Sound, Usable;
    MatchesConcat(before + [name], behind, e.text);
    MatchesConcat(before, [name], e.text);
    MatchesOne(name, e.text);
    NoMatch(before, e.text);
    NoMatch(behind, e.text);
    assert Matches(cfg.names, e.text) == [name];
    PlainByte(cfg, e, 9, more);
  }

  lemma NoMatch(names: seq<Line>, text: Line)
    requires forall n | n in names :: !(text <= n)
    ensures Matches(names, text) == []
  {
    if Matches(names, text) != [] {
      assert Matches(names, text)[0] in Matches(names, text);
    }
  }

  /** Every name that extends the text extends p as well. */
  ghost predicate ExtendedByAll(names: seq<Line>, text: Line, p: Line) {
    forall n | n in names && text <= n :: p <= n
  }

  /** Two names or more: the longest text they all extend. */
  lemma TabCompletesPrefix(cfg: Config, e: Edit, more: seq<byte>) returns (prefix: Line)
    requires Usable(cfg) && Sound(cfg, e) && |e.text| + 1 < cfg.size
    requires |Matches(cfg.names, e.text)| > 1
    ensures Sound(cfg, e.(text := prefix)) && e.text <= prefix
    ensures forall p: Line :: ExtendedByAll(cfg.names, e.text, p) <==> p <= prefix
    ensures Run(cfg, Plain, e, [9] + more) == Run(cfg, Plain, e.(text := prefix), more)
  {
    hide Run, Sound, Usable, CommonPrefix;
    var found := Matches(cfg.names, e.text);
    prefix := CommonPrefix(found);
    PlainByte(cfg, e, 9, more);
    CommonPrefixIsLongest(found, e.text);
    assert forall i | 0 <= i < |found| :: found[i] in found;
    forall p: Line ensures ExtendedByAll(cfg.names, e.text, p) <==> p <= prefix {
      CommonPrefixIsLongest(found, p);
      if IsCommonPrefix(p, found) {
        forall n | n in cfg.names && e.text <= n ensures p <= n {
          var i :| 0 <= i < |found| && found[i] == n;
        }
      }
    }
  }
}
