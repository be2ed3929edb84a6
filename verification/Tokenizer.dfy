/**
 Splitting a command line in place: the pure tokenizer on the line as typed, the in-place one
 on the line buffer, and the round trip from printed words back to the words.
 */
module Tokenizer {
  import opened Types
  import opened Memory
  import opened History

  const QUOTE: byte := 34
  const TAB: byte := 9
  const SHELL_MAX_ARGUMENTS: nat := 4

  predicate IsBlank(c: byte) {
    c == SPACE || c == TAB
  }

  predicate IsDelimiter(c: byte, quoted: bool) {
    if quoted then c == QUOTE else IsBlank(c)
  }

  // ---------------------------------------------------------------- pure tokenizer

  /** p + strspn(p, " \t") */
  function Span(s: Line, i: nat): (n: nat)
    requires i <= |s|
    ensures i <= n <= |s|
    ensures forall k | i <= k < n :: IsBlank(s[k])
    ensures n < |s| ==> !IsBlank(s[n])
    decreases |s| - i
  {
    if i < |s| && IsBlank(s[i]) then Span(s, i + 1) else i
  }

  /** The index of the first delimiter, as strpbrk finds it, or the end of the string. */
  function Until(s: Line, i: nat, quoted: bool): (n: nat)
    requires i <= |s|
    ensures i <= n <= |s|
    ensures forall k | i <= k < n :: !IsDelimiter(s[k], quoted)
    ensures n < |s| ==> IsDelimiter(s[n], quoted)
    decreases |s| - i
  {
    if i < |s| && !IsDelimiter(s[i], quoted) then Until(s, i + 1, quoted) else i
  }

  predicate OpensQuote(s: Line, i: nat)
    requires i <= |s|
  {
    Span(s, i) < |s| && s[Span(s, i)] == QUOTE
  }

  function TokenStart(s: Line, i: nat): (n: nat)
    requires i <= |s|
    ensures i <= n <= |s|
  {
    Span(s, i) + if OpensQuote(s, i) then 1 else 0
  }

  /** Where the token that begins at `TokenStart` stops: at its delimiter or at the end. */
  function TokenStop(s: Line, i: nat): (n: nat)
    requires i <= |s|
    ensures TokenStart(s, i) <= n <= |s|
  {
    Until(s, TokenStart(s, i), OpensQuote(s, i))
  }

  function Token(s: Line, i: nat): Line
    requires i <= |s|
  {
    s[TokenStart(s, i)..TokenStop(s, i)]
  }

  /** The saved position after a token: behind its delimiter, or null. */
  function Next(s: Line, i: nat): (r: Option<nat>)
    requires i <= |s|
    ensures r.Some? ==> i < r.value <= |s|
  {
    if TokenStop(s, i) < |s| then Some(TokenStop(s, i) + 1) else None
  }

  /** The tokens up to the first empty one, which ends the list. */
  function Tokens(s: Line, at: Option<nat>): (r: seq<Line>)
    requires at.Some? ==> at.value <= |s|
    decreases if at.Some? then |s| + 1 - at.value else 0
  {
    if at == None || Token(s, at.value) == [] then [] else [Token(s, at.value)] + Tokens(s, Next(s, at.value))
  }

  /** The command and arguments the shell acts on; no command when there are too many arguments. */
  datatype Command = Command(name: Option<Line>, args: seq<Line>)

  function Split(s: Line): (r: Command)
    ensures |r.args| <= SHELL_MAX_ARGUMENTS
  {
    var args := Tokens(s, Next(s, 0));
    if |args| > SHELL_MAX_ARGUMENTS then Command(None, args[..SHELL_MAX_ARGUMENTS])
    else Command(if Token(s, 0) == [] then None else Some(Token(s, 0)), args)
  }

  /** What is left of a line, as a string, once it has been split: everything up to its first cut. */
  function Kept(s: Line): Line {
    s[..TokenStop(s, 0)]
  }

  lemma SpanKept(s: Line, i: nat, stop: nat)
    requires i <= stop <= |s| && Span(s, i) <= stop
    ensures Span(s[..stop], i) == Span(s, i)
  {
  }

  /** Splitting the rest of a split line again finds its command, without arguments, and cuts nothing. */
  lemma KeptSplits(s: Line)
    ensures Split(Kept(s)) == Command(if Token(s, 0) == [] then None else Some(Token(s, 0)), [])
    ensures Kept(Kept(s)) == Kept(s)
  {
    var c, stop := Kept(s), TokenStop(s, 0);
    SpanKept(s, 0, stop);
    assert OpensQuote(c, 0) == OpensQuote(s, 0) && TokenStart(c, 0) == TokenStart(s, 0);
    assert TokenStop(c, 0) == stop;
    assert Token(c, 0) == Token(s, 0);
    hide Span, Until;
  }

  lemma {:induction false} FirstToken(s: Line, texts: seq<Line>)
    requires texts != [] && Tokens(s, Some(0)) == texts
    ensures Token(s, 0) == texts[0]
  {
    hide Token, Next;
  }

  // ---------------------------------------------------------------- round trip

  /** A word as a user can type it: leading blanks, then the text, in quotes or bare. */
  datatype Word = Word(pad: Line, text: Line, quoted: bool)

  /** Spaces and tabs. */
  ghost predicate AllBlank(s: Line) {
    forall i | 0 <= i < |s| :: s[i] == 32 || s[i] == 9
  }

  /** In quotes anything but a quote; bare anything but blanks, and not a quote at the front. */
  ghost predicate WellFormed(w: Word) {
    && AllBlank(w.pad)
    && w.text != []
    && (w.quoted ==> forall i | 0 <= i < |w.text| :: w.text[i] != 34)
    && (!w.quoted ==> w.text[0] != 34 && forall i | 0 <= i < |w.text| :: w.text[i] != 32 && w.text[i] != 9)
  }

  /** Bare words need a blank behind them; quoted words do not. */
  ghost predicate Separated(words: seq<Word>) {
    forall i | 1 <= i < |words| :: words[i - 1].quoted || words[i].pad != []
  }

  function Printed(w: Word): Line {
    w.pad + if w.quoted then [34] + w.text + [34] else w.text
  }

  function Print(words: seq<Word>, tail: Line): Line {
    if words == [] then tail else Printed(words[0]) + Print(words[1..], tail)
  }

  function Texts(words: seq<Word>): seq<Line> {
    if words == [] then [] else [words[0].text] + Texts(words[1..])
  }

  /** Where the first token of a string starts and stops, from what stands around it. */
  lemma TokenIs(s: Line, i: nat, body: nat, stop: nat, quoted: bool)
    requires var start := body + if quoted then 1 else 0; i <= body <= start <= stop <= |s|
    requires forall k | i <= k < body :: IsBlank(s[k])
    requires if quoted then s[body] == QUOTE else body == |s| || (!IsBlank(s[body]) && s[body] != QUOTE)
    requires forall k | body + (if quoted then 1 else 0) <= k < stop :: !IsDelimiter(s[k], quoted)
    requires stop == |s| || IsDelimiter(s[stop], quoted)
    ensures TokenStart(s, i) == body + (if quoted then 1 else 0) && TokenStop(s, i) == stop
  {
    assert Span(s, i) == body;
    assert Until(s, TokenStart(s, i), quoted) == stop;
  }

  /** The printed form of `w` stands at `i`. */
  ghost predicate WordAt(s: Line, i: nat, w: Word) {
    && i + |Printed(w)| <= |s|
    && forall k | 0 <= k < |Printed(w)| :: s[i + k] == Printed(w)[k]
  }

  /** The words stand one behind the other from `i` to `end`, each with a delimiter behind it. */
  ghost predicate WordsAt(s: Line, i: nat, words: seq<Word>, end: nat)
    decreases |words|
  {
    if words == [] then i == end <= |s|
    else
      var next := i + |Printed(words[0])|;
      && WellFormed(words[0])
      && WordAt(s, i, words[0])
      && (words[0].quoted || next == |s| || IsBlank(s[next]))
      && WordsAt(s, next, words[1..], end)
  }

  /** The printed form, character by character. */
  lemma PrintedChars(w: Word)
    ensures var start := |w.pad| + if w.quoted then 1 else 0;
      && |Printed(w)| == start + |w.text| + (if w.quoted then 1 else 0)
      && (forall k | 0 <= k < |w.pad| :: Printed(w)[k] == w.pad[k])
      && (w.quoted ==> Printed(w)[|w.pad|] == QUOTE && Printed(w)[start + |w.text|] == QUOTE)
      && (forall k | start <= k < start + |w.text| :: Printed(w)[k] == w.text[k - start])
  {
  }

  /** One printed word is read back as its text, whatever follows it. */
  lemma TokenOfWord(s: Line, i: nat, w: Word, next: nat)
    requires WellFormed(w) && WordAt(s, i, w)
    requires next == i + |Printed(w)|
    requires w.quoted || next == |s| || IsBlank(s[next])
    ensures next <= |s| && Token(s, i) == w.text
    ensures TokenStop(s, i) == next - (if w.quoted then 1 else 0)
  {
    PrintedChars(w);
    hide Printed, Token, TokenStart, TokenStop;
    var body := i + |w.pad|;
    var start := body + if w.quoted then 1 else 0;
    var stop := start + |w.text|;
    forall k | i <= k < next ensures s[k] == Printed(w)[k - i] {
      var j := k - i;
      assert s[i + j] == Printed(w)[j];
    }
    assert w.quoted ==> s[body] == Printed(w)[|w.pad|];
    TokenIs(s, i, body, stop, w.quoted);
    TokenSlice(s, i, w.text);
  }

  lemma TokenSlice(s: Line, i: nat, text: Line)
    requires i <= |s| && TokenStop(s, i) == TokenStart(s, i) + |text|
    requires forall k | TokenStart(s, i) <= k < TokenStop(s, i) :: s[k] == text[k - TokenStart(s, i)]
    ensures Token(s, i) == text
  {
    hide TokenStart, TokenStop;
  }

  /** A blank in front changes nothing. */
  lemma {:induction false} TokensSkipBlank(s: Line, i: nat)
    requires i < |s| && IsBlank(s[i])
    ensures Tokens(s, Some(i)) == Tokens(s, Some(i + 1))
  {
    assert Token(s, i) == Token(s, i + 1) && Next(s, i) == Next(s, i + 1);
  }

  lemma {:induction false} TokensStep(s: Line, i: nat, word: Line, next: Option<nat>)
    requires i <= |s| && word != []
    requires Token(s, i) == word && Next(s, i) == next
    ensures Tokens(s, Some(i)) == [word] + Tokens(s, next)
  {
  }

  /** Reading goes on right behind a word, whether its delimiter was its own quote or a blank. */
  lemma {:induction false} TokensBehindWord(s: Line, i: nat, word: Line, next: nat, quoted: bool)
    requires i <= |s| && next <= |s| && word != []
    requires Token(s, i) == word && TokenStop(s, i) == next - (if quoted then 1 else 0)
    requires quoted || next == |s| || IsBlank(s[next])
    ensures Tokens(s, Some(i)) == [word] + Tokens(s, Some(next))
  {
    if quoted {
      TokensStep(s, i, word, Some(next));
    } else if next < |s| {
      TokensStep(s, i, word, Some(next + 1));
      TokensSkipBlank(s, next);
    } else {
      TokensStep(s, i, word, None);
      TokensOfBlanks(s, next);
    }
  }

  /** Tokenizing words that stand in the string gives the words, then the tokens behind them. */
  lemma {:induction false} TokensOfWords(s: Line, i: nat, words: seq<Word>, end: nat)
    requires i <= |s| && WordsAt(s, i, words, end)
    ensures end <= |s| && Tokens(s, Some(i)) == Texts(words) + Tokens(s, Some(end))
    decreases |words|
  {
    hide Tokens, Token, TokenStop, TokenStart, WordAt, Printed;
    if words != [] {
      var next := i + |Printed(words[0])|;
      TokenOfWord(s, i, words[0], next);
      TokensBehindWord(s, i, words[0].text, next, words[0].quoted);
      TokensOfWords(s, next, words[1..], end);
      ConsConcat(words[0].text, Texts(words[1..]), Tokens(s, Some(end)));
    }
  }

  lemma ConsConcat<T>(a: T, b: seq<T>, c: seq<T>)
    ensures [a] + (b + c) == ([a] + b) + c
  {
  }

  lemma {:induction false} PrintStartsBlank(words: seq<Word>, tail: Line)
    requires forall w | w in words :: WellFormed(w)
    requires words == [] ==> tail == [] || IsBlank(tail[0])
    requires words != [] ==> words[0].pad != []
    ensures Print(words, tail) == [] || IsBlank(Print(words, tail)[0])
  {
    assert words != [] ==> words[0] in words;
  }

  /** Printing puts the words where `WordsAt` looks for them. */
  lemma {:induction false} PrintPlacesWords(s: Line, i: nat, words: seq<Word>, tail: Line)
    requires i <= |s| && s[i..] == Print(words, tail)
    requires forall w | w in words :: WellFormed(w)
    requires Separated(words)
    requires words == [] || words[|words| - 1].quoted || tail == [] || IsBlank(tail[0])
    ensures |tail| <= |s| && WordsAt(s, i, words, |s| - |tail|) && s[|s| - |tail|..] == tail
    decreases |words|
  {
    hide Printed, WellFormed, IsBlank;
    if words != [] {
      var w, more := words[0], Print(words[1..], tail);
      assert w in words && forall v | v in words[1..] :: v in words;
      if !w.quoted {
        assert |words| > 1 ==> words[1].pad != [];
        PrintStartsBlank(words[1..], tail);
      }
      var next := i + |Printed(w)|;
      SuffixBehind(s, i, Printed(w), more);
      PrintPlacesWords(s, next, words[1..], tail);
    }
  }

  lemma SuffixBehind(s: Line, i: nat, a: Line, b: Line)
    requires i <= |s| && s[i..] == a + b
    ensures i + |a| <= |s| && s[i + |a|..] == b
    ensures forall k | 0 <= k < |a| :: s[i + k] == a[k]
    ensures b != [] ==> s[i + |a|] == b[0]
  {
    assert s[i + |a|..] == s[i..][|a|..];
    forall k | 0 <= k < |a| ensures s[i + k] == a[k] {
      assert s[i + k] == s[i..][k];
    }
  }

  lemma {:induction false} TokensOfBlanks(s: Line, i: nat)
    requires i <= |s| && forall k | i <= k < |s| :: IsBlank(s[k])
    ensures Tokens(s, Some(i)) == []
  {
    assert Span(s, i) == |s|;
  }

  /** Printing words and tokenizing them gives the words back, for any number of words. */
  lemma TokensOfPrint(words: seq<Word>, tail: Line)
    requires forall w | w in words :: WellFormed(w)
    requires Separated(words)
    requires AllBlank(tail)
    ensures Tokens(Print(words, tail), Some(0)) == Texts(words)
  {
    hide Tokens, Token, TokenStop, TokenStart, WordsAt, WellFormed, Texts;
    var s := Print(words, tail);
    assert s[0..] == s;
    PrintPlacesWords(s, 0, words, tail);
    TokensOfWords(s, 0, words, |s| - |tail|);
    SuffixBehind(s, |s| - |tail|, tail, []);
    TokensOfBlanks(s, |s| - |tail|);
  }

  lemma {:induction false} TextsOf(words: seq<Word>)
    ensures |Texts(words)| == |words|
    ensures forall i | 0 <= i < |words| :: Texts(words)[i] == words[i].text
  {
    if words != [] {
      TextsOf(words[1..]);
    }
  }

  /**
   A printed command line is split into exactly its words when it has at most four arguments;
   with more, no command is run.
   */
  lemma SplitOfPrint(words: seq<Word>, tail: Line)
    requires words != []
    requires forall w | w in words :: WellFormed(w)
    requires Separated(words)
    requires AllBlank(tail)
    ensures var s := Print(words, tail);
      if |words| <= 5
      then Split(s) == Command(Some(words[0].text), Texts(words[1..]))
      else Split(s).name == None
  {
    var s := Print(words, tail);
    TokensOfPrint(words, tail);
    TextsOf(words);
    assert Tokens(s, Some(0)) == [Token(s, 0)] + Tokens(s, Next(s, 0));
    assert Texts(words) == [words[0].text] + Texts(words[1..]);
    assert Tokens(s, Next(s, 0)) == Tokens(s, Some(0))[1..] == Texts(words[1..]);
    TextsOf(words[1..]);
  }

  /** An empty pair of quotes ends the list: nothing behind it becomes an argument. */
  lemma EmptyQuotesEndTokens(words: seq<Word>, pad: Line, more: Line)
    requires forall w | w in words :: WellFormed(w)
    requires Separated(words)
    requires AllBlank(pad) && (words != [] && !words[|words| - 1].quoted ==> pad != [])
    ensures Tokens(Print(words, pad + [34, 34] + more), Some(0)) == Texts(words)
  {
    BlankInFront(pad, more);
    hide Tokens, Token, TokenStop, TokenStart, WordsAt, WellFormed, AllBlank, IsBlank, Printed, Print, Texts;
    var tail := pad + [34, 34] + more;
    var s := Print(words, tail);
    assert s[0..] == s;
    PrintPlacesWords(s, 0, words, tail);
    TokensOfWords(s, 0, words, |s| - |tail|);
    SuffixBehind(s, |s| - |tail|, pad + [34, 34], more);
    EmptyQuotesEnd(s, |s| - |tail|, pad);
  }

  lemma BlankInFront(pad: Line, more: Line)
    requires AllBlank(pad)
    ensures pad != [] ==> IsBlank((pad + [34, 34] + more)[0])
  {
  }

  lemma EmptyQuotesEnd(s: Line, i: nat, pad: Line)
    requires AllBlank(pad)
    requires i + |pad| + 2 <= |s|
    requires forall k | 0 <= k < |pad| + 2 :: s[i + k] == (pad + [34, 34])[k]
    ensures Tokens(s, Some(i)) == []
  {
    assert forall k | i <= k < i + |pad| :: s[k] == (pad + [34, 34])[k - i];
    assert (pad + [34, 34])[|pad|] == 34 && (pad + [34, 34])[|pad| + 1] == 34;
    TokenIs(s, i, i + |pad|, i + |pad| + 1, true);
  }

  // ---------------------------------------------------------------- in place

  /** The C string at `i`. */
  function CString(buf: seq<byte>, i: nat): Line
    requires i <= |buf|
    decreases |buf| - i
  {
    if i == |buf| || buf[i] == NUL then [] else [buf[i]] + CString(buf, i + 1)
  }

  /** A terminated string lies at `from`. */
  ghost predicate Holds(buf: seq<byte>, from: nat, s: Line) {
    && from + |s| < |buf|
    && (forall i | 0 <= i < |s| :: s[i] != NUL && buf[from + i] == s[i])
    && buf[from + |s|] == NUL
  }

  lemma {:induction false} CStringIs(buf: seq<byte>, i: nat, s: Line)
    requires Holds(buf, i, s)
    ensures CString(buf, i) == s
    decreases |s|
  {
    if s != [] {
      assert buf[i + 0] == s[0];
      CStringIs(buf, i + 1, s[1..]);
    } else {
      assert buf[i] == NUL;
    }
  }

  /** From `from` on, the buffer still holds the typed line and its terminator. */
  ghost predicate Unread(buf: seq<byte>, from: nat, line: Line) {
    && from <= |line| < |buf|
    && (forall k | from <= k < |line| :: line[k] != NUL && buf[k] == line[k])
    && buf[|line|] == NUL
  }

  /** p += strspn(p, " \t") */
  method SkipBlanks(buf: array<byte>, from: nat, ghost line: Line) returns (p: nat)
    requires Unread(buf[..], from, line)
    ensures p == Span(line, from)
  {
    p := from;
    while IsBlank(buf[p])
      invariant from <= p <= |line|
      invariant Span(line, p) == Span(line, from)
      decreases |line| - p
    {
      p := p + 1;
    }
    assert p < |line| ==> buf[p] == line[p];
  }

  /** strpbrk(p, delimiters): the position of the first delimiter, if there is one. */
  method FindDelimiter(buf: array<byte>, from: nat, quoted: bool, ghost line: Line) returns (at: Option<nat>)
    requires Unread(buf[..], from, line)
    ensures at == if Until(line, from, quoted) < |line| then Some(Until(line, from, quoted)) else None
  {
    var p := from;
    while buf[p] != NUL && !IsDelimiter(buf[p], quoted)
      invariant from <= p <= |line|
      invariant Until(line, p, quoted) == Until(line, from, quoted)
      decreases |line| - p
    {
      p := p + 1;
    }
    assert p < |line| ==> buf[p] == line[p];
    return if buf[p] == NUL then None else Some(p);
  }

  /**
   `parse_arguments` from a saved position. At most one byte changes: the delimiter behind the
   token, which becomes the token's terminator.
   */
  method ParseArguments(buf: array<byte>, save: nat, ghost line: Line) returns (token: Option<nat>, next: Option<nat>)
    requires Unread(buf[..], save, line)
    modifies buf
    ensures token == if Token(line, save) == [] then None else Some(TokenStart(line, save))
    ensures next == Next(line, save)
    ensures buf[..] == Cut(old(buf[..]), save, line)
  {
    var p := SkipBlanks(buf, save, line);
    assert p < |line| ==> buf[p] == line[p];
    var quoted := buf[p] == QUOTE;
    if quoted {
      p := p + 1;
    }
    next := FindDelimiter(buf, p, quoted, line);
    assert p < |line| ==> buf[p] == line[p];
    if next.Some? {
      buf[next.value] := NUL;
      next := Some(next.value + 1);
    }
    token := if buf[p] != NUL then Some(p) else None;
  }

  /** The buffer after the delimiter behind the token has been cut. */
  ghost function Cut(buf: seq<byte>, from: nat, line: Line): (r: seq<byte>)
    requires from <= |line| < |buf|
    ensures |r| == |buf|
  {
    if TokenStop(line, from) < |line| then buf[TokenStop(line, from) := NUL] else buf
  }

  /** Byte for byte the typed line, except that some delimiters have become terminators. */
  ghost predicate OnlyDelimitersCut(buf: seq<byte>, line: Line) {
    && |line| < |buf|
    && forall k | 0 <= k < |line| :: buf[k] == line[k] || (buf[k] == NUL && (line[k] == QUOTE || IsBlank(line[k])))
  }

  lemma CutOnlyDelimiter(buf: seq<byte>, from: nat, line: Line)
    requires OnlyDelimitersCut(buf, line) && from <= |line|
    ensures OnlyDelimitersCut(Cut(buf, from, line), line)
  {
  }

  lemma CutKeepsRest(buf: seq<byte>, from: nat, line: Line)
    requires Unread(buf, from, line)
    ensures Next(line, from).Some? ==> Unread(Cut(buf, from, line), Next(line, from).value, line)
  {
  }

  lemma CutEndsToken(buf: seq<byte>, from: nat, line: Line)
    requires Unread(buf, from, line)
    ensures Holds(Cut(buf, from, line), TokenStart(line, from), Token(line, from))
  {
    TokenHeld(buf, Cut(buf, from, line), TokenStart(line, from), TokenStop(line, from), line);
  }

  lemma TokenHeld(buf: seq<byte>, cut: seq<byte>, start: nat, stop: nat, line: Line)
    requires start <= stop <= |line| && Unread(buf, start, line)
    requires |cut| == |buf| && cut[stop] == NUL
    requires forall k | 0 <= k < |buf| && k != stop :: cut[k] == buf[k]
    ensures Holds(cut, start, line[start..stop])
  {
  }

  /** Tokens already found: each in front of the next and of `limit`, ending in a terminator. */
  ghost predicate Placed(buf: seq<byte>, starts: seq<nat>, tokens: seq<Line>, limit: nat)
    decreases |starts|
  {
    && |starts| == |tokens|
    && limit <= |buf|
    && (starts != [] ==>
          var n := |starts| - 1;
          && tokens[n] != []
          && starts[n] + |tokens[n]| < limit
          && Holds(buf, starts[n], tokens[n])
          && Placed(buf, starts[..n], tokens[..n], starts[n]))
  }

  lemma {:induction false} PlacedInOrder(buf: seq<byte>, starts: seq<nat>, tokens: seq<Line>, limit: nat,
                                         i: nat, j: nat)
    requires Placed(buf, starts, tokens, limit)
    requires i < j < |starts|
    ensures starts[i] + |tokens[i]| < starts[j] < limit
    decreases |starts|
  {
    var n := |starts| - 1;
    if j < n {
      PlacedInOrder(buf, starts[..n], tokens[..n], starts[n], i, j);
    } else if i + 1 < n {
      PlacedInOrder(buf, starts[..n], tokens[..n], starts[n], i, n - 1);
    }
  }

  lemma {:induction false} PlacedUnchanged(before: seq<byte>, buf: seq<byte>, starts: seq<nat>,
                                           tokens: seq<Line>, limit: nat)
    requires Placed(before, starts, tokens, limit)
    requires |buf| == |before| && forall k | 0 <= k < limit :: buf[k] == before[k]
    ensures Placed(buf, starts, tokens, limit)
    decreases |starts|
  {
    if starts != [] {
      var n := |starts| - 1;
      PlacedUnchanged(before, buf, starts[..n], tokens[..n], starts[n]);
    }
  }

  lemma PlacedLater(buf: seq<byte>, starts: seq<nat>, tokens: seq<Line>, limit: nat, later: nat)
    requires Placed(buf, starts, tokens, limit) && limit <= later <= |buf|
    ensures Placed(buf, starts, tokens, later)
  {
  }

  lemma PlacedOneMore(buf: seq<byte>, starts: seq<nat>, tokens: seq<Line>, start: nat, token: Line, limit: nat)
    requires Placed(buf, starts, tokens, start)
    requires token != [] && Holds(buf, start, token) && start + |token| < limit <= |buf|
    ensures Placed(buf, starts + [start], tokens + [token], limit)
  {
    assert (starts + [start])[..|starts|] == starts;
    assert (tokens + [token])[..|tokens|] == tokens;
  }

  /** Every placed token, read as a C string, is that token. */
  lemma {:induction false} PlacedReadBack(buf: seq<byte>, starts: seq<nat>, tokens: seq<Line>, limit: nat, i: nat)
    requires Placed(buf, starts, tokens, limit) && i < |starts|
    ensures starts[i] <= |buf| && CString(buf, starts[i]) == tokens[i]
    decreases |starts|
  {
    var n := |starts| - 1;
    if i == n {
      CStringIs(buf, starts[i], tokens[i]);
    } else {
      PlacedReadBack(buf, starts[..n], tokens[..n], starts[n], i);
    }
  }

  /** One call of `parse_arguments` moves the limit behind the token and leaves it in place. */
  lemma PlacedNext(buf: seq<byte>, from: nat, line: Line, starts: seq<nat>, tokens: seq<Line>)
    requires Unread(buf, from, line) && Placed(buf, starts, tokens, from)
    ensures var cut, stop := Cut(buf, from, line), TokenStop(line, from);
      && Placed(cut, starts, tokens, stop + 1)
      && (Token(line, from) != [] ==>
            Placed(cut, starts + [TokenStart(line, from)], tokens + [Token(line, from)], stop + 1))
  {
    var cut, start, stop := Cut(buf, from, line), TokenStart(line, from), TokenStop(line, from);
    PlacedUnchanged(buf, cut, starts, tokens, from);
    PlacedLater(cut, starts, tokens, from, start);
    PlacedLater(cut, starts, tokens, start, stop + 1);
    if Token(line, from) != [] {
      CutEndsToken(buf, from, line);
      PlacedOneMore(cut, starts, tokens, start, Token(line, from), stop + 1);
    }
  }

  /** Where the next token is looked for; behind the line when the saved position is null. */
  ghost function Limit(save: Option<nat>, line: Line): nat {
    if save.Some? then save.value else |line| + 1
  }

  ghost predicate Readable(buf: seq<byte>, save: Option<nat>, line: Line) {
    && OnlyDelimitersCut(buf, line)
    && (save.Some? ==> Unread(buf, save.value, line))
  }

  ghost predicate Blank(save: Option<nat>, line: Line)
    requires save.Some? ==> save.value <= |line|
  {
    save == None || Token(line, save.value) == []
  }

  /** One call of `parse_arguments(NULL, &tokp)`, in terms of the whole line. */
  method NextToken(buf: array<byte>, save: Option<nat>, ghost line: Line,
                   ghost starts: seq<nat>, ghost tokens: seq<Line>)
    returns (token: Option<nat>, next: Option<nat>)
    requires Readable(buf[..], save, line)
    requires Placed(buf[..], starts, tokens, Limit(save, line))
    modifies buf
    ensures Readable(buf[..], next, line)
    ensures token == None <==> Blank(save, line)
    ensures Limit(save, line) <= Limit(next, line)
    ensures save.Some? ==> next == Next(line, save.value)
    ensures Placed(buf[..], starts, tokens, Limit(next, line))
    ensures token.Some? ==>
              && save.Some?
              && Placed(buf[..], starts + [token.value], tokens + [Token(line, save.value)], Limit(next, line))
    ensures forall k | 0 <= k < Limit(save, line) && k < buf.Length :: buf[k] == old(buf[k])
  {
    if save == None {
      return None, None;
    }
    ghost var before := buf[..];
    token, next := ParseArguments(buf, save.value, line);
    CutOnlyDelimiter(before, save.value, line);
    CutKeepsRest(before, save.value, line);
    PlacedNext(before, save.value, line, starts, tokens);
  }

  /** The loop that fills `args`, from the position behind the command. */
  method ReadArguments(buf: array<byte>, start: Option<nat>, ghost line: Line)
    returns (args: seq<nat>, tooMany: bool, ghost tokens: seq<Line>)
    requires Readable(buf[..], start, line) && |line| < buf.Length
    modifies buf
    ensures OnlyDelimitersCut(buf[..], line)
    ensures Placed(buf[..], args, tokens, |line| + 1)
    ensures tooMany <==> |Tokens(line, start)| > SHELL_MAX_ARGUMENTS
    ensures tokens == if tooMany then Tokens(line, start)[..SHELL_MAX_ARGUMENTS] else Tokens(line, start)
    ensures forall k | 0 <= k < Limit(start, line) && k < buf.Length :: buf[k] == old(buf[k])
  {
    hide Token, TokenStop, TokenStart, Tokens, Next, OnlyDelimitersCut, Placed, Blank;
    args, tooMany, tokens := [], false, [];
    ghost var at := start;
    PlacedNone(buf[..], Limit(start, line));
    var lp, save := NextToken(buf, start, line, args, tokens);
    while lp.Some?
      invariant at.Some? ==> at.value <= |line| && save == Next(line, at.value)
      invariant Readable(buf[..], save, line)
      invariant lp == None <==> Blank(at, line)
      invariant |args| == |tokens| <= SHELL_MAX_ARGUMENTS && !tooMany
      invariant Placed(buf[..], args, tokens, Limit(save, line))
      invariant lp.Some? ==>
                  && at.Some?
                  && Placed(buf[..], args + [lp.value], tokens + [Token(line, at.value)], Limit(save, line))
      invariant Limit(start, line) <= Limit(save, line)
      invariant forall k | 0 <= k < Limit(start, line) && k < buf.Length :: buf[k] == old(buf[k])
      invariant tokens + Tokens(line, at) == Tokens(line, start)
      decreases if at.Some? then |line| + 1 - at.value else 0
    {
      if |args| >= SHELL_MAX_ARGUMENTS {
        tooMany := true;
        break;
      }
      NotBlank(line, at);
      TokensAdvance(tokens, line, at.value);
      args, tokens, at := args + [lp.value], tokens + [Token(line, at.value)], save;
      lp, save := NextToken(buf, save, line, args, tokens);
    }
    BlankOrMore(line, at);
    PlacedLater(buf[..], args, tokens, Limit(save, line), |line| + 1);
  }

  lemma PlacedNone(buf: seq<byte>, limit: nat)
    requires limit <= |buf|
    ensures Placed(buf, [], [], limit)
  {
  }

  lemma NotBlank(line: Line, at: Option<nat>)
    requires (at.Some? ==> at.value <= |line|) && !Blank(at, line)
    ensures at.Some? && Token(line, at.value) != []
  {
  }

  lemma {:induction false} BlankOrMore(line: Line, at: Option<nat>)
    requires at.Some? ==> at.value <= |line|
    ensures Blank(at, line) <==> Tokens(line, at) == []
  {
  }

  lemma {:induction false} TokensAdvance(tokens: seq<Line>, line: Line, at: nat)
    requires at <= |line| && Token(line, at) != []
    ensures (tokens + [Token(line, at)]) + Tokens(line, Next(line, at)) == tokens + Tokens(line, Some(at))
    ensures Next(line, at).Some? ==> at < Next(line, at).value <= |line|
  {
  }

  /**
   The argument loop of `shellThread` on a typed line. The addresses it leaves in `args`, read as
   C strings in the changed buffer, are the arguments of the pure tokenizer on the line as typed;
   they are at most four, ordered and disjoint, and only delimiters have been overwritten.
   */
  method SplitLine(buf: array<byte>, ghost line: Line) returns (cmd: Option<nat>, args: seq<nat>)
    requires Holds(buf[..], 0, line)
    modifies buf
    ensures OnlyDelimitersCut(buf[..], line)
    ensures |args| <= SHELL_MAX_ARGUMENTS
    ensures Placed(buf[..], args, Split(line).args, |line| + 1)
    ensures forall i | 0 <= i < |args| :: args[i] <= buf.Length && CString(buf[..], args[i]) == Split(line).args[i]
    ensures cmd == None <==> Split(line).name == None
    ensures cmd.Some? ==> cmd.value <= buf.Length && CString(buf[..], cmd.value) == Split(line).name.value
    ensures Holds(buf[..], 0, Kept(line))
  {
    StartSplit(buf[..], line);
    ghost var before := buf[..];
    var save;
    cmd, save := ParseArguments(buf, 0, line);
    CutOnlyDelimiter(before, 0, line);
    CutKeepsRest(before, 0, line);
    CutEndsToken(before, 0, line);
    CutKeepsFront(before, line);
    ghost var found := buf[..];
    var tooMany;
    ghost var tokens;
    args, tooMany, tokens := ReadArguments(buf, save, line);
    HoldsUnchanged(found, buf[..], 0, Kept(line));
    forall i | 0 <= i < |args| ensures args[i] <= buf.Length && CString(buf[..], args[i]) == tokens[i] {
      PlacedReadBack(buf[..], args, tokens, |line| + 1, i);
    }
    if tooMany {
      cmd := None;
    } else if cmd.Some? {
      HoldsUnchanged(found, buf[..], cmd.value, Token(line, 0));
      CStringIs(buf[..], cmd.value, Token(line, 0));
    }
  }

  lemma CutKeepsFront(buf: seq<byte>, line: Line)
    requires Unread(buf, 0, line)
    ensures Holds(Cut(buf, 0, line), 0, Kept(line))
  {
    TokenHeld(buf, Cut(buf, 0, line), 0, TokenStop(line, 0), line);
    assert line[0..TokenStop(line, 0)] == Kept(line);
  }

  lemma HoldsUnchanged(before: seq<byte>, buf: seq<byte>, from: nat, s: Line)
    requires Holds(before, from, s)
    requires |buf| == |before| && forall k | 0 <= k <= from + |s| :: buf[k] == before[k]
    ensures Holds(buf, from, s)
  {
  }

  lemma StartSplit(buf: seq<byte>, line: Line)
    requires Holds(buf, 0, line)
    ensures OnlyDelimitersCut(buf, line) && Unread(buf, 0, line)
  {
    assert forall i | 0 <= i < |line| :: buf[0 + i] == line[i];
  }
}
