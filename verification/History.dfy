/**
 The shell's command history: a circular byte buffer of length-prefixed lines,
 shown to refine a plain list of lines with a cursor.
 */
module History {
  import opened Types
  import opened Memory

  type Line = seq<byte>

  const SPACE: byte := 32

  // ---------------------------------------------------------------- lines

  /** A line without its trailing spaces. */
  function Trim(text: Line): (r: Line)
    ensures r <= text
    ensures r != [] ==> r[|r| - 1] != SPACE
    ensures forall i | |r| <= i < |text| :: text[i] == SPACE
  {
    if text != [] && text[|text| - 1] == SPACE then Trim(text[..|text| - 1]) else text
  }

  /** The bytes a list of lines takes in the buffer. */
  ghost function Encode(lines: seq<Line>): seq<int>
  {
    if lines == [] then [] else [|lines[0]|] + lines[0] + Encode(lines[1..])
  }

  lemma {:induction false} EncodeConcat(a: seq<Line>, b: seq<Line>)
    ensures Encode(a + b) == Encode(a) + Encode(b)
  {
    if a == [] {
      assert a + b == b;
    } else {
      assert (a + b)[1..] == a[1..] + b;
      EncodeConcat(a[1..], b);
    }
  }

  lemma EncodeOne(line: Line)
    ensures Encode([line]) == [|line|] + line
  {
    assert [line][1..] == [];
  }

  /** Where entry `i` starts, and what is stored there. */
  lemma EncodeEntry(lines: seq<Line>, i: nat)
    requires i < |lines|
    ensures |Encode(lines[..i + 1])| == |Encode(lines[..i])| + 1 + |lines[i]| <= |Encode(lines)|
    ensures Encode(lines)[|Encode(lines[..i])|] == |lines[i]|
    ensures forall j | 0 <= j < |lines[i]| :: Encode(lines)[|Encode(lines[..i])| + 1 + j] == lines[i][j]
  {
    assert lines == lines[..i] + lines[i..i + 1] + lines[i + 1..];
    assert lines[..i + 1] == lines[..i] + lines[i..i + 1];
    assert lines[i..i + 1] == [lines[i]];
    EncodeOne(lines[i]);
    EncodeConcat(lines[..i], lines[i..i + 1]);
    EncodeConcat(lines[..i] + lines[i..i + 1], lines[i + 1..]);
  }

  // ---------------------------------------------------------------- eviction

  /** Room for `length` more text bytes and a length byte, one byte always staying free. */
  ghost predicate Fits(lines: seq<Line>, length: nat, size: nat) {
    |Encode(lines)| + length + 1 < size
  }

  /** The oldest lines dropped one by one until the new line fits. */
  ghost function Evict(lines: seq<Line>, length: nat, size: nat): (r: seq<Line>)
  {
    if lines == [] || Fits(lines, length, size) then lines else Evict(lines[1..], length, size)
  }

  /** Eviction keeps the longest suffix that leaves room, and no shorter one. */
  lemma {:induction false} EvictKeepsLongestSuffix(lines: seq<Line>, length: nat, size: nat)
    requires length + 1 < size
    ensures var r := Evict(lines, length, size);
      && |r| <= |lines|
      && r == lines[|lines| - |r|..]
      && Fits(r, length, size)
      && forall j | 0 <= j < |lines| - |r| :: !Fits(lines[j..], length, size)
  {
    var r := Evict(lines, length, size);
    if lines == [] || Fits(lines, length, size) {
    } else {
      EvictKeepsLongestSuffix(lines[1..], length, size);
      assert r == lines[1..][|lines| - 1 - |r|..] == lines[|lines| - |r|..];
      forall j | 0 <= j < |lines| - |r|
        ensures !Fits(lines[j..], length, size)
      {
        if j == 0 {
          assert lines[0..] == lines;
        } else {
          assert lines[1..][j - 1..] == lines[j..];
        }
      }
    }
  }

  /** A line is kept unless it is too long for the buffer or blank. */
  predicate IsKept(text: Line, size: nat) {
    |text| <= size - 2 && Trim(text) != []
  }

  /** The history after saving `text`. */
  ghost function Saved(lines: seq<Line>, text: Line, size: nat): seq<Line>
  {
    if IsKept(text, size) then Evict(lines, |Trim(text)|, size) + [Trim(text)] else lines
  }

  /** The bytes of the lines, one more for each length. */
  function Total(lines: seq<Line>): nat {
    if lines == [] then 0 else |lines[0]| + 1 + Total(lines[1..])
  }

  lemma {:induction false} EncodeTotal(lines: seq<Line>)
    ensures |Encode(lines)| == Total(lines)
  {
    if lines != [] {
      EncodeTotal(lines[1..]);
    }
  }

  /** No line is forgotten exactly when all of them, with their lengths, leave one byte of the buffer. */
  lemma SavedKeepsAllIff(lines: seq<Line>, text: Line, size: nat)
    requires IsKept(text, size)
    ensures Saved(lines, text, size) == lines + [Trim(text)] <==> Total(lines) + |Trim(text)| + 2 <= size
  {
    EncodeTotal(lines);
    var n := |Trim(text)|;
    EvictKeepsLongestSuffix(lines, n, size);
    assert lines[0..] == lines;
    if Saved(lines, text, size) == lines + [Trim(text)] {
      assert |Evict(lines, n, size)| == |lines|;
    }
  }

  // ---------------------------------------------------------------- cursor

  datatype Direction = Back | Forward

  /** Outcome of a recall: nothing to show, or the text to show (empty at the newest end). */
  datatype Recalled = Nothing | Show(text: Line)

  /** `cur` counts how many lines back from the newest the last recalled line is. */
  function Move(count: nat, cur: nat, dir: Direction): (r: nat)
    requires cur <= count
    ensures r <= count
  {
    match dir
    case Back => if cur < count then cur + 1 else cur
    case Forward => if cur > 0 then cur - 1 else 0
  }

  function Selected(lines: seq<Line>, cur: nat): Line
    requires cur <= |lines|
  {
    if cur == 0 then [] else lines[|lines| - cur]
  }

  function Recall(lines: seq<Line>, cur: nat, dir: Direction): Recalled
    requires cur <= |lines|
  {
    if dir == Back && cur == |lines| then Nothing else Show(Selected(lines, Move(|lines|, cur, dir)))
  }

  function MoveTimes(count: nat, cur: nat, dir: Direction, k: nat): (r: nat)
    requires cur <= count
    ensures r <= count
    decreases k
  {
    if k == 0 then cur else MoveTimes(count, Move(count, cur, dir), dir, k - 1)
  }

  lemma {:induction false} MoveTimesDistance(count: nat, cur: nat, dir: Direction, k: nat)
    requires cur <= count
    ensures dir == Back ==> MoveTimes(count, cur, dir, k) == if cur + k <= count then cur + k else count
    ensures dir == Forward ==> MoveTimes(count, cur, dir, k) == if k <= cur then cur - k else 0
    decreases k
  {
    if k > 0 {
      MoveTimesDistance(count, Move(count, cur, dir), dir, k - 1);
    }
  }

  /**
   Going forward undoes going back, with the text that was selected before; and from the
   newest end any number of steps back followed by as many forward shows the empty line.
   */
  lemma ForwardUndoesBack(lines: seq<Line>, cur: nat, k: nat)
    requires cur + k <= |lines|
    ensures var far := MoveTimes(|lines|, cur, Back, k);
      && far == cur + k
      && MoveTimes(|lines|, far, Forward, k) == cur
      && (k > 0 ==> Recall(lines, MoveTimes(|lines|, far, Forward, k - 1), Forward) == Show(Selected(lines, cur)))
  {
    MoveTimesDistance(|lines|, cur, Back, k);
    MoveTimesDistance(|lines|, cur + k, Forward, k);
    if k > 0 {
      MoveTimesDistance(|lines|, cur + k, Forward, k - 1);
    }
  }

  lemma BackThenForwardShowsEmpty(lines: seq<Line>, k: nat)
    ensures var far := MoveTimes(|lines|, 0, Back, k);
      && MoveTimes(|lines|, far, Forward, k) == 0
      && (k > 0 ==> Recall(lines, MoveTimes(|lines|, far, Forward, k - 1), Forward) == Show([]))
  {
    MoveTimesDistance(|lines|, 0, Back, k);
    var far := MoveTimes(|lines|, 0, Back, k);
    MoveTimesDistance(|lines|, far, Forward, k);
    if k > 0 {
      MoveTimesDistance(|lines|, far, Forward, k - 1);
    }
  }

  // ---------------------------------------------------------------- representation

  /**
   Read circularly from `beg`, the buffer holds exactly the encoded lines; the byte at
   `end` is 0 and at least one byte is unused.
   */
  ghost predicate Represents(buf: seq<byte>, beg: nat, end: nat, lines: seq<Line>) {
    && beg < |buf| && end < |buf|
    && |Encode(lines)| < |buf|
    && end == Wrap(beg + |Encode(lines)|, |buf|)
    && (forall k | 0 <= k < |Encode(lines)| :: buf[Wrap(beg + k, |buf|)] == Encode(lines)[k])
    && buf[end] == 0
    && (forall i | 0 <= i < |lines| :: lines[i] != [])
  }

  /** Bytes in use, as `is_histbuff_space` computes them from the two indices. */
  lemma UsedBytes(buf: seq<byte>, beg: nat, end: nat, lines: seq<Line>)
    requires Represents(buf, beg, end, lines)
    ensures |Encode(lines)| == if end >= beg then end - beg else |buf| - (beg - end)
    ensures beg == end <==> lines == []
  {
    if lines != [] {
      assert |Encode(lines)| > 0;
    }
  }

  lemma EncodePrefixBound(lines: seq<Line>, i: nat)
    requires i <= |lines|
    ensures |Encode(lines[..i])| <= |Encode(lines)|
  {
    assert lines == lines[..i] + lines[i..];
    EncodeConcat(lines[..i], lines[i..]);
  }

  /** The start of entry `i` (of the end, for `i == |lines|`). */
  ghost function Start(buf: seq<byte>, beg: nat, end: nat, lines: seq<Line>, i: nat): (r: nat)
    requires Represents(buf, beg, end, lines)
    requires i <= |lines|
    ensures r < |buf|
  {
    EncodePrefixBound(lines, i);
    Wrap(beg + |Encode(lines[..i])|, |buf|)
  }

  lemma StartOfEntry(buf: seq<byte>, beg: nat, end: nat, lines: seq<Line>, i: nat)
    requires Represents(buf, beg, end, lines)
    requires i < |lines|
    ensures Start(buf, beg, end, lines, i) != end
    ensures buf[Start(buf, beg, end, lines, i)] == |lines[i]|
  {
    EncodeEntry(lines, i);
    assert buf[Wrap(beg + |Encode(lines[..i])|, |buf|)] == Encode(lines)[|Encode(lines[..i])|];
  }

  lemma StartOfNext(buf: seq<byte>, beg: nat, end: nat, lines: seq<Line>, i: nat)
    requires Represents(buf, beg, end, lines)
    requires i < |lines|
    ensures var at := Start(buf, beg, end, lines, i);
      && at + |lines[i]| + 1 < 2 * |buf|
      && Start(buf, beg, end, lines, i + 1) == Wrap(at + |lines[i]| + 1, |buf|)
  {
    EncodeEntry(lines, i);
  }

  lemma TextOfEntry(buf: seq<byte>, beg: nat, end: nat, lines: seq<Line>, i: nat, j: nat)
    requires Represents(buf, beg, end, lines)
    requires i < |lines| && j < |lines[i]|
    ensures var at := Start(buf, beg, end, lines, i);
      at + 1 + j < 2 * |buf| && buf[Wrap(at + 1 + j, |buf|)] == lines[i][j]
  {
    EncodeEntry(lines, i);
    var off := |Encode(lines[..i])|;
    assert Encode(lines)[off + 1 + j] == lines[i][j];
    assert buf[Wrap(beg + (off + 1 + j), |buf|)] == Encode(lines)[off + 1 + j];
  }

  /** Walking from entry to entry by the stored lengths meets every entry and stops at `end`. */
  lemma WalkStep(buf: seq<byte>, beg: nat, end: nat, lines: seq<Line>, i: nat)
    requires Represents(buf, beg, end, lines)
    requires i <= |lines|
    ensures var at := Start(buf, beg, end, lines, i);
      && (at == end <==> i == |lines|)
      && (i < |lines| ==>
            && buf[at] == |lines[i]|
            && at + buf[at] + 1 < 2 * |buf|
            && Start(buf, beg, end, lines, i + 1) == Wrap(at + buf[at] + 1, |buf|))
  {
    if i == |lines| {
      assert lines[..i] == lines;
    } else {
      StartOfEntry(buf, beg, end, lines, i);
      StartOfNext(buf, beg, end, lines, i);
    }
  }

  lemma StartFirst(buf: seq<byte>, beg: nat, end: nat, lines: seq<Line>)
    requires Represents(buf, beg, end, lines)
    ensures Start(buf, beg, end, lines, 0) == beg
  {
    assert lines[..0] == [];
  }

  /** The bytes between the two indices determine the lines. */
  lemma {:induction false} RepresentedLinesUnique(buf: seq<byte>, beg: nat, end: nat, a: seq<Line>, b: seq<Line>)
    requires Represents(buf, beg, end, a) && Represents(buf, beg, end, b)
    ensures a == b
    decreases |a|
  {
    UsedBytes(buf, beg, end, a);
    UsedBytes(buf, beg, end, b);
    if a != [] {
      StartFirst(buf, beg, end, a);
      StartFirst(buf, beg, end, b);
      WalkStep(buf, beg, end, a, 0);
      WalkStep(buf, beg, end, b, 0);
      assert |a[0]| == |b[0]|;
      forall j | 0 <= j < |a[0]| ensures a[0][j] == b[0][j] {
        TextOfEntry(buf, beg, end, a, 0, j);
        TextOfEntry(buf, beg, end, b, 0, j);
      }
      assert a[0] == b[0];
      var next := Wrap(beg + buf[beg] + 1, |buf|);
      DropOldest(buf, beg, end, a);
      DropOldest(buf, beg, end, b);
      RepresentedLinesUnique(buf, next, end, a[1..], b[1..]);
      assert a == [a[0]] + a[1..] && b == [b[0]] + b[1..];
    }
  }

  /** Moving `beg` past the first entry forgets the oldest line and nothing else. */
  lemma DropOldest(buf: seq<byte>, beg: nat, end: nat, lines: seq<Line>)
    requires Represents(buf, beg, end, lines)
    requires lines != []
    ensures beg + buf[beg] + 1 < 2 * |buf|
    ensures Represents(buf, Wrap(beg + buf[beg] + 1, |buf|), end, lines[1..])
  {
    StartFirst(buf, beg, end, lines);
    WalkStep(buf, beg, end, lines, 0);
    var rest := Encode(lines[1..]);
    var skip := |lines[0]| + 1;
    var next := Wrap(beg + skip, |buf|);
    assert |Encode(lines)| == skip + |rest|;
    forall k | 0 <= k < |rest|
      ensures buf[Wrap(next + k, |buf|)] == rest[k]
    {
      assert Encode(lines)[skip + k] == rest[k];
      assert Wrap(next + k, |buf|) == Wrap(beg + (skip + k), |buf|);
    }
  }

  /**
   Writing a length byte at `end`, the text after it and a 0 behind it, all else before
   unchanged, appends one line to what the buffer represents.
   */
  lemma AppendEntry(old_: seq<byte>, buf: seq<byte>, beg: nat, end: nat, lines: seq<Line>, text: Line)
    requires Represents(old_, beg, end, lines)
    requires |buf| == |old_| && Fits(lines, |text|, |buf|) && text != []
    requires buf[end] == |text|
    requires forall j | 0 <= j < |text| :: buf[Wrap(end + 1 + j, |buf|)] == text[j]
    requires buf[Wrap(end + |text| + 1, |buf|)] == 0
    requires forall p | 0 <= p < |buf| && Distance(end, p, |buf|) > |text| + 1 :: buf[p] == old_[p]
    ensures Represents(buf, beg, Wrap(end + |text| + 1, |buf|), lines + [text])
  {
    var used := |Encode(lines)|;
    var full := Encode(lines + [text]);
    EncodeConcat(lines, [text]);
    EncodeOne(text);
    assert full == Encode(lines) + [|text|] + text;
    forall k | 0 <= k < |full|
      ensures buf[Wrap(beg + k, |buf|)] == full[k]
    {
      var p := Wrap(beg + k, |buf|);
      if k < used {
        assert Distance(end, p, |buf|) == |buf| - used + k;
        assert old_[p] == Encode(lines)[k];
      } else if k == used {
        assert p == end;
      } else {
        var j := k - used - 1;
        assert p == Wrap(end + 1 + j, |buf|);
        assert full[k] == text[j];
      }
    }
  }

  // ---------------------------------------------------------------- the buffer

  class ShellHistory {
    const buffer: array<byte>
    var beg: nat
    var end: nat
    var cur: int

    ghost var lines: seq<Line>

    ghost predicate Stored()
      reads this, buffer
    {
      Represents(buffer[..], beg, end, lines)
    }

    ghost predicate Valid()
      reads this, buffer
    {
      Stored() && 0 <= cur <= |lines|
    }

    /** Set-up in `shellThread`: an empty history over the configured buffer. */
    constructor (histbuf: array<byte>)
      requires histbuf.Length > 0
      modifies histbuf
      ensures buffer == histbuf
      ensures Valid() && lines == [] && cur == 0
    {
      histbuf[0] := 0;
      buffer := histbuf;
      beg, end, cur := 0, 0, 0;
      lines := [];
    }

    /** `del_histbuff_entry` */
    method DelEntry()
      requires Stored() && lines != []
      modifies this`beg, this`lines
      ensures Stored() && lines == old(lines)[1..]
    {
      DropOldest(buffer[..], beg, end, lines);
      var pos := beg + buffer[beg] + 1;
      if pos >= buffer.Length {
        pos := pos - buffer.Length;
      }
      beg := pos;
      lines := lines[1..];
    }

    /** `is_histbuff_space`: both index orders test the same thing. */
    predicate HasSpace(length: nat)
      requires Stored()
      reads this, buffer
      ensures HasSpace(length) <==> Fits(lines, length, buffer.Length)
    {
      UsedBytes(buffer[..], beg, end, lines);
      if end >= beg then length < buffer.Length - (end - beg + 1)
      else length < beg - end - 1
    }

    /** The copy inside `save_history`, split in two when it meets the end of the buffer. */
    method StoreText(line: array<byte>, length: nat)
      requires line != buffer
      requires length <= line.Length
      requires end < buffer.Length && length + 1 < buffer.Length
      modifies buffer
      ensures forall j | 0 <= j < length :: buffer[Wrap(end + 1 + j, buffer.Length)] == line[j]
      ensures forall p | 0 <= p < buffer.Length && !(1 <= Distance(end, p, buffer.Length) <= length) ::
                buffer[p] == old(buffer[p])
    {
      if length < buffer.Length - end - 1 {
        CopyBytes(buffer, end + 1, line, 0, length);
      } else {
        var part := buffer.Length - end - 1;
        CopyBytes(buffer, end + 1, line, 0, part);
        CopyBytes(buffer, 0, line, part, length - part);
      }
    }

    /**
     `save_history`. The stored lines become the longest suffix of the old ones that leaves
     room, followed by the trimmed line; a blank or over-long line changes nothing. The length
     is kept in one byte, so a trimmed line beyond 255 bytes is not stored as itself.
     */
    method Save(line: array<byte>, length: nat)
      requires Valid()
      requires line != buffer && length <= line.Length
      modifies this, buffer
      ensures |Trim(line[..length])| <= 255 ==> Valid() && lines == Saved(old(lines), line[..length], buffer.Length)
      ensures cur == if IsKept(line[..length], buffer.Length) then 0 else old(cur)
      ensures !IsKept(line[..length], buffer.Length) ==>
                beg == old(beg) && end == old(end) && buffer[..] == old(buffer[..])
      ensures IsKept(line[..length], buffer.Length) && |Trim(line[..length])| > 255 ==>
                !Represents(buffer[..], beg, end, Saved(old(lines), line[..length], buffer.Length))
    {
      if length > buffer.Length - 2 {
        return;
      }
      var n := TrimmedLength(line, length);
      if n == 0 {
        return;
      }
      ghost var text := Trim(line[..length]);
      assert text == line[..n];
      MakeRoom(n);
      Append(line, n);
      if n > 255 {
        NotItsOwnLength(buffer[..], beg, end, Evict(old(lines), n, buffer.Length), text);
      }
    }

    /** The end of `save_history`: text, length byte, new end mark and cursor reset. */
    method Append(line: array<byte>, n: nat)
      requires Stored()
      requires line != buffer && 0 < n <= line.Length
      requires Fits(lines, n, buffer.Length)
      modifies this, buffer
      ensures beg == old(beg) && cur == 0
      ensures lines == old(lines) + [line[..n]]
      ensures n <= 255 ==> Stored()
    {
      ghost var before := buffer[..];
      StoreText(line, n);
      buffer[end] := n % 256;
      ghost var start := end;
      end := end + n + 1;
      if end >= buffer.Length {
        end := end - buffer.Length;
      }
      buffer[end] := 0;
      cur := 0;
      if n <= 255 {
        AppendEntry(before, buffer[..], beg, start, lines, line[..n]);
      }
      lines := lines + [line[..n]];
    }

    /** The loop over trailing spaces in `save_history`. */
    method TrimmedLength(line: array<byte>, length: nat) returns (n: nat)
      requires length <= line.Length
      ensures n <= length && line[..n] == Trim(line[..length])
    {
      n := length;
      while n > 0 && line[n - 1] == SPACE
        invariant n <= length
        invariant Trim(line[..n]) == Trim(line[..length])
      {
        assert line[..n][..n - 1] == line[..n - 1];
        n := n - 1;
      }
    }

    /** The eviction loop of `save_history`. */
    method MakeRoom(n: nat)
      requires Stored()
      requires n + 1 < buffer.Length
      modifies this`beg, this`lines
      ensures Stored() && lines == Evict(old(lines), n, buffer.Length)
      ensures Fits(lines, n, buffer.Length)
    {
      while !HasSpace(n)
        invariant Stored()
        invariant Evict(lines, n, buffer.Length) == Evict(old(lines), n, buffer.Length)
        decreases |Encode(lines)|
      {
        DelEntry();
      }
    }

    /**
     `get_history`. It returns the length of the recalled text, 0 at the newest end and -1
     when there is nothing further back; the cursor follows `Move`.
     */
    method Get(line: array<byte>, dir: Direction) returns (length: int)
      requires Valid()
      requires line != buffer
      requires forall i | 0 <= i < |lines| :: |lines[i]| <= line.Length
      modifies this`cur, line
      ensures Valid()
      ensures cur == Move(|lines|, old(cur), dir)
      ensures Recall(lines, old(cur), dir) == Nothing ==> length == -1 && line[..] == old(line[..])
      ensures Recall(lines, old(cur), dir) == Show([]) ==> length == 0 && line[..] == old(line[..])
      ensures Recall(lines, old(cur), dir).Show? && Recall(lines, old(cur), dir).text != [] ==>
                var text := Recall(lines, old(cur), dir).text;
                length == |text| && line[..] == text + seq(line.Length - |text|, _ => NUL)
    {
      var count := CountEntries();
      if dir == Forward {
        if cur > 0 {
          cur := cur - 2;
        } else {
          return 0;
        }
      }
      ghost var at := |lines| - cur - 1;
      if count >= cur {
        var idx := SeekEntry(count);
        length := buffer[idx];
        if length > 0 {
          cur := cur + 1;
          ReadEntry(line, idx, at);
          return length;
        } else if dir == Forward {
          cur := cur + 1;
          return 0;
        }
      }
      return -1;
    }

    /** The counting loop of `get_history`: it ends, at the number of stored lines. */
    method CountEntries() returns (count: nat)
      requires Stored()
      ensures count == |lines|
    {
      count := 0;
      var idx := beg;
      StartFirst(buffer[..], beg, end, lines);
      while idx != end
        invariant count <= |lines|
        invariant idx == Start(buffer[..], beg, end, lines, count)
        decreases |lines| - count
      {
        WalkStep(buffer[..], beg, end, lines, count);
        idx := idx + buffer[idx] + 1;
        if idx >= buffer.Length {
          idx := idx - buffer.Length;
        }
        count := count + 1;
      }
      WalkStep(buffer[..], beg, end, lines, count);
    }

    /** The second loop of `get_history`: the entry `cur` places from the newest, or the end. */
    method SeekEntry(count: nat) returns (idx: nat)
      requires Stored()
      requires count == |lines| && -1 <= cur <= count
      ensures idx < buffer.Length
      ensures idx == Start(buffer[..], beg, end, lines, if 0 <= cur < count then count - 1 - cur else count)
      ensures buffer[idx] == if 0 <= cur < count then |lines[count - 1 - cur]| else 0
    {
      idx := beg;
      var i := 0;
      StartFirst(buffer[..], beg, end, lines);
      while idx != end && cur != count - i - 1
        invariant 0 <= i <= |lines|
        invariant 0 <= cur < count ==> i <= count - 1 - cur
        invariant idx == Start(buffer[..], beg, end, lines, i)
        decreases |lines| - i
      {
        WalkStep(buffer[..], beg, end, lines, i);
        idx := idx + buffer[idx] + 1;
        if idx >= buffer.Length {
          idx := idx - buffer.Length;
        }
        i := i + 1;
      }
      WalkStep(buffer[..], beg, end, lines, i);
    }

    /** The copy out of `get_history`, in two parts when the entry was split. */
    method ReadEntry(line: array<byte>, idx: nat, ghost i: nat)
      requires Stored()
      requires line != buffer
      requires i < |lines| && |lines[i]| <= line.Length
      requires idx < buffer.Length && idx == Start(buffer[..], beg, end, lines, i)
      modifies line
      ensures line[..] == lines[i] + seq(line.Length - |lines[i]|, _ => NUL)
    {
      WalkStep(buffer[..], beg, end, lines, i);
      forall j | 0 <= j < |lines[i]|
        ensures idx + 1 + j < 2 * buffer.Length && buffer[Wrap(idx + 1 + j, buffer.Length)] == lines[i][j]
      {
        TextOfEntry(buffer[..], beg, end, lines, i, j);
      }
      var length := buffer[idx];
      ClearBytes(line);
      if idx + length < buffer.Length {
        CopyBytes(line, 0, buffer, idx + 1, length);
      } else {
        var part := buffer.Length - idx - 1;
        CopyBytes(line, 0, buffer, idx + 1, part);
        CopyBytes(line, part, buffer, 0, length - part);
      }
      assert line[..|lines[i]|] == lines[i];
      assert line[|lines[i]|..] == seq(line.Length - |lines[i]|, _ => NUL);
      assert line[..] == line[..|lines[i]|] + line[|lines[i]|..];
    }
  }

  /** A length byte cannot stand for a line of more than 255 bytes. */
  lemma NotItsOwnLength(buf: seq<byte>, beg: nat, end: nat, lines: seq<Line>, text: Line)
    requires |text| > 255
    ensures !Represents(buf, beg, end, lines + [text])
  {
    if Represents(buf, beg, end, lines + [text]) {
      StartOfEntry(buf, beg, end, lines + [text], |lines|);
      assert false;
    }
  }
}
