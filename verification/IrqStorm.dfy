/**
 The IRQ storm chain: worker threads pass messages along a row of bounded mailboxes, to the
 left or to the right, while two timer interrupts inject messages at the ends.
 */
module IrqStorm {
  import opened Types

  datatype Direction = Left | Right

  /** A message; the number tells apart the accepted injections of one direction. */
  datatype Message = Message(dir: Direction, id: nat)

  /**
   `boxes[i]` and `held[i]` belong to worker i; `raising` are the workers whose post has failed and
   who have yet to raise the flag. `accepted` counts injections, `exited` and `dropped` record where
   messages went.
   */
  datatype State = State(
    capacity: nat,
    boxes: seq<seq<Message>>,
    held: seq<Option<Message>>,
    saturated: bool,
    raising: set<nat>,
    accepted: map<Direction, nat>,
    exited: map<Direction, seq<Message>>,
    dropped: map<Direction, seq<Message>>
  )

  const UNSIGNED: nat := 0x1_0000_0000

  ghost predicate Typed(s: State) {
    && 0 < |s.boxes| == |s.held| < UNSIGNED
    && (forall d: Direction :: d in s.accepted && d in s.exited && d in s.dropped)
  }

  ghost predicate Init(s: State) {
    && Typed(s)
    && (forall i | 0 <= i < |s.boxes| :: s.boxes[i] == [] && s.held[i] == None)
    && (forall d: Direction :: s.accepted[d] == 0 && s.exited[d] == [] && s.dropped[d] == [])
    && !s.saturated && s.raising == {}
  }

  // ---------------------------------------------------------------- steps

  datatype Step = Inject(dir: Direction) | Fetch(i: nat) | Resend(i: nat) | Raise(i: nat) | Reset

  /** The worker steps, which go on when the timers have stopped. */
  predicate IsWorker(a: Step) {
    a.Fetch? || a.Resend? || a.Raise?
  }

  ghost predicate Enabled(s: State, a: Step)
    requires Typed(s)
  {
    match a
    case Inject(_) => true
    case Fetch(i) => i < |s.boxes| && i !in s.raising && s.held[i] == None && s.boxes[i] != []
    case Resend(i) => i < |s.boxes| && i !in s.raising && s.held[i].Some?
    case Raise(i) => i in s.raising
    case Reset => true
  }

  /** Where worker `me` sends a message, in unsigned arithmetic: off the left end it wraps. */
  function Target(me: nat, dir: Direction): nat {
    if dir == Left then (me + UNSIGNED - 1) % UNSIGNED else (me + 1) % UNSIGNED
  }

  /** The mailbox an interrupt posts to. */
  function Entry(s: State, dir: Direction): nat
    requires Typed(s)
  {
    if dir == Right then 0 else |s.boxes| - 1
  }

  function Next(s: State, a: Step): State
    requires Typed(s) && Enabled(s, a)
  {
    match a
    case Inject(d) =>
      var e, m := Entry(s, d), Message(d, s.accepted[d]);
      if |s.boxes[e]| < s.capacity then
        s.(boxes := s.boxes[e := s.boxes[e] + [m]], accepted := s.accepted[d := s.accepted[d] + 1])
      else s.(saturated := true)
    case Fetch(i) =>
      s.(boxes := s.boxes[i := s.boxes[i][1..]], held := s.held[i := Some(s.boxes[i][0])])
    case Resend(i) =>
      var m := s.held[i].value;
      var idle := s.(held := s.held[i := None]);
      var to := Target(i, m.dir);
      if to < |s.boxes| then
        if |s.boxes[to]| < s.capacity then idle.(boxes := s.boxes[to := s.boxes[to] + [m]])
        else idle.(raising := s.raising + {i}, dropped := s.dropped[m.dir := s.dropped[m.dir] + [m]])
      else idle.(exited := s.exited[m.dir := s.exited[m.dir] + [m]])
    case Raise(i) => s.(saturated := true, raising := s.raising - {i})
    case Reset => s.(saturated := false)
  }

  lemma NextTyped(s: State, a: Step)
    requires Typed(s) && Enabled(s, a)
    ensures Typed(Next(s, a)) && |Next(s, a).boxes| == |s.boxes|
  {
  }

  ghost predicate Possible(s: State, run: seq<Step>)
    requires Typed(s)
    decreases |run|
  {
    run == [] || (Enabled(s, run[0]) && (NextTyped(s, run[0]); Possible(Next(s, run[0]), run[1..])))
  }

  function After(s: State, run: seq<Step>): (r: State)
    requires Typed(s) && Possible(s, run)
    ensures Typed(r)
    decreases |run|
  {
    if run == [] then s
    else
      NextTyped(s, run[0]);
      After(Next(s, run[0]), run[1..])
  }

  // ---------------------------------------------------------------- lanes

  /** Hops left to the exit; also the worker that many hops from the exit. */
  function Seat(n: nat, dir: Direction, i: nat): (r: nat)
    requires i < n
    ensures r < n
  {
    if dir == Left then i else n - 1 - i
  }

  function Filter(box: seq<Message>, dir: Direction): seq<Message> {
    if box == [] then []
    else (if box[0].dir == dir then [box[0]] else []) + Filter(box[1..], dir)
  }

  lemma {:induction false} FilterConcat(a: seq<Message>, b: seq<Message>, dir: Direction)
    ensures Filter(a + b, dir) == Filter(a, dir) + Filter(b, dir)
  {
    if a == [] {
      assert a + b == b;
    } else {
      assert (a + b)[1..] == a[1..] + b;
      FilterConcat(a[1..], b, dir);
      var head := if a[0].dir == dir then [a[0]] else [];
      assert head + (Filter(a[1..], dir) + Filter(b, dir)) == (head + Filter(a[1..], dir)) + Filter(b, dir);
    }
  }

  lemma FilterOne(m: Message, dir: Direction)
    ensures Filter([m], dir) == if m.dir == dir then [m] else []
  {
    assert [m][1..] == [];
  }

  /** The messages of one direction at worker i, the one nearest its exit first. */
  function Cell(s: State, dir: Direction, i: nat): seq<Message>
    requires i < |s.boxes| == |s.held|
  {
    (if s.held[i].Some? && s.held[i].value.dir == dir then [s.held[i].value] else []) + Filter(s.boxes[i], dir)
  }

  /** All cells of one direction, ordered from the exit to the entry. */
  ghost function Cells(s: State, dir: Direction): (r: seq<seq<Message>>)
    requires Typed(s)
    ensures |r| == |s.boxes|
  {
    seq(|s.boxes|, j requires 0 <= j < |s.boxes| => Cell(s, dir, Seat(|s.boxes|, dir, j)))
  }

  function Flatten(cells: seq<seq<Message>>): seq<Message> {
    if cells == [] then [] else cells[0] + Flatten(cells[1..])
  }

  lemma {:induction false} FlattenConcat(a: seq<seq<Message>>, b: seq<seq<Message>>)
    ensures Flatten(a + b) == Flatten(a) + Flatten(b)
  {
    if a == [] {
      assert a + b == b;
    } else {
      assert (a + b)[1..] == a[1..] + b;
      FlattenConcat(a[1..], b);
    }
  }

  lemma FlattenAt(cells: seq<seq<Message>>, j: nat)
    requires j < |cells|
    ensures Flatten(cells) == Flatten(cells[..j]) + cells[j] + Flatten(cells[j + 1..])
  {
    assert cells == cells[..j] + cells[j..];
    FlattenConcat(cells[..j], cells[j..]);
    assert cells[j..][1..] == cells[j + 1..];
  }

  /** The messages of one direction that are out or under way, in the order of their exits. */
  ghost function Line(s: State, dir: Direction): seq<Message>
    requires Typed(s)
  {
    s.exited[dir] + Flatten(Cells(s, dir))
  }

  // ---------------------------------------------------------------- what a step does to a lane

  lemma CellsChangeAt(s: State, t: State, dir: Direction, i: nat)
    requires Typed(s) && Typed(t) && |s.boxes| == |t.boxes| && i < |s.boxes|
    requires forall k | 0 <= k < |s.boxes| && k != i :: t.boxes[k] == s.boxes[k] && t.held[k] == s.held[k]
    ensures Cells(t, dir) == Cells(s, dir)[Seat(|s.boxes|, dir, i) := Cell(t, dir, i)]
  {
    var n := |s.boxes|;
    forall j | 0 <= j < n && j != Seat(n, dir, i) ensures Cells(t, dir)[j] == Cells(s, dir)[j] {
      assert Seat(n, dir, j) != i;
    }
    assert Seat(n, dir, Seat(n, dir, i)) == i;
  }

  lemma CellsSameParts(s: State, t: State, dir: Direction)
    requires Typed(s) && Typed(t) && t.boxes == s.boxes && t.held == s.held
    ensures Cells(t, dir) == Cells(s, dir)
  {
  }

  lemma CellOf(s: State, dir: Direction, i: nat)
    requires Typed(s) && i < |s.boxes|
    ensures Cells(s, dir)[Seat(|s.boxes|, dir, i)] == Cell(s, dir, i)
  {
    assert Seat(|s.boxes|, dir, Seat(|s.boxes|, dir, i)) == i;
  }

  /** Appending to a mailbox appends to its cell, in the message's direction only. */
  lemma CellAfterPost(s: State, t: State, dir: Direction, i: nat, m: Message)
    requires Typed(s) && Typed(t) && i < |s.boxes| == |t.boxes|
    requires t.held[i] == s.held[i] && t.boxes[i] == s.boxes[i] + [m]
    ensures Cell(t, dir, i) == Cell(s, dir, i) + if m.dir == dir then [m] else []
  {
    FilterConcat(s.boxes[i], [m], dir);
    FilterOne(m, dir);
  }

  lemma CellAfterFetch(s: State, t: State, dir: Direction, i: nat)
    requires Typed(s) && Typed(t) && i < |s.boxes| == |t.boxes|
    requires s.held[i] == None && s.boxes[i] != []
    requires t.held[i] == Some(s.boxes[i][0]) && t.boxes[i] == s.boxes[i][1..]
    ensures Cell(t, dir, i) == Cell(s, dir, i)
  {
  }

  lemma CellAfterSend(s: State, t: State, dir: Direction, i: nat)
    requires Typed(s) && Typed(t) && i < |s.boxes| == |t.boxes|
    requires s.held[i].Some? && t.held[i] == None && t.boxes[i] == s.boxes[i]
    ensures Cell(s, dir, i) == (if s.held[i].value.dir == dir then [s.held[i].value] else []) + Cell(t, dir, i)
  {
  }

  /** A message that moves one seat nearer its exit keeps its place in the order. */
  lemma FlattenShift(cells: seq<seq<Message>>, j: nat, m: Message, rest: seq<Message>)
    requires j + 1 < |cells| && cells[j + 1] == [m] + rest
    ensures Flatten(cells[j + 1 := rest][j := cells[j] + [m]]) == Flatten(cells)
  {
    var moved := cells[j + 1 := rest][j := cells[j] + [m]];
    FlattenAt(cells, j);
    FlattenAt(cells[j + 1..], 0);
    FlattenAt(moved, j);
    FlattenAt(moved[j + 1..], 0);
    assert moved[..j] == cells[..j];
    assert moved[j + 1..][1..] == cells[j + 1..][1..];
    assert moved[j + 1..][0] == rest && cells[j + 1..][0] == cells[j + 1];
  }

  lemma FlattenRemove(cells: seq<seq<Message>>, j: nat, m: Message, rest: seq<Message>)
    requires j < |cells| && cells[j] == [m] + rest
    ensures var k := |Flatten(cells[..j])|;
      k < |Flatten(cells)| && Flatten(cells)[k] == m
      && Flatten(cells[j := rest]) == Flatten(cells)[..k] + Flatten(cells)[k + 1..]
  {
    var left := cells[j := rest];
    FlattenAt(cells, j);
    FlattenAt(left, j);
    assert left[..j] == cells[..j] && left[j + 1..] == cells[j + 1..];
  }

  lemma FlattenAppend(cells: seq<seq<Message>>, m: Message)
    requires cells != []
    ensures var j := |cells| - 1; Flatten(cells[j := cells[j] + [m]]) == Flatten(cells) + [m]
  {
    var j := |cells| - 1;
    var more := cells[j := cells[j] + [m]];
    FlattenAt(cells, j);
    FlattenAt(more, j);
    assert more[..j] == cells[..j] && more[j + 1..] == [] && cells[j + 1..] == [];
  }

  /** The three things that can happen to the line of one direction. */
  ghost predicate Unchanged(s: State, t: State, dir: Direction)
    requires Typed(s) && Typed(t)
  {
    Line(t, dir) == Line(s, dir) && t.dropped[dir] == s.dropped[dir] && t.accepted[dir] == s.accepted[dir]
  }

  ghost predicate Entered(s: State, t: State, dir: Direction)
    requires Typed(s) && Typed(t)
  {
    && Line(t, dir) == Line(s, dir) + [Message(dir, s.accepted[dir])]
    && t.dropped[dir] == s.dropped[dir] && t.accepted[dir] == s.accepted[dir] + 1
  }

  ghost predicate Lost(s: State, t: State, dir: Direction, k: nat)
    requires Typed(s) && Typed(t)
  {
    && k < |Line(s, dir)|
    && Line(t, dir) == Line(s, dir)[..k] + Line(s, dir)[k + 1..]
    && t.dropped[dir] == s.dropped[dir] + [Line(s, dir)[k]] && t.accepted[dir] == s.accepted[dir]
  }

  lemma SameCells(s: State, t: State, dir: Direction, i: nat)
    requires Typed(s) && Typed(t) && |s.boxes| == |t.boxes| && i < |s.boxes|
    requires forall k | 0 <= k < |s.boxes| && k != i :: t.boxes[k] == s.boxes[k] && t.held[k] == s.held[k]
    requires Cell(t, dir, i) == Cell(s, dir, i)
    ensures Cells(t, dir) == Cells(s, dir)
  {
    CellsChangeAt(s, t, dir, i);
    CellOf(s, dir, i);
  }

  lemma InjectOnLine(s: State, dir: Direction)
    requires Typed(s) && |s.boxes[Entry(s, dir)]| < s.capacity
    ensures Typed(Next(s, Inject(dir))) && Entered(s, Next(s, Inject(dir)), dir)
  {
    NextTyped(s, Inject(dir));
    hide Filter, Flatten, Cell;
    var t, e, m := Next(s, Inject(dir)), Entry(s, dir), Message(dir, s.accepted[dir]);
    CellAfterPost(s, t, dir, e, m);
    CellsChangeAt(s, t, dir, e);
    CellOf(s, dir, e);
    FlattenAppend(Cells(s, dir), m);
    assert s.exited[dir] + (Flatten(Cells(s, dir)) + [m]) == s.exited[dir] + Flatten(Cells(s, dir)) + [m];
  }

  lemma OtherInjectUnchanged(s: State, d: Direction, dir: Direction)
    requires Typed(s)
    requires d != dir || |s.boxes[Entry(s, d)]| >= s.capacity
    ensures Typed(Next(s, Inject(d))) && Unchanged(s, Next(s, Inject(d)), dir)
  {
    NextTyped(s, Inject(d));
    hide Filter, Flatten;
    var t, e := Next(s, Inject(d)), Entry(s, d);
    if |s.boxes[e]| < s.capacity {
      CellAfterPost(s, t, dir, e, Message(d, s.accepted[d]));
      SameCells(s, t, dir, e);
    } else {
      CellsSameParts(s, t, dir);
    }
  }

  lemma FetchOnLine(s: State, i: nat, dir: Direction)
    requires Typed(s) && Enabled(s, Fetch(i))
    ensures Typed(Next(s, Fetch(i))) && Unchanged(s, Next(s, Fetch(i)), dir)
  {
    NextTyped(s, Fetch(i));
    var t := Next(s, Fetch(i));
    CellAfterFetch(s, t, dir, i);
    SameCells(s, t, dir, i);
  }

  /** The unsigned target test: the next seat, or outside the row exactly at the exit. */
  lemma TargetIsNextSeat(n: nat, dir: Direction, i: nat)
    requires i < n < UNSIGNED
    ensures Seat(n, dir, i) == 0 <==> Target(i, dir) >= n
    ensures Seat(n, dir, i) > 0 ==> Target(i, dir) < n && Seat(n, dir, Target(i, dir)) == Seat(n, dir, i) - 1
  {
  }

  /** Worker i without its message. */
  function Idle(s: State, i: nat): State
    requires i < |s.held|
  {
    s.(held := s.held[i := None])
  }

  lemma IdleCells(s: State, i: nat, dir: Direction)
    requires Typed(s) && Enabled(s, Resend(i))
    ensures var m, j := s.held[i].value, Seat(|s.boxes|, dir, i);
      var cells := Cells(s, dir);
      && Typed(Idle(s, i))
      && (m.dir == dir ==> cells[j] == [m] + Cells(Idle(s, i), dir)[j])
      && Cells(Idle(s, i), dir) == if m.dir == dir then cells[j := cells[j][1..]] else cells
  {
    var t := Idle(s, i);
    CellAfterSend(s, t, dir, i);
    CellsChangeAt(s, t, dir, i);
    CellOf(s, dir, i);
    CellOf(t, dir, i);
  }

  lemma OtherLineUnchanged(s: State, i: nat, dir: Direction)
    requires Typed(s) && Enabled(s, Resend(i)) && s.held[i].value.dir != dir
    ensures Typed(Next(s, Resend(i))) && Unchanged(s, Next(s, Resend(i)), dir)
  {
    hide Filter, Flatten, Cell;
    NextTyped(s, Resend(i));
    var t, m, idle := Next(s, Resend(i)), s.held[i].value, Idle(s, i);
    IdleCells(s, i, dir);
    var to := Target(i, m.dir);
    if t.boxes == idle.boxes {
      CellsSameParts(idle, t, dir);
    } else {
      CellAfterPost(idle, t, dir, to, m);
      SameCells(idle, t, dir, to);
    }
  }

  lemma ForwardOnLine(s: State, i: nat)
    requires Typed(s) && Enabled(s, Resend(i))
    requires var to := Target(i, s.held[i].value.dir); to < |s.boxes| && |s.boxes[to]| < s.capacity
    ensures Typed(Next(s, Resend(i))) && Unchanged(s, Next(s, Resend(i)), s.held[i].value.dir)
  {
    hide Filter, Flatten, Cell;
    NextTyped(s, Resend(i));
    var t, m := Next(s, Resend(i)), s.held[i].value;
    var dir, n, idle := m.dir, |s.boxes|, Idle(s, i);
    var to := Target(i, dir);
    IdleCells(s, i, dir);
    TargetIsNextSeat(n, dir, i);
    CellAfterPost(idle, t, dir, to, m);
    CellsChangeAt(idle, t, dir, to);
    CellOf(idle, dir, to);
    var cells, j := Cells(s, dir), Seat(n, dir, to);
    assert cells[j + 1] == [m] + cells[j + 1][1..];
    FlattenShift(cells, j, m, cells[j + 1][1..]);
  }

  lemma ExitOnLine(s: State, i: nat)
    requires Typed(s) && Enabled(s, Resend(i))
    requires Target(i, s.held[i].value.dir) >= |s.boxes|
    ensures Typed(Next(s, Resend(i))) && Unchanged(s, Next(s, Resend(i)), s.held[i].value.dir)
  {
    hide Filter, Cell;
    NextTyped(s, Resend(i));
    var t, m := Next(s, Resend(i)), s.held[i].value;
    var dir := m.dir;
    IdleCells(s, i, dir);
    TargetIsNextSeat(|s.boxes|, dir, i);
    var cells := Cells(s, dir);
    CellsSameParts(Idle(s, i), t, dir);
    assert Cells(t, dir) == cells[0 := cells[0][1..]];
    assert cells[0 := cells[0][1..]][1..] == cells[1..];
    assert Flatten(cells) == [m] + Flatten(Cells(t, dir));
    assert (s.exited[dir] + [m]) + Flatten(Cells(t, dir)) == s.exited[dir] + ([m] + Flatten(Cells(t, dir)));
  }

  lemma DropOnLine(s: State, i: nat) returns (k: nat)
    requires Typed(s) && Enabled(s, Resend(i))
    requires var to := Target(i, s.held[i].value.dir); to < |s.boxes| && |s.boxes[to]| >= s.capacity
    ensures Typed(Next(s, Resend(i))) && Lost(s, Next(s, Resend(i)), s.held[i].value.dir, k)
  {
    hide Filter, Flatten, Cell;
    NextTyped(s, Resend(i));
    var t, m := Next(s, Resend(i)), s.held[i].value;
    var dir := m.dir;
    IdleCells(s, i, dir);
    var cells, j := Cells(s, dir), Seat(|s.boxes|, dir, i);
    CellsSameParts(Idle(s, i), t, dir);
    FlattenRemove(cells, j, m, cells[j][1..]);
    var inside := |Flatten(cells[..j])|;
    k := |s.exited[dir]| + inside;
    RemoveBehind(s.exited[dir], Flatten(cells), inside);
  }

  lemma RemoveBehind(front: seq<Message>, back: seq<Message>, k: nat)
    requires k < |back|
    ensures var all, at := front + back, |front| + k;
      && all[at] == back[k]
      && front + (back[..k] + back[k + 1..]) == all[..at] + all[at + 1..]
  {
    var all, at := front + back, |front| + k;
    assert all[..at] == front + back[..k];
    assert all[at + 1..] == back[k + 1..];
  }

  lemma FlagOnLine(s: State, a: Step, dir: Direction)
    requires Typed(s) && Enabled(s, a) && (a.Raise? || a.Reset?)
    ensures Typed(Next(s, a)) && Unchanged(s, Next(s, a), dir)
  {
    CellsSameParts(s, Next(s, a), dir);
  }

  /** One step adds the next injection at the end of a line, loses one message, or changes nothing. */
  lemma StepOnLine(s: State, a: Step, dir: Direction)
    requires Typed(s) && Enabled(s, a)
    ensures Typed(Next(s, a))
    ensures var t := Next(s, a); Unchanged(s, t, dir) || Entered(s, t, dir) || exists k: nat :: Lost(s, t, dir, k)
  {
    hide Filter, Flatten, Cell, Line;
    match a
    case Inject(d) =>
      if d == dir && |s.boxes[Entry(s, d)]| < s.capacity {
        InjectOnLine(s, d);
      } else {
        OtherInjectUnchanged(s, d, dir);
      }
    case Fetch(i) => FetchOnLine(s, i, dir);
    case Resend(i) =>
      var m := s.held[i].value;
      var to := Target(i, m.dir);
      if m.dir != dir {
        OtherLineUnchanged(s, i, dir);
      } else if to >= |s.boxes| {
        ExitOnLine(s, i);
      } else if |s.boxes[to]| < s.capacity {
        ForwardOnLine(s, i);
      } else {
        var k := DropOnLine(s, i);
      }
    case Raise(_) => FlagOnLine(s, a, dir);
    case Reset => FlagOnLine(s, a, dir);
  }

  // ---------------------------------------------------------------- conservation and order

  /** The injections of one direction accepted so far. */
  ghost function Issued(dir: Direction, n: nat): seq<Message> {
    seq(n, k requires 0 <= k < n => Message(dir, k))
  }

  /** Nothing is lost or made up: out, under way and dropped are together what was accepted. */
  ghost predicate Conserved(s: State, dir: Direction)
    requires Typed(s)
  {
    multiset(Line(s, dir)) + multiset(s.dropped[dir]) == multiset(Issued(dir, s.accepted[dir]))
  }

  /** No message overtakes another: exits, and messages under way, are in order of injection. */
  ghost predicate InOrder(line: seq<Message>, dir: Direction, n: nat) {
    && (forall i | 0 <= i < |line| :: line[i].dir == dir && line[i].id < n)
    && (forall i, j | 0 <= i < j < |line| :: line[i].id < line[j].id)
  }

  ghost predicate Inv(s: State) {
    && Typed(s)
    && (forall dir: Direction :: Conserved(s, dir) && InOrder(Line(s, dir), dir, s.accepted[dir]))
  }

  lemma EnteredKeeps(line: seq<Message>, dropped: seq<Message>, dir: Direction, n: nat)
    requires multiset(line) + multiset(dropped) == multiset(Issued(dir, n)) && InOrder(line, dir, n)
    ensures multiset(line + [Message(dir, n)]) + multiset(dropped) == multiset(Issued(dir, n + 1))
    ensures InOrder(line + [Message(dir, n)], dir, n + 1)
  {
    assert Issued(dir, n + 1) == Issued(dir, n) + [Message(dir, n)];
  }

  lemma LostConserved(line: seq<Message>, dropped: seq<Message>, k: nat)
    requires k < |line|
    ensures multiset(line[..k] + line[k + 1..]) + multiset(dropped + [line[k]]) == multiset(line) + multiset(dropped)
  {
    assert line == line[..k] + ([line[k]] + line[k + 1..]);
  }

  lemma LostInOrder(line: seq<Message>, dir: Direction, n: nat, k: nat)
    requires InOrder(line, dir, n) && k < |line|
    ensures InOrder(line[..k] + line[k + 1..], dir, n)
  {
    var left := line[..k] + line[k + 1..];
    assert forall i | 0 <= i < |left| :: left[i] == line[if i < k then i else i + 1];
  }

  lemma LineStepKeeps(s: State, t: State, dir: Direction)
    requires Typed(s) && Typed(t)
    requires Conserved(s, dir) && InOrder(Line(s, dir), dir, s.accepted[dir])
    requires Unchanged(s, t, dir) || Entered(s, t, dir) || exists k: nat :: Lost(s, t, dir, k)
    ensures Conserved(t, dir) && InOrder(Line(t, dir), dir, t.accepted[dir])
  {
    hide Line, InOrder, Issued;
    if Unchanged(s, t, dir) {
    } else if Entered(s, t, dir) {
      EnteredKeeps(Line(s, dir), s.dropped[dir], dir, s.accepted[dir]);
    } else {
      var k: nat :| Lost(s, t, dir, k);
      LostConserved(Line(s, dir), s.dropped[dir], k);
      LostInOrder(Line(s, dir), dir, s.accepted[dir], k);
    }
  }

  lemma InitInv(s: State)
    requires Init(s)
    ensures Inv(s)
  {
    forall dir: Direction ensures Line(s, dir) == [] {
      EmptyCells(Cells(s, dir));
    }
  }

  lemma {:induction false} EmptyCells(cells: seq<seq<Message>>)
    requires forall j | 0 <= j < |cells| :: cells[j] == []
    ensures Flatten(cells) == []
  {
    if cells != [] {
      EmptyCells(cells[1..]);
    }
  }

  lemma StepKeepsInv(s: State, a: Step)
    requires Inv(s) && Enabled(s, a)
    ensures Inv(Next(s, a))
  {
    hide Line, Next, Enabled, Conserved, InOrder, Cells, Unchanged, Entered, Lost, Typed;
    NextTyped(s, a);
    forall dir: Direction
      ensures Conserved(Next(s, a), dir) && InOrder(Line(Next(s, a), dir), dir, Next(s, a).accepted[dir])
    {
      StepOnLine(s, a, dir);
      LineStepKeeps(s, Next(s, a), dir);
    }
  }

  lemma {:induction false} RunKeepsInv(s: State, run: seq<Step>)
    requires Inv(s) && Possible(s, run)
    ensures Inv(After(s, run))
    decreases |run|
  {
    if run != [] {
      StepKeepsInv(s, run[0]);
      RunKeepsInv(Next(s, run[0]), run[1..]);
    }
  }

  // ---------------------------------------------------------------- the saturation flag

  /** The step posts to a mailbox that is full. */
  ghost predicate PostFails(s: State, a: Step)
    requires Typed(s) && Enabled(s, a)
  {
    match a
    case Inject(d) => |s.boxes[Entry(s, d)]| >= s.capacity
    case Resend(i) => var to := Target(i, s.held[i].value.dir); to < |s.boxes| && |s.boxes[to]| >= s.capacity
    case _ => false
  }

  /** Step k of the run posts to a mailbox that is full at that time. */
  ghost predicate FailsAt(s: State, run: seq<Step>, k: nat)
    requires Typed(s) && Possible(s, run) && k < |run|
    decreases |run|
  {
    NextTyped(s, run[0]);
    if k == 0 then PostFails(s, run[0]) else FailsAt(Next(s, run[0]), run[1..], k - 1)
  }

  ghost predicate NoResetFrom(run: seq<Step>, k: nat) {
    forall j | k <= j < |run| :: run[j] != Reset
  }

  predicate ByWorker(a: Step, i: nat) {
    IsWorker(a) && a.i == i
  }

  /**
   The post at step k fails and is recorded at step m: an interrupt raises the flag at once, a
   worker with its next step.
   */
  ghost predicate Recorded(s: State, run: seq<Step>, k: nat, m: nat)
    requires Typed(s) && Possible(s, run) && k <= m < |run|
  {
    && FailsAt(s, run, k)
    && if run[k].Inject? then m == k
       else run[k].Resend? && k < m && run[m] == Raise(run[k].i) && forall j | k < j < m :: !ByWorker(run[j], run[k].i)
  }

  ghost predicate RecordedSinceReset(s: State, run: seq<Step>)
    requires Typed(s) && Possible(s, run)
  {
    exists k: nat, m: nat | k <= m < |run| :: Recorded(s, run, k, m) && NoResetFrom(run, m + 1)
  }

  // raises

  ghost predicate RaisesAt(s: State, run: seq<Step>, k: nat)
    requires Typed(s) && Possible(s, run) && k < |run|
  {
    run[k].Raise? || (run[k].Inject? && FailsAt(s, run, k))
  }

  ghost predicate RaisedSinceReset(s: State, run: seq<Step>)
    requires Typed(s) && Possible(s, run)
  {
    exists k: nat | k < |run| :: RaisesAt(s, run, k) && NoResetFrom(run, k + 1)
  }

  lemma FlagStep(s: State, a: Step)
    requires Typed(s) && Enabled(s, a)
    ensures Next(s, a).saturated <==> a.Raise? || (a.Inject? && PostFails(s, a)) || (s.saturated && a != Reset)
  {
  }

  lemma NoResetCons(run: seq<Step>, k: nat)
    requires run != []
    ensures NoResetFrom(run, k + 1) <==> NoResetFrom(run[1..], k)
    ensures NoResetFrom(run, 0) <==> run[0] != Reset && NoResetFrom(run, 1)
  {
    if NoResetFrom(run[1..], k) {
      assert forall j | k + 1 <= j < |run| :: run[j] == run[1..][j - 1];
    }
  }

  lemma RaisedSinceResetCons(s: State, run: seq<Step>)
    requires Typed(s) && Possible(s, run) && run != []
    ensures Typed(Next(s, run[0]))
    ensures RaisedSinceReset(s, run)
       <==> (RaisesAt(s, run, 0) && NoResetFrom(run, 1)) || RaisedSinceReset(Next(s, run[0]), run[1..])
  {
    NextTyped(s, run[0]);
    hide PostFails, Next, Enabled, NoResetFrom;
    var t, rest := Next(s, run[0]), run[1..];
    if RaisedSinceReset(t, rest) {
      var k: nat :| k < |rest| && RaisesAt(t, rest, k) && NoResetFrom(rest, k + 1);
      NoResetCons(run, k + 1);
      assert RaisesAt(s, run, k + 1) && NoResetFrom(run, k + 2);
    }
    if RaisedSinceReset(s, run) {
      var k: nat :| k < |run| && RaisesAt(s, run, k) && NoResetFrom(run, k + 1);
      if k > 0 {
        NoResetCons(run, k);
        assert RaisesAt(t, rest, k - 1) && NoResetFrom(rest, k);
      }
    }
  }

  lemma {:induction false} FlagFollowsRaises(s: State, run: seq<Step>)
    requires Typed(s) && Possible(s, run)
    ensures After(s, run).saturated <==> (s.saturated && NoResetFrom(run, 0)) || RaisedSinceReset(s, run)
    decreases |run|
  {
    if run == [] {
    } else {
      FlagStep(s, run[0]);
      RaisedSinceResetCons(s, run);
      FlagFollowsRaises(Next(s, run[0]), run[1..]);
      NoResetCons(run, 0);
      hide PostFails, RaisedSinceReset, NoResetFrom, Next, Enabled;
    }
  }

  // every raise belongs to a failed post, and every failed post to a raise

  lemma RecordedLater(s: State, run: seq<Step>, k: nat, m: nat)
    requires Typed(s) && Possible(s, run) && run != [] && k <= m < |run| - 1
    requires Typed(Next(s, run[0])) && Recorded(Next(s, run[0]), run[1..], k, m)
    ensures Recorded(s, run, k + 1, m + 1)
  {
    hide PostFails, Next, Enabled;
    var rest := run[1..];
    assert rest[k] == run[k + 1] && rest[m] == run[m + 1];
    forall j | k + 1 < j < m + 1 && run[k + 1].Resend? ensures !ByWorker(run[j], run[k + 1].i) {
      assert rest[j - 1] == run[j];
    }
  }

  /** Who is about to raise the flag changes by that worker's own steps only. */
  lemma RaisingStep(s: State, a: Step, i: nat)
    requires Typed(s) && Enabled(s, a)
    ensures !ByWorker(a, i) ==> (i in Next(s, a).raising <==> i in s.raising)
    ensures ByWorker(a, i) ==> (i in s.raising <==> a.Raise?)
    ensures ByWorker(a, i) ==> (i in Next(s, a).raising <==> a.Resend? && PostFails(s, a))
  {
  }

  /** Where the raise at step m comes from: a failed post in the run, or one before it. */
  lemma {:induction false} RaiseOrigin(s: State, run: seq<Step>, m: nat) returns (k: Option<nat>)
    requires Typed(s) && Possible(s, run) && m < |run| && run[m].Raise?
    ensures k.Some? ==> k.value < m && Recorded(s, run, k.value, m)
    ensures k == None ==> run[m].i in s.raising && forall j | 0 <= j < m :: !ByWorker(run[j], run[m].i)
    decreases |run|
  {
    NextTyped(s, run[0]);
    var t, rest, i := Next(s, run[0]), run[1..], run[m].i;
    RaisingStep(s, run[0], i);
    hide PostFails, Next, Enabled;
    if m == 0 {
      k := None;
    } else {
      assert rest[m - 1] == run[m];
      k := RaiseOrigin(t, rest, m - 1);
      if k.Some? {
        RecordedLater(s, run, k.value, m - 1);
        k := Some(k.value + 1);
      } else {
        assert forall j | 0 < j < m :: run[j] == rest[j - 1];
        if ByWorker(run[0], i) {
          assert FailsAt(s, run, 0);
          k := Some(0);
        }
      }
    }
  }

  /** A worker about to raise the flag does so with its next step, if the run gets that far. */
  lemma {:induction false} RaiseComes(s: State, run: seq<Step>, i: nat) returns (m: Option<nat>)
    requires Typed(s) && Possible(s, run) && i in s.raising
    ensures m.Some? ==> m.value < |run| && run[m.value] == Raise(i)
    ensures m.Some? ==> forall j | 0 <= j < m.value :: !ByWorker(run[j], i)
    ensures m == None ==> i in After(s, run).raising
    decreases |run|
  {
    m := None;
    if run != [] {
      NextTyped(s, run[0]);
      RaisingStep(s, run[0], i);
      hide PostFails, Next, Enabled;
      var rest := run[1..];
      if ByWorker(run[0], i) {
        m := Some(0);
      } else {
        m := RaiseComes(Next(s, run[0]), rest, i);
        if m.Some? {
          assert forall j | 0 < j < m.value + 1 :: run[j] == rest[j - 1];
          assert rest[m.value] == run[m.value + 1];
          m := Some(m.value + 1);
        }
      }
    }
  }

  /** Every failed post of a run is recorded in it, or its worker is about to record it at the end. */
  lemma {:induction false} FailureIsRecorded(s: State, run: seq<Step>, k: nat) returns (m: Option<nat>)
    requires Typed(s) && Possible(s, run) && k < |run| && FailsAt(s, run, k)
    ensures m.Some? ==> k <= m.value < |run| && Recorded(s, run, k, m.value)
    ensures m == None ==> run[k].Resend? && run[k].i in After(s, run).raising
    decreases |run|
  {
    NextTyped(s, run[0]);
    var t, rest := Next(s, run[0]), run[1..];
    if k > 0 {
      hide PostFails, Next, Enabled;
      assert rest[k - 1] == run[k];
      m := FailureIsRecorded(t, rest, k - 1);
      if m.Some? {
        RecordedLater(s, run, k - 1, m.value);
        m := Some(m.value + 1);
      }
    } else if run[0].Inject? {
      m := Some(0);
    } else {
      var i := run[0].i;
      assert i in t.raising;
      hide PostFails, Next, Enabled;
      m := RaiseComes(t, rest, i);
      if m.Some? {
        assert forall j | 0 < j < m.value + 1 :: run[j] == rest[j - 1];
        assert rest[m.value] == run[m.value + 1];
        m := Some(m.value + 1);
      }
    }
  }

  /**
   After any run that starts with no worker about to raise it, the flag is up exactly when some
   post met a full mailbox and was recorded after the last reset.
   */
  lemma FlagIff(s: State, run: seq<Step>)
    requires Typed(s) && Possible(s, run) && s.raising == {}
    ensures After(s, run).saturated <==> (s.saturated && NoResetFrom(run, 0)) || RecordedSinceReset(s, run)
  {
    FlagFollowsRaises(s, run);
    hide After, Possible, FailsAt, NoResetFrom;
    if RaisedSinceReset(s, run) {
      var m: nat :| m < |run| && RaisesAt(s, run, m) && NoResetFrom(run, m + 1);
      var k := Some(m);
      if run[m].Raise? {
        k := RaiseOrigin(s, run, m);
      }
      assert Recorded(s, run, k.value, m) && NoResetFrom(run, m + 1);
    }
    if RecordedSinceReset(s, run) {
      var k: nat, m: nat :| k <= m < |run| && Recorded(s, run, k, m) && NoResetFrom(run, m + 1);
      assert RaisesAt(s, run, m);
    }
  }

  // without a reset

  /** No step of the run posts to a full mailbox. */
  ghost predicate Quiet(s: State, run: seq<Step>)
    requires Typed(s) && Possible(s, run)
  {
    forall k: nat | k < |run| :: !FailsAt(s, run, k)
  }

  lemma QuietCons(s: State, run: seq<Step>)
    requires Typed(s) && Possible(s, run) && run != []
    ensures Typed(Next(s, run[0]))
    ensures Quiet(s, run) <==> !PostFails(s, run[0]) && Quiet(Next(s, run[0]), run[1..])
  {
    NextTyped(s, run[0]);
    hide PostFails, Next, Enabled;
    var t, rest := Next(s, run[0]), run[1..];
    if Quiet(s, run) {
      assert !FailsAt(s, run, 0);
      assert forall k: nat | k < |rest| :: FailsAt(t, rest, k) == FailsAt(s, run, k + 1);
    } else {
      var k: nat :| k < |run| && FailsAt(s, run, k);
      if k > 0 {
        assert FailsAt(t, rest, k - 1);
      }
    }
  }

  /** A failed post is known: the flag is up, or a worker is about to raise it. */
  predicate Alarmed(s: State) {
    s.saturated || s.raising != {}
  }

  lemma AlarmStep(s: State, a: Step)
    requires Typed(s) && Enabled(s, a) && a != Reset
    ensures Alarmed(Next(s, a)) <==> Alarmed(s) || PostFails(s, a)
  {
  }

  lemma {:induction false} AlarmIff(s: State, run: seq<Step>)
    requires Typed(s) && Possible(s, run) && NoResetFrom(run, 0)
    ensures Alarmed(After(s, run)) <==> Alarmed(s) || !Quiet(s, run)
    decreases |run|
  {
    if run != [] {
      AlarmStep(s, run[0]);
      QuietCons(s, run);
      NoResetCons(run, 0);
      hide Alarmed, PostFails, Quiet, Next, Enabled, NoResetFrom;
      AlarmIff(Next(s, run[0]), run[1..]);
    }
  }

  /** Some failed post of the run is recorded in it. */
  ghost predicate SomeRecorded(s: State, run: seq<Step>)
    requires Typed(s) && Possible(s, run)
  {
    exists k: nat, m: nat | k <= m < |run| :: Recorded(s, run, k, m)
  }

  lemma FlagWithoutReset(s: State, run: seq<Step>)
    requires Typed(s) && Possible(s, run) && NoResetFrom(run, 0) && !Alarmed(s)
    ensures After(s, run).saturated <==> SomeRecorded(s, run)
  {
    FlagIff(s, run);
    hide After, Possible, Recorded;
    if SomeRecorded(s, run) {
      var k: nat, m: nat :| k <= m < |run| && Recorded(s, run, k, m);
      assert NoResetFrom(run, m + 1);
    }
  }

  /**
   In every run of the chain, for both directions: the accepted injections are exactly those that
   left, are in a mailbox or held by a worker, or were dropped; and messages leave in the order in
   which they were injected. The flag is up exactly when a failed post was recorded since the last
   reset.
   */
  lemma EveryRunConserves(s: State, run: seq<Step>)
    requires Init(s) && Possible(s, run)
    ensures var t := After(s, run);
      && (forall dir: Direction :: Conserved(t, dir) && InOrder(Line(t, dir), dir, t.accepted[dir]))
      && (t.saturated <==> RecordedSinceReset(s, run))
  {
    InitInv(s);
    RunKeepsInv(s, run);
    FlagIff(s, run);
    hide After, Possible, RecordedSinceReset, Conserved, InOrder, Line;
  }

  // ---------------------------------------------------------------- full mailboxes

  ghost predicate BoxesFit(s: State) {
    forall i | 0 <= i < |s.boxes| :: |s.boxes[i]| <= s.capacity
  }

  lemma StepKeepsBoxes(s: State, a: Step)
    requires Typed(s) && Enabled(s, a) && BoxesFit(s)
    ensures Typed(Next(s, a)) && BoxesFit(Next(s, a)) && Next(s, a).capacity == s.capacity
  {
    NextTyped(s, a);
  }

  lemma {:induction false} RunKeepsBoxes(s: State, run: seq<Step>)
    requires Typed(s) && Possible(s, run) && BoxesFit(s)
    ensures BoxesFit(After(s, run)) && After(s, run).capacity == s.capacity
    decreases |run|
  {
    if run != [] {
      StepKeepsBoxes(s, run[0]);
      RunKeepsBoxes(Next(s, run[0]), run[1..]);
    }
  }

  /** The mailbox a step posts to, if it posts. */
  ghost function PostsTo(s: State, a: Step): Option<nat>
    requires Typed(s) && Enabled(s, a)
  {
    match a
    case Inject(Right) => Some(0)
    case Inject(Left) => Some(|s.boxes| - 1)
    case Resend(i) =>
      if s.held[i].value.dir == Left then if i > 0 then Some(i - 1) else None
      else if i + 1 < |s.boxes| then Some(i + 1) else None
    case _ => None
  }

  /** In every run a post fails exactly when its mailbox holds as many messages as it can. */
  lemma PostFailsIffFull(s: State, run: seq<Step>, a: Step)
    requires Init(s) && Possible(s, run) && Enabled(After(s, run), a)
    ensures var t := After(s, run);
      var to := PostsTo(t, a);
      && (to.Some? ==> to.value < |t.boxes| && |t.boxes[to.value]| <= s.capacity)
      && (PostFails(t, a) <==> to.Some? && |t.boxes[to.value]| == s.capacity)
  {
    NothingInBoxes(s);
    RunKeepsBoxes(s, run);
    hide *;
    FullIff(After(s, run), a);
  }

  lemma NothingInBoxes(s: State)
    requires Init(s)
    ensures Typed(s) && BoxesFit(s)
  {
  }

  lemma FullIff(t: State, a: Step)
    requires Typed(t) && Enabled(t, a) && BoxesFit(t)
    ensures var to := PostsTo(t, a);
      && (to.Some? ==> to.value < |t.boxes| && |t.boxes[to.value]| <= t.capacity)
      && (PostFails(t, a) <==> to.Some? && |t.boxes[to.value]| == t.capacity)
  {
  }

  // ---------------------------------------------------------------- one way

  /** Message m is at worker i: held, or in its mailbox. */
  ghost predicate At(s: State, m: Message, i: nat)
    requires Typed(s)
  {
    i < |s.boxes| && (s.held[i] == Some(m) || m in s.boxes[i])
  }

  lemma {:induction false} FilterKeeps(box: seq<Message>, m: Message)
    requires m in box
    ensures m in Filter(box, m.dir)
  {
    if box[0] != m {
      assert m in box[1..];
      FilterKeeps(box[1..], m);
    }
  }

  lemma AtInCells(s: State, m: Message, i: nat)
    requires Typed(s) && At(s, m, i)
    ensures m in Cells(s, m.dir)[Seat(|s.boxes|, m.dir, i)]
  {
    CellOf(s, m.dir, i);
    if s.held[i] != Some(m) {
      FilterKeeps(s.boxes[i], m);
    }
  }

  lemma {:induction false} InFlatten(cells: seq<seq<Message>>, j: nat, m: Message)
    requires j < |cells| && m in cells[j]
    ensures m in Flatten(cells)
  {
    FlattenAt(cells, j);
  }

  /** Numbers rise along the cells, so a message is in one cell only. */
  lemma FlattenUnique(cells: seq<seq<Message>>, a: nat, b: nat, m: Message, dir: Direction, n: nat)
    requires a < b < |cells| && m in cells[a] && m in cells[b]
    ensures !InOrder(Flatten(cells), dir, n)
  {
    FlattenAt(cells, b);
    InFlatten(cells[..b], a, m);
    var front := Flatten(cells[..b]);
    var p :| 0 <= p < |front| && front[p] == m;
    var q :| 0 <= q < |cells[b]| && cells[b][q] == m;
    var all := Flatten(cells);
    assert all[p] == m && all[|front| + q] == m;
  }

  lemma InOrderBehind(a: seq<Message>, b: seq<Message>, dir: Direction, n: nat)
    requires InOrder(a + b, dir, n)
    ensures InOrder(b, dir, n)
  {
    assert forall x | 0 <= x < |b| :: b[x] == (a + b)[|a| + x];
  }

  lemma OnePlace(s: State, m: Message, i: nat, k: nat)
    requires Typed(s) && InOrder(Line(s, m.dir), m.dir, s.accepted[m.dir])
    requires At(s, m, i) && At(s, m, k)
    ensures i == k
    ensures m.id < s.accepted[m.dir]
  {
    hide Cells, Flatten, At;
    AtInCells(s, m, i);
    AtInCells(s, m, k);
    var n, cells := |s.boxes|, Cells(s, m.dir);
    InOrderBehind(s.exited[m.dir], Flatten(cells), m.dir, s.accepted[m.dir]);
    InFlatten(cells, Seat(n, m.dir, i), m);
    SameCell(cells, Seat(n, m.dir, i), Seat(n, m.dir, k), m, m.dir, s.accepted[m.dir]);
    AtIsWorker(s, m, i);
    AtIsWorker(s, m, k);
  }

  lemma AtIsWorker(s: State, m: Message, i: nat)
    requires Typed(s) && At(s, m, i)
    ensures i < |s.boxes|
  {
  }

  lemma SameCell(cells: seq<seq<Message>>, a: nat, b: nat, m: Message, dir: Direction, n: nat)
    requires InOrder(Flatten(cells), dir, n)
    requires a < |cells| && b < |cells| && m in cells[a] && m in cells[b]
    ensures a == b
  {
    if a < b {
      FlattenUnique(cells, a, b, m, dir, n);
    } else if b < a {
      FlattenUnique(cells, b, a, m, dir, n);
    }
  }

  /** A message turns up at a worker only by being resent there. */
  lemma NewPlace(s: State, a: Step, m: Message, to: nat)
    requires Typed(s) && Enabled(s, a) && Typed(Next(s, a))
    requires m.id < s.accepted[m.dir]
    requires At(Next(s, a), m, to) && !At(s, m, to)
    ensures a.Resend? && s.held[a.i] == Some(m) && to == Target(a.i, m.dir)
  {
  }

  /** A message that is at a worker after a step was there before, or came one seat nearer its exit. */
  lemma StepMovesOneWay(s: State, a: Step, m: Message, from: nat, to: nat)
    requires Typed(s) && InOrder(Line(s, m.dir), m.dir, s.accepted[m.dir])
    requires Enabled(s, a) && Typed(Next(s, a))
    requires At(s, m, from) && At(Next(s, a), m, to)
    ensures from < |s.boxes| && to < |s.boxes|
    ensures var n := |s.boxes|;
      || to == from
      || (Seat(n, m.dir, from) > 0 && Seat(n, m.dir, to) == Seat(n, m.dir, from) - 1)
  {
    hide Line, InOrder, Next;
    OnePlace(s, m, from, from);
    if At(s, m, to) {
      OnePlace(s, m, from, to);
    } else {
      NewPlace(s, a, m, to);
      OnePlace(s, m, from, a.i);
      TargetIsNextSeat(|s.boxes|, m.dir, a.i);
      NextTyped(s, a);
    }
  }

  ghost predicate InChain(s: State, m: Message)
    requires Typed(s)
  {
    exists i: nat :: At(s, m, i)
  }

  /** A message that has left the chain does not come back with a step. */
  lemma GoneAfterStep(s: State, a: Step, m: Message)
    requires Typed(s) && Enabled(s, a) && m.id < s.accepted[m.dir] && !InChain(s, m)
    ensures Typed(Next(s, a)) && !InChain(Next(s, a), m)
    ensures m.id < Next(s, a).accepted[m.dir]
  {
    NextTyped(s, a);
    AcceptedGrows(s, a, m.dir);
    if InChain(Next(s, a), m) {
      hide Next, Enabled;
      var to: nat :| At(Next(s, a), m, to);
      assert !At(s, m, to);
      NewPlace(s, a, m, to);
      HeldIsAt(s, a, m);
    }
  }

  lemma AcceptedGrows(s: State, a: Step, dir: Direction)
    requires Typed(s) && Enabled(s, a)
    ensures Typed(Next(s, a)) && s.accepted[dir] <= Next(s, a).accepted[dir]
  {
  }

  lemma HeldIsAt(s: State, a: Step, m: Message)
    requires Typed(s) && Enabled(s, a) && a.Resend? && s.held[a.i] == Some(m)
    ensures At(s, m, a.i)
  {
  }

  /** Nor with any run: once exited or dropped, it is gone. */
  lemma {:induction false} GoneForGood(s: State, run: seq<Step>, m: Message)
    requires Typed(s) && Possible(s, run) && m.id < s.accepted[m.dir] && !InChain(s, m)
    ensures !InChain(After(s, run), m)
    decreases |run|
  {
    hide InChain;
    if run != [] {
      GoneAfterStep(s, run[0], m);
      GoneForGood(Next(s, run[0]), run[1..], m);
    }
  }

  lemma {:induction false} OneWayFrom(s: State, run: seq<Step>, m: Message, from: nat, to: nat)
    requires Inv(s) && Possible(s, run)
    requires At(s, m, from) && At(After(s, run), m, to)
    ensures from < |s.boxes| == |After(s, run).boxes| && to < |s.boxes|
    ensures Seat(|s.boxes|, m.dir, to) <= Seat(|s.boxes|, m.dir, from)
    decreases |run|
  {
    hide At, Seat, Conserved, InOrder, Line, InChain;
    AtIsWorker(s, m, from);
    if run == [] {
      OnePlace(s, m, from, to);
    } else {
      var t, rest := Next(s, run[0]), run[1..];
      StepKeepsInv(s, run[0]);
      NextTyped(s, run[0]);
      OnePlace(s, m, from, from);
      AcceptedGrows(s, run[0], m.dir);
      assert InChain(t, m) by {
        if !InChain(t, m) {
          GoneForGood(t, rest, m);
          InChainAt(After(t, rest), m, to);
        }
      }
      var mid := PlaceOf(t, m);
      StepMovesOneWay(s, run[0], m, from, mid);
      OneWayFrom(t, rest, m, mid, to);
    }
  }

  lemma InChainAt(s: State, m: Message, i: nat)
    requires Typed(s) && At(s, m, i)
    ensures InChain(s, m)
  {
  }

  lemma PlaceOf(s: State, m: Message) returns (i: nat)
    requires Typed(s) && InChain(s, m)
    ensures At(s, m, i)
  {
    i :| At(s, m, i);
  }

  /**
   In every run, between any two moments a message is in the chain, it has come no farther from
   its exit; and a message that was accepted and is no longer in the chain stays out of it.
   */
  lemma RunMovesOneWay(s: State, before: seq<Step>, run: seq<Step>, m: Message, from: nat, to: nat)
    requires Init(s) && Possible(s, before) && Possible(After(s, before), run)
    requires At(After(After(s, before), run), m, to) && m.id < After(s, before).accepted[m.dir]
    ensures InChain(After(s, before), m)
    ensures At(After(s, before), m, from) ==>
              var n := |After(s, before).boxes|;
              from < n && to < n && Seat(n, m.dir, to) <= Seat(n, m.dir, from)
  {
    hide At, InChain, Possible, After, Inv;
    InitInv(s);
    RunKeepsInv(s, before);
    var t := After(s, before);
    if !InChain(t, m) {
      GoneForGood(t, run, m);
      InChainAt(After(t, run), m, to);
    }
    if At(t, m, from) {
      OneWayFrom(t, run, m, from, to);
    }
  }

  // ---------------------------------------------------------------- draining

  /** Worker steps a queued message still needs when nothing drops it: two for each seat. */
  function Cost(n: nat, m: Message, i: nat): nat
    requires i < n
  {
    2 * Seat(n, m.dir, i) + 2
  }

  function BoxCost(n: nat, box: seq<Message>, i: nat): nat
    requires i < n
  {
    if box == [] then 0 else Cost(n, box[0], i) + BoxCost(n, box[1..], i)
  }

  lemma {:induction false} BoxCostSnoc(n: nat, box: seq<Message>, i: nat, m: Message)
    requires i < n
    ensures BoxCost(n, box + [m], i) == BoxCost(n, box, i) + Cost(n, m, i)
  {
    if box == [] {
      assert box + [m] == [m] && [m][1..] == [];
    } else {
      assert (box + [m])[1..] == box[1..] + [m];
      BoxCostSnoc(n, box[1..], i, m);
    }
  }

  ghost function WorkerCost(s: State, i: nat): nat
    requires Typed(s) && i < |s.boxes|
  {
    (if s.held[i].Some? then Cost(|s.boxes|, s.held[i].value, i) - 1 else 0) + BoxCost(|s.boxes|, s.boxes[i], i)
  }

  /** The cost of the first k workers. */
  ghost function LoadBelow(s: State, k: nat): nat
    requires Typed(s) && k <= |s.boxes|
  {
    if k == 0 then 0 else LoadBelow(s, k - 1) + WorkerCost(s, k - 1)
  }

  ghost function Load(s: State): nat
    requires Typed(s)
  {
    LoadBelow(s, |s.boxes|) + |s.raising|
  }

  lemma {:induction false} LoadChangeAt(s: State, t: State, i: nat, k: nat)
    requires Typed(s) && Typed(t) && |s.boxes| == |t.boxes| && i < |s.boxes| && k <= |s.boxes|
    requires forall j | 0 <= j < |s.boxes| && j != i :: t.boxes[j] == s.boxes[j] && t.held[j] == s.held[j]
    ensures i < k ==> LoadBelow(t, k) + WorkerCost(s, i) == LoadBelow(s, k) + WorkerCost(t, i)
    ensures k <= i ==> LoadBelow(t, k) == LoadBelow(s, k)
    decreases k
  {
    if k > 0 {
      LoadChangeAt(s, t, i, k - 1);
    }
  }

  lemma FetchLowersLoad(s: State, i: nat)
    requires Typed(s) && Enabled(s, Fetch(i))
    ensures Typed(Next(s, Fetch(i))) && Load(Next(s, Fetch(i))) == Load(s) - 1
  {
    NextTyped(s, Fetch(i));
    LoadChangeAt(s, Next(s, Fetch(i)), i, |s.boxes|);
  }

  lemma IdleLoad(s: State, i: nat)
    requires Typed(s) && Enabled(s, Resend(i))
    ensures Typed(Idle(s, i))
    ensures Load(Idle(s, i)) + 2 * Seat(|s.boxes|, s.held[i].value.dir, i) + 1 == Load(s)
  {
    LoadChangeAt(s, Idle(s, i), i, |s.boxes|);
  }

  lemma {:induction false} LoadSameParts(s: State, t: State, k: nat)
    requires Typed(s) && Typed(t) && t.boxes == s.boxes && t.held == s.held && k <= |s.boxes|
    ensures LoadBelow(t, k) == LoadBelow(s, k)
    decreases k
  {
    if k > 0 {
      LoadSameParts(s, t, k - 1);
    }
  }

  lemma ResendLowersLoad(s: State, i: nat)
    requires Typed(s) && Enabled(s, Resend(i))
    ensures var t := Next(s, Resend(i));
      Typed(t) && Load(t) < Load(s) && (!PostFails(s, Resend(i)) ==> Load(t) == Load(s) - 1)
  {
    NextTyped(s, Resend(i));
    IdleLoad(s, i);
    var t, m, idle, n := Next(s, Resend(i)), s.held[i].value, Idle(s, i), |s.boxes|;
    hide LoadBelow;
    TargetIsNextSeat(n, m.dir, i);
    var to := Target(i, m.dir);
    if to < n && |s.boxes[to]| < s.capacity {
      BoxCostSnoc(n, s.boxes[to], to, m);
      LoadChangeAt(idle, t, to, n);
    } else {
      LoadSameParts(idle, t, n);
    }
  }

  /** Every worker step lowers the load, by exactly one unless it drops its message. */
  lemma WorkerStepLowersLoad(s: State, a: Step)
    requires Typed(s) && Enabled(s, a) && IsWorker(a)
    ensures var t := Next(s, a);
      Typed(t) && Load(t) < Load(s) && (!PostFails(s, a) ==> Load(t) == Load(s) - 1)
  {
    NextTyped(s, a);
    match a
    case Fetch(i) => FetchLowersLoad(s, i);
    case Resend(i) => ResendLowersLoad(s, i);
    case Raise(i) => LoadSameParts(s, Next(s, a), |s.boxes|);
  }

  /**
   With the timers stopped the chain drains: any run of worker steps is at most as long as the
   load, and takes exactly the difference in load when no post fails.
   */
  lemma {:induction false} WorkersDrain(s: State, run: seq<Step>)
    requires Typed(s) && Possible(s, run)
    requires forall k | 0 <= k < |run| :: IsWorker(run[k])
    ensures |run| + Load(After(s, run)) <= Load(s)
    ensures Quiet(s, run) ==> |run| + Load(After(s, run)) == Load(s)
    decreases |run|
  {
    if run != [] {
      WorkerStepLowersLoad(s, run[0]);
      QuietCons(s, run);
      WorkersDrain(Next(s, run[0]), run[1..]);
    }
  }

  /** As long as a message is in the chain, some worker can step. */
  lemma WorkersStuckOnlyWhenEmpty(s: State)
    requires Typed(s)
    requires forall a | IsWorker(a) :: !Enabled(s, a)
    ensures forall i | 0 <= i < |s.boxes| :: s.boxes[i] == [] && s.held[i] == None
    ensures s.raising == {}
    ensures forall dir: Direction :: Line(s, dir) == s.exited[dir]
  {
    assert forall i | i in s.raising :: IsWorker(Raise(i)) && Enabled(s, Raise(i));
    forall i | 0 <= i < |s.boxes| ensures s.boxes[i] == [] && s.held[i] == None {
      assert IsWorker(Fetch(i)) && IsWorker(Resend(i));
    }
    forall dir: Direction ensures Line(s, dir) == s.exited[dir] {
      EmptyCells(Cells(s, dir));
    }
  }

  // ---------------------------------------------------------------- runs without a failed post

  /** An injection is accepted unless it fails, and nothing is dropped but by a failed post. */
  lemma StepCounts(s: State, a: Step, dir: Direction)
    requires Typed(s) && Enabled(s, a)
    ensures Typed(Next(s, a))
    ensures Next(s, a).accepted[dir] == s.accepted[dir] + if a == Inject(dir) && !PostFails(s, a) then 1 else 0
    ensures !PostFails(s, a) ==> Next(s, a).dropped[dir] == s.dropped[dir]
  {
    NextTyped(s, a);
  }

  lemma {:induction false} QuietDropsNothing(s: State, run: seq<Step>, dir: Direction)
    requires Typed(s) && Possible(s, run) && Quiet(s, run)
    ensures After(s, run).dropped[dir] == s.dropped[dir]
    decreases |run|
  {
    if run != [] {
      QuietCons(s, run);
      StepCounts(s, run[0], dir);
      hide Next, Enabled, PostFails, Quiet;
      QuietDropsNothing(Next(s, run[0]), run[1..], dir);
    }
  }

  /** A rising list of numbers below n that has n members is the list of all of them. */
  lemma {:induction false} RisingIsAll(line: seq<Message>, dir: Direction, n: nat)
    requires InOrder(line, dir, n) && |line| == n
    ensures line == Issued(dir, n)
    decreases n
  {
    if n > 0 {
      var front := line[..n - 1];
      FrontInOrder(line, dir, n);
      RisingIsAll(front, dir, n - 1);
      assert line == front + [line[n - 1]];
      assert Issued(dir, n) == Issued(dir, n - 1) + [Message(dir, n - 1)];
      hide InOrder, Issued;
      assert line[n - 1].dir == dir && line[n - 1].id == n - 1 by {
        LastOfAll(line, dir, n);
      }
    }
  }

  lemma FrontInOrder(line: seq<Message>, dir: Direction, n: nat)
    requires InOrder(line, dir, n) && |line| == n > 0
    ensures InOrder(line[..n - 1], dir, n - 1)
  {
    var front := line[..n - 1];
    forall i | 0 <= i < |front| ensures front[i].dir == dir && front[i].id < n - 1 {
      assert line[i].id < line[n - 1].id < n;
    }
  }

  lemma LastOfAll(line: seq<Message>, dir: Direction, n: nat)
    requires InOrder(line, dir, n) && |line| == n > 0 && line[..n - 1] == Issued(dir, n - 1)
    ensures line[n - 1].dir == dir && line[n - 1].id == n - 1
  {
    if n > 1 {
      assert line[..n - 1][n - 2] == line[n - 2];
      assert line[n - 2].id < line[n - 1].id;
    }
  }

  /**
   A run in which no post fails and that leaves the chain empty has delivered every injection it
   accepted, in order.
   */
  lemma QuietRunDelivers(s: State, run: seq<Step>, dir: Direction)
    requires Init(s) && Possible(s, run) && Quiet(s, run)
    requires var t := After(s, run); forall i | 0 <= i < |t.boxes| :: t.boxes[i] == [] && t.held[i] == None
    ensures After(s, run).exited[dir] == Issued(dir, After(s, run).accepted[dir])
  {
    EveryRunConserves(s, run);
    QuietDropsNothing(s, run, dir);
    hide *;
    NothingBefore(s, dir);
    AllExited(After(s, run), dir);
  }

  lemma NothingBefore(s: State, dir: Direction)
    requires Init(s)
    ensures s.dropped[dir] == []
  {
  }

  lemma AllExited(t: State, dir: Direction)
    requires Typed(t) && Conserved(t, dir) && InOrder(Line(t, dir), dir, t.accepted[dir])
    requires forall i | 0 <= i < |t.boxes| :: t.boxes[i] == [] && t.held[i] == None
    requires t.dropped[dir] == []
    ensures t.exited[dir] == Issued(dir, t.accepted[dir])
  {
    EmptyCells(Cells(t, dir));
    assert Line(t, dir) == t.exited[dir];
    hide InOrder, Issued, Cells, Flatten, Line;
    SameSize(t.exited[dir], Issued(dir, t.accepted[dir]));
    IssuedLength(dir, t.accepted[dir]);
    RisingIsAll(t.exited[dir], dir, t.accepted[dir]);
  }

  lemma SameSize(a: seq<Message>, b: seq<Message>)
    requires multiset(a) + multiset([]) == multiset(b)
    ensures |a| == |b|
  {
    assert |a| == |multiset(a)| && |b| == |multiset(b)|;
  }

  lemma IssuedLength(dir: Direction, n: nat)
    ensures |Issued(dir, n)| == n
  {
  }

  // ---------------------------------------------------------------- the test loop

  const FIRST_INTERVAL: nat := 2000

  /** The next timer interval, about a tenth below this one. */
  function Shorter(interval: nat): (r: nat)
    requires interval >= 2
    ensures r < interval
  {
    interval - (interval + 9) / 10
  }

  /** The timer intervals of one iteration. */
  function Schedule(interval: nat): (r: seq<nat>)
    ensures forall k | 0 <= k < |r| :: 2 <= r[k] <= interval
  {
    if interval < 2 then [] else [interval] + Schedule(Shorter(interval))
  }

  ghost predicate Falls(r: seq<nat>) {
    forall i, j | 0 <= i < j < |r| :: r[j] < r[i]
  }

  lemma {:induction false} ScheduleFalls(interval: nat)
    ensures Falls(Schedule(interval))
  {
    if interval >= 2 {
      ScheduleFalls(Shorter(interval));
      FallsCons(interval, Schedule(Shorter(interval)), Shorter(interval));
    }
  }

  lemma FallsCons(head: nat, tail: seq<nat>, bound: nat)
    requires Falls(tail) && bound < head && forall k | 0 <= k < |tail| :: tail[k] <= bound
    ensures Falls([head] + tail)
  {
  }

  /** One interval differs from the next by a tenth of itself, rounded up. */
  ghost predicate TenthLess(x: nat, y: nat) {
    y < x && x <= 10 * (x - y) < x + 10
  }

  /** The schedule starts at the first interval, falls by a tenth each time and ends at 2. */
  lemma {:induction false} ScheduleShape(interval: nat)
    requires interval >= 2
    ensures var r := Schedule(interval);
      && r != [] && r[0] == interval && r[|r| - 1] == 2
      && forall k | 0 <= k < |r| - 1 :: TenthLess(r[k], r[k + 1])
  {
    var next := Shorter(interval);
    var r, rest := Schedule(interval), Schedule(next);
    if next >= 2 {
      ScheduleShape(next);
      forall k | 0 <= k < |r| - 1 ensures TenthLess(r[k], r[k + 1]) {
        if k > 0 {
          assert TenthLess(rest[k - 1], rest[k]);
        }
      }
    }
  }

  /**
   What interrupts and workers do while the test sleeps: in the given iteration, with the timers at
   the given interval (0 when they are stopped), from the given state of the chain.
   */
  type Storm = (nat, nat, State) -> seq<Step>

  /** Any possible run will do; only the test itself resets the flag. */
  ghost predicate Plays(storm: Storm) {
    forall i, interval, s | Typed(s) :: Possible(s, storm(i, interval, s)) && NoResetFrom(storm(i, interval, s), 0)
  }

  ghost function Stormed(storm: Storm, i: nat, interval: nat, s: State): (r: State)
    requires Plays(storm) && Typed(s)
    ensures Typed(r)
  {
    After(s, storm(i, interval, s))
  }

  /** The storm of this interval, from this state, makes no post fail. */
  ghost predicate Calm(storm: Storm, i: nat, interval: nat, s: State)
    requires Plays(storm) && Typed(s)
  {
    Quiet(s, storm(i, interval, s))
  }

  /** The chain when the storm of interval x begins, all longer intervals having been played. */
  ghost function ChainAt(storm: Storm, i: nat, interval: nat, s: State, x: nat): (r: State)
    requires Plays(storm) && Typed(s)
    ensures Typed(r)
    decreases interval
  {
    if interval < 2 || x >= interval then s
    else ChainAt(storm, i, Shorter(interval), Stormed(storm, i, interval, s), x)
  }

  /** The first interval in whose storm a post fails, as the mailboxes see it, or 0. */
  ghost function FirstFailing(storm: Storm, i: nat, interval: nat, s: State): nat
    requires Plays(storm) && Typed(s)
    decreases interval
  {
    if interval < 2 then 0
    else if Calm(storm, i, interval, s) then
      FirstFailing(storm, i, Shorter(interval), Stormed(storm, i, interval, s))
    else interval
  }

  /** That interval is the largest of the schedule in whose storm a post fails. */
  lemma {:induction false} FirstFailingIsLargest(storm: Storm, i: nat, interval: nat, s: State)
    requires Plays(storm) && Typed(s)
    ensures var failing := FirstFailing(storm, i, interval, s);
      && failing <= interval
      && (failing != 0 ==> failing in Schedule(interval)
                           && !Calm(storm, i, failing, ChainAt(storm, i, interval, s, failing)))
      && forall x | x in Schedule(interval) && x > failing ::
           Calm(storm, i, x, ChainAt(storm, i, interval, s, x))
    decreases interval
  {
    hide Plays, Calm, Stormed;
    if interval >= 2 && Calm(storm, i, interval, s) {
      FirstFailingIsLargest(storm, i, Shorter(interval), Stormed(storm, i, interval, s));
    }
  }

  /** The first interval at whose end the flag is up, or 0; and the chain as it is left. */
  ghost function FirstSeen(storm: Storm, i: nat, interval: nat, s: State): (r: (nat, State))
    requires Plays(storm) && Typed(s)
    ensures Typed(r.1)
    decreases interval
  {
    if interval < 2 then (0, s)
    else
      var t := Stormed(storm, i, interval, s);
      if t.saturated then (interval, t) else FirstSeen(storm, i, Shorter(interval), t)
  }

  /** In the storm of this interval, from this state, some failed post is recorded. */
  ghost predicate Noticed(storm: Storm, i: nat, interval: nat, s: State)
    requires Plays(storm) && Typed(s)
  {
    SomeRecorded(s, storm(i, interval, s))
  }

  lemma StormEffect(storm: Storm, i: nat, interval: nat, s: State)
    requires Plays(storm) && Typed(s) && !Alarmed(s)
    ensures var t := Stormed(storm, i, interval, s);
      && (t.saturated <==> Noticed(storm, i, interval, s))
      && (Alarmed(t) <==> !Calm(storm, i, interval, s))
  {
    Runs(storm, i, interval, s);
    AlarmIff(s, storm(i, interval, s));
    FlagWithoutReset(s, storm(i, interval, s));
  }

  /**
   What the flag shows is never larger than what the mailboxes see, and the same exactly when a
   failed post of the first failing storm is recorded before that storm is judged. When no worker
   is then about to raise the flag, it is the same.
   */
  lemma {:induction false} SeenIffNoticed(storm: Storm, i: nat, interval: nat, s: State)
    requires Plays(storm) && Typed(s) && !Alarmed(s)
    ensures var seen, failing := FirstSeen(storm, i, interval, s).0, FirstFailing(storm, i, interval, s);
      var chain := ChainAt(storm, i, interval, s, failing);
      && seen <= failing <= interval
      && (seen == failing <==> failing == 0 || Noticed(storm, i, failing, chain))
      && (Stormed(storm, i, failing, chain).raising == {} ==> seen == failing)
    decreases interval
  {
    hide Plays, Calm, Noticed, Stormed;
    if interval >= 2 {
      StormEffect(storm, i, interval, s);
      var t := Stormed(storm, i, interval, s);
      if Calm(storm, i, interval, s) {
        SeenIffNoticed(storm, i, Shorter(interval), t);
        FirstFailingIsLargest(storm, i, Shorter(interval), t);
      } else if !t.saturated {
        SeenSmall(storm, i, Shorter(interval), t);
      }
    }
  }

  lemma {:induction false} SeenSmall(storm: Storm, i: nat, interval: nat, s: State)
    requires Plays(storm) && Typed(s)
    ensures FirstSeen(storm, i, interval, s).0 <= interval
    decreases interval
  {
    hide Plays, Stormed;
    if interval >= 2 {
      SeenSmall(storm, i, Shorter(interval), Stormed(storm, i, interval, s));
    }
  }

  /**
   The body of the outer loop of `irq_storm_execute`: the flag is reset once, and read at the end
   of each interval. If no worker was about to raise it at the reset, what is found is the first
   interval in whose storm a post fails exactly when that failure is noticed in time.
   */
  method FindThreshold(storm: Storm, i: nat, first: nat, start: State) returns (threshold: nat, s: State)
    requires Plays(storm) && Typed(start)
    ensures Typed(Next(start, Reset))
    ensures (threshold, s) == FirstSeen(storm, i, first, Next(start, Reset))
    ensures start.raising == {} ==>
              var reset := Next(start, Reset);
              var failing := FirstFailing(storm, i, first, reset);
              && threshold <= failing
              && (threshold == failing <==>
                    failing == 0 || Noticed(storm, i, failing, ChainAt(storm, i, first, reset, failing)))
  {
    s := Next(start, Reset);
    if start.raising == {} {
      SeenIffNoticed(storm, i, first, s);
    }
    hide FirstFailing, Noticed, ChainAt;
    threshold := 0;
    var interval := first;
    while interval >= 2
      invariant Typed(s) && threshold == 0
      invariant FirstSeen(storm, i, interval, s) == FirstSeen(storm, i, first, Next(start, Reset))
      decreases interval
    {
      ghost var before := s;
      s := After(s, storm(i, interval, s));
      assert s == Stormed(storm, i, interval, before);
      if s.saturated {
        if threshold == 0 {
          threshold := interval;
        }
        return;
      }
      interval := Shorter(interval);
    }
  }

  /** The thresholds of n iterations from the i-th on, the chain resting 20 ms after each. */
  ghost function Thresholds(storm: Storm, i: nat, n: nat, s: State): (r: seq<nat>)
    requires Plays(storm) && Typed(s)
    ensures |r| == n
    decreases n
  {
    if n == 0 then []
    else
      NextTyped(s, Reset);
      var (threshold, left) := FirstSeen(storm, i, FIRST_INTERVAL, Next(s, Reset));
      [threshold] + Thresholds(storm, i + 1, n - 1, Stormed(storm, i, 0, left))
  }

  lemma {:induction false} SeenInSchedule(storm: Storm, i: nat, interval: nat, s: State)
    requires Plays(storm) && Typed(s)
    ensures var seen := FirstSeen(storm, i, interval, s).0; seen == 0 || seen in Schedule(interval)
    decreases interval
  {
    hide Plays, Stormed;
    if interval >= 2 {
      SeenInSchedule(storm, i, Shorter(interval), Stormed(storm, i, interval, s));
    }
  }

  /** Every threshold is 0 or one of the intervals from 2000 us down. */
  lemma {:induction false} ThresholdsInSchedule(storm: Storm, i: nat, n: nat, s: State, k: nat)
    requires Plays(storm) && Typed(s) && k < n
    ensures var x := Thresholds(storm, i, n, s)[k]; x == 0 || x in Schedule(2000)
    decreases n
  {
    hide Plays, Stormed, Schedule, FirstSeen;
    NextTyped(s, Reset);
    SeenInSchedule(storm, i, FIRST_INTERVAL, Next(s, Reset));
    if k > 0 {
      var left := FirstSeen(storm, i, FIRST_INTERVAL, Next(s, Reset)).1;
      ThresholdsInSchedule(storm, i + 1, n - 1, Stormed(storm, i, 0, left), k - 1);
    }
  }

  /** A storm that raises the flag at 2000 us is reported as that. */
  lemma FirstStormReported(storm: Storm, i: nat, n: nat, s: State)
    requires Plays(storm) && Typed(s) && n > 0
    requires Typed(Next(s, Reset)) && Stormed(storm, i, 2000, Next(s, Reset)).saturated
    ensures Thresholds(storm, i, n, s)[0] == 2000
  {
    hide Plays, Stormed, Schedule;
  }

  /** `irq_storm_execute`: the worst case is the largest threshold of all iterations. */
  method Execute(storm: Storm, iterations: nat, start: State) returns (worst: nat)
    requires Plays(storm) && Typed(start)
    ensures var all := Thresholds(storm, 1, iterations, start);
      (forall k | 0 <= k < |all| :: all[k] <= worst) && (worst != 0 ==> worst in all)
    ensures worst == 0 || worst in Schedule(2000)
  {
    hide Plays, FirstFailing, FirstSeen, Next, Schedule;
    worst := 0;
    var s := start;
    var i := 1;
    ghost var done: seq<nat> := [];
    while i <= iterations
      invariant 1 <= i <= iterations + 1 && Typed(s)
      invariant done + Thresholds(storm, i, iterations + 1 - i, s) == Thresholds(storm, 1, iterations, start)
      invariant forall k | 0 <= k < |done| :: done[k] <= worst
      invariant worst != 0 ==> worst in done
    {
      ghost var before := s;
      var threshold, left := FindThreshold(storm, i, FIRST_INTERVAL, s);
      Runs(storm, i, 0, left);
      s := After(left, storm(i, 0, left));
      if threshold > worst {
        worst := threshold;
      }
      assert Thresholds(storm, i, iterations + 1 - i, before)
          == [threshold] + Thresholds(storm, i + 1, iterations - i, s);
      done := done + [threshold];
      i := i + 1;
    }
    assert done == Thresholds(storm, 1, iterations, start);
    WorstInSchedule(storm, iterations, start, worst);
  }

  lemma WorstInSchedule(storm: Storm, iterations: nat, start: State, worst: nat)
    requires Plays(storm) && Typed(start)
    requires worst == 0 || worst in Thresholds(storm, 1, iterations, start)
    ensures worst == 0 || worst in Schedule(2000)
  {
    hide Plays, Schedule;
    if worst != 0 {
      var all := Thresholds(storm, 1, iterations, start);
      var k :| 0 <= k < |all| && all[k] == worst;
      hide Thresholds;
      ThresholdsInSchedule(storm, 1, iterations, start, k);
    }
  }

  lemma Runs(storm: Storm, i: nat, interval: nat, s: State)
    requires Plays(storm) && Typed(s)
    ensures Possible(s, storm(i, interval, s)) && NoResetFrom(storm(i, interval, s), 0)
  {
  }
}
