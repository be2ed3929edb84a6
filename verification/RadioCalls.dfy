/**
 What the threads on the radio do when nothing keeps them from it: whole calls, step by step, with
 exactly the events they leave. The rules of the bus say what may happen; these say that it does.
 */
module RadioCalls {
  import opened Types
  import opened Radio

  function Events(e: Effect): seq<Event> {
    if e.event.Some? then [e.event.value] else []
  }

  /**
   A thread alone, every open choice answered yes: n steps lead from one position and shared state
   to another and leave these events.
   */
  ghost predicate Goes(t: nat, pc: Pc, m: Shared, n: nat, pc': Pc, m': Shared, events: seq<Event>)
    decreases n
  {
    if n == 0 then pc == pc' && m == m' && events == []
    else
      && CanMove(pc, m, true)
      && var e := Move(t, pc, m, true);
      Events(e) <= events && Goes(t, e.pc, e.shared, n - 1, pc', m', events[|Events(e)|..])
  }

  lemma GoesFirst(t: nat, pc: Pc, m: Shared, n: nat, pc': Pc, m': Shared, events: seq<Event>)
    requires CanMove(pc, m, true)
    requires var e := Move(t, pc, m, true); Goes(t, e.pc, e.shared, n, pc', m', events)
    ensures Goes(t, pc, m, n + 1, pc', m', Events(Move(t, pc, m, true)) + events)
  {
    hide Move, CanMove;
    var head := Events(Move(t, pc, m, true));
    assert (head + events)[|head|..] == events;
  }

  lemma GoesNext(t: nat, pc: Pc, m: Shared, n: nat, pc': Pc, m': Shared, events: seq<Event>, all: seq<Event>)
    requires CanMove(pc, m, true)
    requires var e := Move(t, pc, m, true); Goes(t, e.pc, e.shared, n, pc', m', events) && all == Events(e) + events
    ensures Goes(t, pc, m, n + 1, pc', m', all)
  {
    GoesFirst(t, pc, m, n, pc', m', events);
  }

  /** The steps of one thread, as a run of the whole system. */
  function Repeat(t: nat, n: nat): seq<Choice> {
    if n == 0 then [] else [Choice(t, true)] + Repeat(t, n - 1)
  }

  lemma GoesNone(t: nat, pc: Pc, m: Shared)
    ensures Goes(t, pc, m, 0, pc, m, [])
  {
  }

  lemma GoesOn(t: nat, pc: Pc, m: Shared, n: nat, pc': Pc, m': Shared, events: seq<Event>)
    requires n > 0 && Goes(t, pc, m, n, pc', m', events)
    ensures CanMove(pc, m, true)
    ensures var e := Move(t, pc, m, true);
      Events(e) <= events && Goes(t, e.pc, e.shared, n - 1, pc', m', events[|Events(e)|..])
  {
    hide Move, CanMove;
  }

  lemma RunFirst(s: State, c: Choice, rest: seq<Choice>)
    requires Enabled(s, c) && Possible(Next(s, c), rest)
    ensures Possible(s, [c] + rest) && After(s, [c] + rest) == After(Next(s, c), rest)
  {
    hide Move, CanMove;
    assert ([c] + rest)[1..] == rest;
  }

  lemma NextIs(s: State, t: nat)
    requires t in s.pcs && CanMove(s.pcs[t], s.shared, true)
    ensures var e := Move(t, s.pcs[t], s.shared, true);
      Next(s, Choice(t, true)) == State(e.shared, s.pcs[t := e.pc], s.trace + Events(e))
  {
    hide Move, CanMove;
  }

  /** A thread that goes alone does so from any state of the system with that position and shared state. */
  lemma {:induction false} GoesRuns(s: State, t: nat, n: nat, pc': Pc, m': Shared, events: seq<Event>)
    requires t in s.pcs && Goes(t, s.pcs[t], s.shared, n, pc', m', events)
    ensures Possible(s, Repeat(t, n))
    ensures After(s, Repeat(t, n)) == State(m', s.pcs[t := pc'], s.trace + events)
    decreases n
  {
    if n > 0 {
      GoesOn(t, s.pcs[t], s.shared, n, pc', m', events);
      NextIs(s, t);
      hide Move, CanMove, Goes, Possible, After, Next, Events;
      var e, next := Move(t, s.pcs[t], s.shared, true), Next(s, Choice(t, true));
      var rest := events[|Events(e)|..];
      GoesRuns(next, t, n - 1, pc', m', rest);
      RunFirst(s, Choice(t, true), Repeat(t, n - 1));
      assert next.trace + rest == s.trace + events;
      assert next.pcs[t := pc'] == s.pcs[t := pc'];
    } else {
      assert s.pcs[t := s.pcs[t]] == s.pcs;
    }
  }

  // ---------------------------------------------------------------- reconfiguration

  function Exchanges(t: nat, k: nat): seq<Event>
    decreases CONFIG_COMMANDS - k
  {
    if k >= CONFIG_COMMANDS then [] else [WriteConfig(t, k), Replied(t, k)] + Exchanges(t, k + 1)
  }

  /** What a successful call leaves: one session with the four commands, each replied to. */
  function Session(t: nat): seq<Event> {
    [Acquire(t), SetLine(t, false),
     WriteConfig(t, 0), Replied(t, 0), WriteConfig(t, 1), Replied(t, 1),
     WriteConfig(t, 2), Replied(t, 2), WriteConfig(t, 3), Replied(t, 3),
     SetLine(t, true), Release(t), Returned(t, true)]
  }

  function Closing(t: nat, done: bool): seq<Event> {
    [SetLine(t, true), Release(t), Returned(t, done)]
  }

  lemma ClosingGoes(t: nat, m: Shared, done: bool)
    ensures Goes(t, Shell(ConfigNormal(done)), m, 3, Shell(ShellIdle), m.(line := true, token := true),
                 Closing(t, done))
  {
    hide Goes;
    var m1, m2 := m.(line := true), m.(line := true, token := true);
    GoesNone(t, Shell(ShellIdle), m2);
    GoesFirst(t, Shell(ConfigReturn(done)), m2, 0, Shell(ShellIdle), m2, []);
    GoesFirst(t, Shell(ConfigSignal(done)), m1, 1, Shell(ShellIdle), m2, [Returned(t, done)] + []);
    GoesFirst(t, Shell(ConfigNormal(done)), m, 2, Shell(ShellIdle), m2, [Release(t)] + ([Returned(t, done)] + []));
    assert [SetLine(t, true)] + ([Release(t)] + ([Returned(t, done)] + [])) == Closing(t, done);
  }

  lemma {:induction false} ExchangesGo(t: nat, m: Shared, k: nat)
    requires k < 4
    ensures Goes(t, Shell(ConfigAt(k)), m, 2 * (4 - k) + 3, Shell(ShellIdle), m.(line := true, token := true),
                 Exchanges(t, k) + Closing(t, true))
    decreases 4 - k
  {
    hide Goes;
    var end := m.(line := true, token := true);
    var rest := Exchanges(t, k + 1) + Closing(t, true);
    if k == 3 {
      ClosingGoes(t, m, true);
      assert rest == Closing(t, true);
    } else {
      ExchangesGo(t, m, k + 1);
    }
    var n := 2 * (3 - k) + 3;
    GoesFirst(t, Shell(ConfigReply(k)), m, n, Shell(ShellIdle), end, rest);
    GoesFirst(t, Shell(ConfigAt(k)), m, n + 1, Shell(ShellIdle), end, [Replied(t, k)] + rest);
    assert [WriteConfig(t, k)] + ([Replied(t, k)] + rest) == Exchanges(t, k) + Closing(t, true);
  }

  lemma ExchangesAre(t: nat)
    ensures [Acquire(t)] + ([SetLine(t, false)] + (Exchanges(t, 0) + Closing(t, true))) == Session(t)
  {
    assert Exchanges(t, 4) == [];
    assert Exchanges(t, 3) == [WriteConfig(t, 3), Replied(t, 3)];
    assert Exchanges(t, 2) == [WriteConfig(t, 2), Replied(t, 2), WriteConfig(t, 3), Replied(t, 3)];
    assert Exchanges(t, 1) == [WriteConfig(t, 1), Replied(t, 1)] + Exchanges(t, 2);
    assert Exchanges(t, 0) == [WriteConfig(t, 0), Replied(t, 0)] + Exchanges(t, 1);
  }

  lemma ReadyGoes(t: nat, m: Shared)
    requires m.status == Ok && m.token
    ensures Goes(t, Shell(ConfigReady), m, 14, Shell(ShellIdle), Shared(Ok, true, true), Session(t))
  {
    hide Goes;
    var m1, m2, end := m.(token := false), m.(token := false, line := false), Shared(Ok, true, true);
    var rest := Exchanges(t, 0) + Closing(t, true);
    ExchangesGo(t, m2, 0);
    GoesFirst(t, Shell(ConfigProg), m1, 11, Shell(ShellIdle), end, rest);
    GoesFirst(t, Shell(ConfigWait), m, 12, Shell(ShellIdle), end, [SetLine(t, false)] + rest);
    ExchangesAre(t);
    GoesFirst(t, Shell(ConfigReady), m, 13, Shell(ShellIdle), end, Session(t));
    assert [] + Session(t) == Session(t);
  }

  lemma CallGoes(t: nat, m: Shared)
    requires (m.status == Ok || m.status == Sleep) && m.token
    ensures Goes(t, Shell(ShellIdle), m, if m.status == Ok then 16 else 18, Shell(ShellIdle), Shared(Ok, true, true),
                 Session(t))
  {
    hide Goes;
    var end, events := Shared(Ok, true, true), Session(t);
    assert [] + events == events;
    ReadyGoes(t, m.(status := Ok));
    hide Session;
    if m.status == Ok {
      assert m.(status := Ok) == m;
      GoesFirst(t, Shell(ConfigAsleep), m, 14, Shell(ShellIdle), end, events);
      GoesFirst(t, Shell(ShellIdle), m, 15, Shell(ShellIdle), end, events);
    } else {
      GoesFirst(t, Shell(ConfigWakeSet), m, 14, Shell(ShellIdle), end, events);
      GoesFirst(t, Shell(ConfigWakeTest), m, 15, Shell(ShellIdle), end, events);
      GoesFirst(t, Shell(ConfigAsleep), m, 16, Shell(ShellIdle), end, events);
      GoesFirst(t, Shell(ShellIdle), m, 17, Shell(ShellIdle), end, events);
    }
  }

  /**
   From any state in which a shell is idle, the radio is in order or asleep and the semaphore is
   free, a call that is answered throughout is carried out: exactly one session, and success.
   */
  lemma ReconfigurationCarriedOut(s: State, t: nat)
    requires t in s.pcs && s.pcs[t] == Shell(ShellIdle)
    requires (s.shared.status == Ok || s.shared.status == Sleep) && s.shared.token
    ensures var steps := Repeat(t, if s.shared.status == Ok then 16 else 18);
      && Possible(s, steps)
      && After(s, steps) == State(Shared(Ok, true, true), s.pcs[t := Shell(ShellIdle)], s.trace + Session(t))
  {
    CallGoes(t, s.shared);
    hide Session, Goes;
    GoesRuns(s, t, if s.shared.status == Ok then 16 else 18, Shell(ShellIdle), Shared(Ok, true, true), Session(t));
  }

  /** In any other status a call that gets as far as the test reports failure and touches nothing. */
  lemma NotReadyRefused(s: State, t: nat)
    requires t in s.pcs && s.pcs[t] == Shell(ConfigReady) && s.shared.status != Ok
    ensures Possible(s, Repeat(t, 2))
    ensures After(s, Repeat(t, 2)) == State(s.shared, s.pcs[t := Shell(ShellIdle)], s.trace + [Returned(t, false)])
  {
    hide Goes;
    var m := s.shared;
    GoesNone(t, Shell(ShellIdle), m);
    GoesFirst(t, Shell(ConfigReturn(false)), m, 0, Shell(ShellIdle), m, []);
    assert [Returned(t, false)] + [] == [Returned(t, false)];
    GoesFirst(t, Shell(ConfigReady), m, 1, Shell(ShellIdle), m, [Returned(t, false)]);
    assert [] + [Returned(t, false)] == [Returned(t, false)];
    GoesRuns(s, t, 2, Shell(ShellIdle), m, [Returned(t, false)]);
  }

  /** So does one whose wait for the semaphore times out. */
  lemma TimedOutWaitRefused(s: State, t: nat)
    requires t in s.pcs && s.pcs[t] == Shell(ConfigWait)
    ensures Enabled(s, Choice(t, false)) && Enabled(Next(s, Choice(t, false)), Choice(t, true))
    ensures Next(Next(s, Choice(t, false)), Choice(t, true))
         == State(s.shared, s.pcs[t := Shell(ShellIdle)], s.trace + [Returned(t, false)])
  {
    var next := Next(s, Choice(t, false));
    assert next.pcs[t := Shell(ShellIdle)] == s.pcs[t := Shell(ShellIdle)];
  }

  /** A command that is not replied to ends the session: SET high, semaphore back, failure. */
  lemma NoReplyEndsSession(s: State, t: nat)
    requires t in s.pcs && s.pcs[t].Shell? && s.pcs[t].call.ConfigReply?
    ensures Enabled(s, Choice(t, false))
    ensures var next := Next(s, Choice(t, false));
      && Possible(next, Repeat(t, 3))
      && After(next, Repeat(t, 3))
         == State(s.shared.(line := true, token := true), s.pcs[t := Shell(ShellIdle)], s.trace + Closing(t, false))
  {
    hide Goes;
    var next := Next(s, Choice(t, false));
    ClosingGoes(t, s.shared, false);
    GoesRuns(next, t, 3, Shell(ShellIdle), s.shared.(line := true, token := true), Closing(t, false));
    assert next.pcs[t := Shell(ShellIdle)] == s.pcs[t := Shell(ShellIdle)];
  }

  // ---------------------------------------------------------------- stream thread

  function Check(t: nat): seq<Event> {
    [Acquire(t), SetLine(t, false), WritePing(t), Answered(t), SetLine(t, true), Release(t)]
  }

  lemma CheckEnds(t: nat, m: Shared)
    requires m.status == Ok
    ensures Goes(t, Stream(CheckNormal), m, 5, Stream(Fetch), Shared(Sleep, true, true), [SetLine(t, true), Release(t)])
  {
    hide Goes;
    var end := Shared(Sleep, true, true);
    var m1, m2 := m.(line := true), Shared(Ok, true, true);
    GoesNone(t, Stream(Fetch), end);
    GoesNext(t, Stream(FirstSleepSet), m2, 0, Stream(Fetch), end, [], []);
    GoesNext(t, Stream(FirstSleepTest), m2, 1, Stream(Fetch), end, [], []);
    GoesNext(t, Stream(CheckJudge), m2, 2, Stream(Fetch), end, [], []);
    GoesNext(t, Stream(CheckSignal), m1, 3, Stream(Fetch), end, [], [Release(t)]);
    GoesNext(t, Stream(CheckNormal), m, 4, Stream(Fetch), end, [Release(t)], [SetLine(t, true), Release(t)]);
  }

  lemma CheckGoes(t: nat, m: Shared)
    requires m.token
    ensures Goes(t, Stream(CheckClear), m, 10, Stream(Fetch), Shared(Sleep, true, true), Check(t))
  {
    hide Goes;
    var end := Shared(Sleep, true, true);
    var m1 := m.(status := Nok);
    var m2 := m1.(token := false);
    var m3 := m2.(line := false);
    CheckEnds(t, m3.(status := Ok));
    var e4, e3 := [SetLine(t, true), Release(t)], [Answered(t), SetLine(t, true), Release(t)];
    var e2 := [WritePing(t), Answered(t), SetLine(t, true), Release(t)];
    var e1 := [SetLine(t, false), WritePing(t), Answered(t), SetLine(t, true), Release(t)];
    GoesNext(t, Stream(CheckReply), m3, 5, Stream(Fetch), end, e4, e3);
    GoesNext(t, Stream(CheckPing), m3, 6, Stream(Fetch), end, e3, e2);
    GoesNext(t, Stream(CheckProg), m2, 7, Stream(Fetch), end, e2, e1);
    GoesNext(t, Stream(CheckWait), m1, 8, Stream(Fetch), end, e1, Check(t));
    GoesNext(t, Stream(CheckClear), m, 9, Stream(Fetch), end, Check(t), Check(t));
  }

  /** A ping that is answered ends the checking: the radio is put to sleep and messages are awaited. */
  lemma AnsweredPingLeavesCheck(s: State, t: nat)
    requires t in s.pcs && s.pcs[t] == Stream(CheckClear) && s.shared.token
    ensures Possible(s, Repeat(t, 10))
    ensures After(s, Repeat(t, 10)) == State(Shared(Sleep, true, true), s.pcs[t := Stream(Fetch)], s.trace + Check(t))
  {
    CheckGoes(t, s.shared);
    hide Goes;
    GoesRuns(s, t, 10, Stream(Fetch), Shared(Sleep, true, true), Check(t));
  }

  /** One that is not answered leads back to the next check, semaphore given back. */
  lemma UnansweredPingChecksAgain(s: State, t: nat)
    requires t in s.pcs && s.pcs[t] == Stream(CheckReply) && s.shared.status == Nok
    ensures Enabled(s, Choice(t, false))
    ensures var next := Next(s, Choice(t, false));
      && Possible(next, Repeat(t, 3))
      && After(next, Repeat(t, 3))
         == State(Shared(Nok, true, true), s.pcs[t := Stream(CheckClear)], s.trace + [SetLine(t, true), Release(t)])
  {
    hide Goes;
    var m, end := s.shared, Shared(Nok, true, true);
    var m1 := m.(line := true);
    GoesNone(t, Stream(CheckClear), end);
    GoesNext(t, Stream(CheckJudge), end, 0, Stream(CheckClear), end, [], []);
    GoesNext(t, Stream(CheckSignal), m1, 1, Stream(CheckClear), end, [], [Release(t)]);
    GoesNext(t, Stream(CheckNormal), m, 2, Stream(CheckClear), end, [Release(t)], [SetLine(t, true), Release(t)]);
    var next := Next(s, Choice(t, false));
    assert [SetLine(t, true)] + [Release(t)] == [SetLine(t, true), Release(t)];
    GoesRuns(next, t, 3, Stream(CheckClear), end, [SetLine(t, true), Release(t)]);
    assert next.pcs[t := Stream(CheckClear)] == s.pcs[t := Stream(CheckClear)];
  }

  function Sending(t: nat): seq<Event> {
    [Acquire(t), WriteData(t), WriteData(t), Release(t)]
  }

  lemma SendGoes(t: nat, m: Shared)
    requires m.token
    ensures Goes(t, Stream(SendWait), m, 4, Stream(Fetch), m, Sending(t))
  {
    hide Goes;
    var m1 := m.(token := false);
    assert m1.(token := true) == m;
    GoesNone(t, Stream(Fetch), m);
    GoesNext(t, Stream(SendSignal), m1, 0, Stream(Fetch), m, [], [Release(t)]);
    GoesNext(t, Stream(SendEnd), m1, 1, Stream(Fetch), m, [Release(t)], [WriteData(t), Release(t)]);
    GoesNext(t, Stream(SendFrame), m1, 2, Stream(Fetch), m, [WriteData(t), Release(t)],
             [WriteData(t), WriteData(t), Release(t)]);
    GoesNext(t, Stream(SendWait), m, 3, Stream(Fetch), m, [WriteData(t), WriteData(t), Release(t)], Sending(t));
  }

  /** A fetched message is sent, frame and line end, the radio being woken first if it sleeps. */
  lemma FetchedMessageSent(s: State, t: nat)
    requires t in s.pcs && s.pcs[t] == Stream(Fetch) && s.shared.token
    ensures var asleep := s.shared.status == Sleep;
      var steps := Repeat(t, if asleep then 7 else 6);
      && Possible(s, steps)
      && After(s, steps) == State(if asleep then s.shared.(status := Ok) else s.shared,
                                  s.pcs[t := Stream(Fetch)], s.trace + Sending(t))
  {
    hide Goes;
    var m, events := s.shared, Sending(t);
    assert [] + events == events;
    hide Sending;
    if m.status == Sleep {
      var end := m.(status := Ok);
      SendGoes(t, end);
      GoesNext(t, Stream(WakeSet), m, 4, Stream(Fetch), end, events, events);
      GoesNext(t, Stream(WakeTest), m, 5, Stream(Fetch), end, events, events);
      GoesNext(t, Stream(Fetch), m, 6, Stream(Fetch), end, events, events);
      GoesRuns(s, t, 7, Stream(Fetch), end, events);
    } else {
      SendGoes(t, m);
      GoesNext(t, Stream(WakeTest), m, 4, Stream(Fetch), m, events, events);
      GoesNext(t, Stream(Fetch), m, 5, Stream(Fetch), m, events, events);
      GoesRuns(s, t, 6, Stream(Fetch), m, events);
    }
  }

  /** When no message comes for a while, a radio in order is put to sleep. */
  lemma IdleRadioSleeps(s: State, t: nat)
    requires t in s.pcs && s.pcs[t] == Stream(Fetch) && s.shared.status == Ok
    ensures Enabled(s, Choice(t, false))
    ensures var next := Next(s, Choice(t, false));
      && Possible(next, Repeat(t, 2))
      && After(next, Repeat(t, 2)) == State(s.shared.(status := Sleep), s.pcs[t := Stream(Fetch)], s.trace)
  {
    hide Goes;
    var m, end := s.shared, s.shared.(status := Sleep);
    var none: seq<Event> := [];
    GoesNone(t, Stream(Fetch), end);
    GoesNext(t, Stream(IdleSleepSet), m, 0, Stream(Fetch), end, none, none);
    GoesNext(t, Stream(IdleSleepTest), m, 1, Stream(Fetch), end, none, none);
    var next := Next(s, Choice(t, false));
    GoesRuns(next, t, 2, Stream(Fetch), end, none);
    assert next.pcs[t := Stream(Fetch)] == s.pcs[t := Stream(Fetch)];
    assert s.trace + none == s.trace;
  }

  // ---------------------------------------------------------------- power thread

  lemma WakeGoes(t: nat, m: Shared)
    ensures var end := Shared(if m.status == Sleep then Ok else m.status, m.line, true);
      Goes(t, Power(OnWakeTest), m, if m.status == Sleep then 3 else 2, Power(OffWait), end, [Release(t)])
  {
    hide Goes;
    var end := Shared(if m.status == Sleep then Ok else m.status, m.line, true);
    GoesNone(t, Power(OffWait), end);
    if m.status == Sleep {
      GoesNext(t, Power(OnSignal), m.(status := Ok), 0, Power(OffWait), end, [], [Release(t)]);
      GoesNext(t, Power(OnWakeSet), m, 1, Power(OffWait), end, [Release(t)], [Release(t)]);
      GoesNext(t, Power(OnWakeTest), m, 2, Power(OffWait), end, [Release(t)], [Release(t)]);
    } else {
      GoesNext(t, Power(OnSignal), m, 0, Power(OffWait), end, [], [Release(t)]);
      GoesNext(t, Power(OnWakeTest), m, 1, Power(OffWait), end, [Release(t)], [Release(t)]);
    }
  }

  /** Turning the radio off and on takes the semaphore once; a radio that answered before is in order after. */
  lemma OffAndOn(s: State, t: nat)
    requires t in s.pcs && s.pcs[t] == Power(OffWait) && s.shared.token
    ensures var steps := Repeat(t, match s.shared.status case Ok => 6 case Sleep => 5 case Nok => 4);
      && Possible(s, steps)
      && After(s, steps) == State(s.shared.(status := if s.shared.status == Nok then Nok else Ok),
                                  s.pcs[t := Power(OffWait)], s.trace + [Acquire(t), Release(t)])
  {
    hide Goes;
    var m := s.shared;
    var m1 := m.(token := false);
    var end := m.(status := if m.status == Nok then Nok else Ok);
    if m.status == Ok {
      WakeGoes(t, m1.(status := Sleep));
      GoesNext(t, Power(OffSleepSet), m1, 3, Power(OffWait), end, [Release(t)], [Release(t)]);
      GoesNext(t, Power(OffSleepTest), m1, 4, Power(OffWait), end, [Release(t)], [Release(t)]);
      GoesNext(t, Power(OffWait), m, 5, Power(OffWait), end, [Release(t)], [Acquire(t), Release(t)]);
      GoesRuns(s, t, 6, Power(OffWait), end, [Acquire(t), Release(t)]);
    } else {
      WakeGoes(t, m1);
      var n := if m.status == Sleep then 3 else 2;
      GoesNext(t, Power(OffSleepTest), m1, n, Power(OffWait), end, [Release(t)], [Release(t)]);
      GoesNext(t, Power(OffWait), m, n + 1, Power(OffWait), end, [Release(t)], [Acquire(t), Release(t)]);
      GoesRuns(s, t, n + 2, Power(OffWait), end, [Acquire(t), Release(t)]);
    }
  }
}
