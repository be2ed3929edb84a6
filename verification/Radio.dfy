/**
 The radio UART, shared under a binary semaphore by the stream thread, by shells that
 reconfigure the radio and by power threads. Every thread is a small program counter; a run
 interleaves single steps of any number of threads, and leaves a trace of what it did to the
 semaphore, the SET line and the UART.
 */
module Radio {
  import opened Types

  datatype Status = Nok | Sleep | Ok

  /** The four AT commands of a reconfiguration: channel, baud, mode, power. */
  const CONFIG_COMMANDS: nat := 4

  /** Where the stream thread is; in all three programs the named action is the next one taken. */
  datatype StreamPc =
    | Boot
    | CheckClear
    | CheckWait
    | CheckProg
    | CheckPing
    | CheckReply
    | CheckNormal
    | CheckSignal
    | CheckJudge
    | FirstSleepTest
    | FirstSleepSet
    | Fetch
    | IdleSleepTest
    | IdleSleepSet
    | WakeTest
    | WakeSet
    | SendWait
    | SendFrame
    | SendEnd
    | SendSignal

  /** Where a shell is in `HC12__reconfigure`. */
  datatype ShellPc =
    | ShellIdle
    | ConfigAsleep
    | ConfigWakeTest
    | ConfigWakeSet
    | ConfigReady
    | ConfigWait
    | ConfigProg
    | ConfigAt(k: nat)
    | ConfigReply(k: nat)
    | ConfigNormal(done: bool)
    | ConfigSignal(done: bool)
    | ConfigReturn(done: bool)

  /** Where a power thread is in turning the radio off and on. */
  datatype PowerPc =
    | OffWait
    | OffSleepTest
    | OffSleepSet
    | OnWakeTest
    | OnWakeSet
    | OnSignal

  datatype Pc = Stream(at: StreamPc) | Shell(call: ShellPc) | Power(turn: PowerPc)

  predicate StreamHolding(at: StreamPc) {
    match at
    case CheckProg | CheckPing | CheckReply | CheckNormal | CheckSignal => true
    case SendFrame | SendEnd | SendSignal => true
    case _ => false
  }

  predicate ShellHolding(call: ShellPc) {
    call.ConfigProg? || call.ConfigAt? || call.ConfigReply? || call.ConfigNormal? || call.ConfigSignal?
  }

  /** Between a successful wait on the semaphore and the signal that gives it back. */
  predicate Holding(pc: Pc) {
    match pc
    case Stream(at) => StreamHolding(at)
    case Shell(call) => ShellHolding(call)
    case Power(turn) => turn != OffWait
  }

  /** SET has been pulled low and not yet raised again. */
  predicate InProgMode(pc: Pc) {
    match pc
    case Stream(at) => at == CheckPing || at == CheckReply || at == CheckNormal
    case Shell(call) => call.ConfigAt? || call.ConfigReply? || call.ConfigNormal?
    case Power(_) => false
  }

  predicate EarlyStream(at: StreamPc) {
    match at
    case Boot | CheckClear | CheckWait | CheckProg | CheckPing | CheckReply | CheckNormal | CheckSignal => true
    case CheckJudge => true
    case _ => false
  }

  /** Positions a thread can be at while the radio has never answered and the status is NOK. */
  predicate Early(pc: Pc) {
    match pc
    case Stream(at) => EarlyStream(at)
    case Shell(call) => call in {ShellIdle, ConfigAsleep, ConfigReady, ConfigReturn(false)}
    case Power(turn) => turn != OffSleepSet && turn != OnWakeSet
  }

  datatype Event =
    | Acquire(t: nat)
    | Release(t: nat)
    | SetLine(t: nat, high: bool)
    | WriteData(t: nat)
    | WritePing(t: nat)
    | Answered(t: nat)
    | WriteConfig(t: nat, k: nat)
    | Replied(t: nat, k: nat)
    | Returned(t: nat, done: bool)

  /** What the threads share: radio status, SET line, semaphore token. */
  datatype Shared = Shared(status: Status, line: bool, token: bool)

  datatype Effect = Effect(pc: Pc, shared: Shared, event: Option<Event>)

  /** A thread can move unless it waits for the semaphore; a timed wait may also give up. */
  predicate CanMove(pc: Pc, m: Shared, yes: bool) {
    match pc
    case Stream(at) => (at == CheckWait ==> yes ==> m.token) && (at == SendWait ==> yes && m.token)
    case Shell(call) => call == ConfigWait ==> yes ==> m.token
    case Power(turn) => turn == OffWait ==> yes ==> m.token
  }

  function StreamTo(at: StreamPc, m: Shared, event: Option<Event>): Effect {
    Effect(Stream(at), m, event)
  }

  function ShellTo(call: ShellPc, m: Shared, event: Option<Event>): Effect {
    Effect(Shell(call), m, event)
  }

  function PowerTo(turn: PowerPc, m: Shared, event: Option<Event>): Effect {
    Effect(Power(turn), m, event)
  }

  /** One step. `yes` settles what the model leaves open: a wait, a reply, a message, a command. */
  function StreamMove(t: nat, at: StreamPc, m: Shared, yes: bool): Effect {
    match at
    case Boot => StreamTo(CheckClear, m.(line := true), Some(SetLine(t, true)))
    case CheckClear => StreamTo(CheckWait, m.(status := Nok), None)
    case CheckWait =>
      if yes then StreamTo(CheckProg, m.(token := false), Some(Acquire(t))) else StreamTo(CheckJudge, m, None)
    case CheckProg => StreamTo(CheckPing, m.(line := false), Some(SetLine(t, false)))
    case CheckPing => StreamTo(CheckReply, m, Some(WritePing(t)))
    case CheckReply =>
      if yes then StreamTo(CheckNormal, m.(status := Ok), Some(Answered(t))) else StreamTo(CheckNormal, m, None)
    case CheckNormal => StreamTo(CheckSignal, m.(line := true), Some(SetLine(t, true)))
    case CheckSignal => StreamTo(CheckJudge, m.(token := true), Some(Release(t)))
    case CheckJudge => StreamTo(if m.status == Ok then FirstSleepTest else CheckClear, m, None)
    case FirstSleepTest => StreamTo(if m.status == Ok then FirstSleepSet else Fetch, m, None)
    case FirstSleepSet => StreamTo(Fetch, m.(status := Sleep), None)
    case Fetch => StreamTo(if yes then WakeTest else IdleSleepTest, m, None)
    case IdleSleepTest => StreamTo(if m.status == Ok then IdleSleepSet else Fetch, m, None)
    case IdleSleepSet => StreamTo(Fetch, m.(status := Sleep), None)
    case WakeTest => StreamTo(if m.status == Sleep then WakeSet else SendWait, m, None)
    case WakeSet => StreamTo(SendWait, m.(status := Ok), None)
    case SendWait => StreamTo(SendFrame, m.(token := false), Some(Acquire(t)))
    case SendFrame => StreamTo(SendEnd, m, Some(WriteData(t)))
    case SendEnd => StreamTo(SendSignal, m, Some(WriteData(t)))
    case SendSignal => StreamTo(Fetch, m.(token := true), Some(Release(t)))
  }

  function ShellMove(t: nat, call: ShellPc, m: Shared, yes: bool): Effect {
    match call
    case ShellIdle => ShellTo(if yes then ConfigAsleep else ShellIdle, m, None)
    case ConfigAsleep => ShellTo(if m.status == Sleep then ConfigWakeTest else ConfigReady, m, None)
    case ConfigWakeTest => ShellTo(if m.status == Sleep then ConfigWakeSet else ConfigReady, m, None)
    case ConfigWakeSet => ShellTo(ConfigReady, m.(status := Ok), None)
    case ConfigReady => ShellTo(if m.status == Ok then ConfigWait else ConfigReturn(false), m, None)
    case ConfigWait =>
      if yes then ShellTo(ConfigProg, m.(token := false), Some(Acquire(t))) else ShellTo(ConfigReturn(false), m, None)
    case ConfigProg => ShellTo(ConfigAt(0), m.(line := false), Some(SetLine(t, false)))
    case ConfigAt(k) => ShellTo(ConfigReply(k), m, Some(WriteConfig(t, k)))
    case ConfigReply(k) =>
      if !yes then ShellTo(ConfigNormal(false), m, None)
      else ShellTo(if k + 1 < CONFIG_COMMANDS then ConfigAt(k + 1) else ConfigNormal(true), m, Some(Replied(t, k)))
    case ConfigNormal(done) => ShellTo(ConfigSignal(done), m.(line := true), Some(SetLine(t, true)))
    case ConfigSignal(done) => ShellTo(ConfigReturn(done), m.(token := true), Some(Release(t)))
    case ConfigReturn(done) => ShellTo(ShellIdle, m, Some(Returned(t, done)))
  }

  function PowerMove(t: nat, turn: PowerPc, m: Shared, yes: bool): Effect {
    match turn
    case OffWait =>
      if yes then PowerTo(OffSleepTest, m.(token := false), Some(Acquire(t))) else PowerTo(OffWait, m, None)
    case OffSleepTest => PowerTo(if m.status == Ok then OffSleepSet else OnWakeTest, m, None)
    case OffSleepSet => PowerTo(OnWakeTest, m.(status := Sleep), None)
    case OnWakeTest => PowerTo(if m.status == Sleep then OnWakeSet else OnSignal, m, None)
    case OnWakeSet => PowerTo(OnSignal, m.(status := Ok), None)
    case OnSignal => PowerTo(OffWait, m.(token := true), Some(Release(t)))
  }

  function Move(t: nat, pc: Pc, m: Shared, yes: bool): Effect
    requires CanMove(pc, m, yes)
  {
    match pc
    case Stream(at) => StreamMove(t, at, m, yes)
    case Shell(call) => ShellMove(t, call, m, yes)
    case Power(turn) => PowerMove(t, turn, m, yes)
  }

  // ---------------------------------------------------------------- runs

  datatype State = State(shared: Shared, pcs: map<nat, Pc>, trace: seq<Event>)

  const STREAM: nat := 0

  /** `HC12__thread_init`: status NOK, semaphore free, SET at whatever level it powers up. */
  ghost predicate Init(s: State) {
    && s.shared.status == Nok && s.shared.token
    && s.trace == []
    && STREAM in s.pcs && s.pcs[STREAM] == Stream(Boot)
    && forall t | t in s.pcs && t != STREAM :: s.pcs[t] == Shell(ShellIdle) || s.pcs[t] == Power(OffWait)
  }

  datatype Choice = Choice(t: nat, yes: bool)

  predicate Enabled(s: State, c: Choice) {
    c.t in s.pcs && CanMove(s.pcs[c.t], s.shared, c.yes)
  }

  function Next(s: State, c: Choice): State
    requires Enabled(s, c)
  {
    var e := Move(c.t, s.pcs[c.t], s.shared, c.yes);
    State(e.shared, s.pcs[c.t := e.pc], if e.event.Some? then s.trace + [e.event.value] else s.trace)
  }

  predicate Possible(s: State, run: seq<Choice>)
    decreases |run|
  {
    run == [] || (Enabled(s, run[0]) && Possible(Next(s, run[0]), run[1..]))
  }

  function After(s: State, run: seq<Choice>): State
    requires Possible(s, run)
    decreases |run|
  {
    if run == [] then s else After(Next(s, run[0]), run[1..])
  }

  // ---------------------------------------------------------------- the rules of the bus

  /**
   What a trace says about the bus: who holds the semaphore, the SET level (unknown before the
   first time it is driven), how many configuration commands of the current session have been sent
   and replied to, whether the radio has ever answered a ping, and the threads whose session had
   every command replied to and who have not yet reported it.
   */
  datatype Bus = Bus(
    holder: Option<nat>, line: Option<bool>, sent: nat, replied: nat, heard: bool, complete: set<nat>)

  const PowerUp: Bus := Bus(None, None, 0, 0, false, {})

  /**
   The rules: the semaphore is taken when free and given back by its holder; SET is driven by
   the holder, or raised once at boot; data goes out with SET high and AT text with SET low, both
   from the holder; configuration commands go out in order, each after the reply to the one before;
   apart from pings nothing is written before the radio has answered once; and success is reported,
   by a thread that no longer holds the semaphore, exactly for a complete session.
   */
  predicate Allowed(bus: Bus, e: Event) {
    match e
    case Acquire(t) => bus.holder == None
    case Release(t) => bus.holder == Some(t)
    case SetLine(t, high) => bus.holder == Some(t) || (bus.line == None && high)
    case WriteData(t) => bus.holder == Some(t) && bus.line == Some(true) && bus.heard
    case WritePing(t) => bus.holder == Some(t) && bus.line == Some(false)
    case Answered(t) => bus.holder == Some(t) && bus.line == Some(false)
    case WriteConfig(t, k) =>
      bus.holder == Some(t) && bus.line == Some(false) && k == bus.sent == bus.replied && bus.heard
    case Replied(t, k) => bus.holder == Some(t) && bus.line == Some(false) && bus.sent == k + 1 && bus.replied == k
    case Returned(t, done) => bus.holder != Some(t) && (done <==> t in bus.complete)
  }

  function Observe(bus: Bus, e: Event): Bus {
    match e
    case Acquire(t) => bus.(holder := Some(t), sent := 0, replied := 0, complete := bus.complete - {t})
    case Release(t) =>
      var all := bus.sent == bus.replied == CONFIG_COMMANDS;
      bus.(holder := None, complete := if all then bus.complete + {t} else bus.complete - {t})
    case SetLine(t, high) => bus.(line := Some(high))
    case Answered(t) => bus.(heard := true)
    case WriteConfig(t, k) => bus.(sent := k + 1)
    case Replied(t, k) => bus.(replied := k + 1)
    case Returned(t, done) => bus.(complete := bus.complete - {t})
    case _ => bus
  }

  /** The bus after a trace, if every event of it was allowed. */
  function Replay(trace: seq<Event>): Option<Bus> {
    if trace == [] then Some(PowerUp)
    else
      var n := |trace| - 1;
      var before := Replay(trace[..n]);
      if before.Some? && Allowed(before.value, trace[n]) then Some(Observe(before.value, trace[n])) else None
  }

  lemma ReplaySnoc(trace: seq<Event>, e: Event)
    requires Replay(trace).Some? && Allowed(Replay(trace).value, e)
    ensures Replay(trace + [e]) == Some(Observe(Replay(trace).value, e))
  {
    assert (trace + [e])[..|trace|] == trace;
  }

  // ---------------------------------------------------------------- invariant

  /** What the bus must look like to a thread at `pc`. */
  ghost predicate Fits(t: nat, pc: Pc, bus: Bus) {
    && (Holding(pc) <==> bus.holder == Some(t))
    && (InProgMode(pc) ==> bus.line == Some(false))
    && (Holding(pc) && !InProgMode(pc) ==> bus.line != Some(false))
    && (Holding(pc) ==> Progress(pc, bus.sent, bus.replied))
    && (t in bus.complete <==> pc == Shell(ConfigReturn(true)))
  }

  /** How far the session of a holder at `pc` is. */
  ghost predicate Progress(pc: Pc, sent: nat, replied: nat) {
    match pc
    case Shell(ConfigAt(k)) => sent == replied == k < CONFIG_COMMANDS
    case Shell(ConfigReply(k)) => sent == k + 1 <= CONFIG_COMMANDS && replied == k
    case Shell(ConfigNormal(done)) => done <==> sent == replied == CONFIG_COMMANDS
    case Shell(ConfigSignal(done)) => done <==> sent == replied == CONFIG_COMMANDS
    case _ => sent == replied == 0
  }

  ghost predicate Booting(s: State) {
    STREAM in s.pcs && s.pcs[STREAM] == Stream(Boot)
  }

  ghost predicate Inv(s: State) {
    && Replay(s.trace).Some?
    && var bus := Replay(s.trace).value;
    && STREAM in s.pcs
    && (forall t | t in s.pcs :: s.pcs[t].Stream? <==> t == STREAM)
    && (s.shared.token <==> bus.holder == None)
    && (bus.holder.Some? ==> bus.holder.value in s.pcs)
    && (forall t | t in s.pcs :: Fits(t, s.pcs[t], bus))
    && (bus.holder == None ==> bus.line != Some(false))
    && (Booting(s) <==> bus.line == None)
    && (Booting(s) ==> !bus.heard)
    && (!bus.heard ==> s.shared.status == Nok && forall t | t in s.pcs :: Early(s.pcs[t]))
    && (!Booting(s) ==> bus.line == Some(s.shared.line))
  }

  /** What a thread may rely on when it moves. */
  ghost predicate Ready(t: nat, pc: Pc, m: Shared, bus: Bus) {
    && Fits(t, pc, bus)
    && (m.token <==> bus.holder == None)
    && (bus.holder == None ==> bus.line != Some(false))
    && (bus.line == None ==> !bus.heard && (pc == Stream(Boot) || !pc.Stream?))
    && (!bus.heard ==> m.status == Nok && Early(pc))
    && (bus.line != None ==> pc != Stream(Boot) && bus.line == Some(m.line))
  }

  /** What a move does: an allowed event at most, and nothing behind the back of the holder. */
  ghost predicate MovesWell(t: nat, pc: Pc, e: Effect, bus: Bus) {
    var after := if e.event.Some? then Observe(bus, e.event.value) else bus;
    && (e.event.Some? ==> Allowed(bus, e.event.value))
    && Fits(t, e.pc, after)
    && (e.shared.token <==> after.holder == None)
    && (after.holder == None ==> after.line != Some(false))
    && (after.holder == bus.holder || after.holder == Some(t) || (after.holder == None && bus.holder == Some(t)))
    && (bus.holder.Some? && bus.holder != Some(t) ==> HolderUndisturbed(pc, bus, after))
    && after.complete - {t} == bus.complete - {t}
    && (after.line == None ==> bus.line == None && !pc.Stream?)
    && (bus.heard ==> after.heard)
    && (!after.heard ==> Early(e.pc) && e.shared.status == Nok)
    && (after.line == None ==> !after.heard)
    && (after.line != None ==> after.line == Some(e.shared.line))
    && (pc == Stream(Boot) ==> after.line == Some(true))
    && (pc != Stream(Boot) && bus.line == None ==> after.line == None)
    && (e.pc.Stream? <==> pc.Stream?) && e.pc != Stream(Boot)
  }

  /** Another thread holds the bus: it stays as it is, except that SET may be raised at boot. */
  ghost predicate HolderUndisturbed(pc: Pc, bus: Bus, after: Bus) {
    && after.holder == bus.holder && after.sent == bus.sent && after.replied == bus.replied
    && after.heard == bus.heard && (pc != Stream(Boot) ==> after.line == bus.line)
  }

  lemma StreamHolderMovesWell(t: nat, pc: Pc, m: Shared, yes: bool, bus: Bus)
    requires CanMove(pc, m, yes) && Ready(t, pc, m, bus) && pc.Stream? && Holding(pc)
    ensures MovesWell(t, pc, Move(t, pc, m, yes), bus)
  {
  }

  lemma StreamOutsideMovesWell(t: nat, pc: Pc, m: Shared, yes: bool, bus: Bus)
    requires CanMove(pc, m, yes) && Ready(t, pc, m, bus) && pc.Stream? && !Holding(pc)
    ensures MovesWell(t, pc, Move(t, pc, m, yes), bus)
  {
  }

  lemma ShellHolderMovesWell(t: nat, pc: Pc, m: Shared, yes: bool, bus: Bus)
    requires CanMove(pc, m, yes) && Ready(t, pc, m, bus) && pc.Shell? && Holding(pc)
    ensures MovesWell(t, pc, Move(t, pc, m, yes), bus)
  {
  }

  lemma ShellOutsideMovesWell(t: nat, pc: Pc, m: Shared, yes: bool, bus: Bus)
    requires CanMove(pc, m, yes) && Ready(t, pc, m, bus) && pc.Shell? && !Holding(pc)
    ensures MovesWell(t, pc, Move(t, pc, m, yes), bus)
  {
  }

  lemma PowerHolderMovesWell(t: nat, pc: Pc, m: Shared, yes: bool, bus: Bus)
    requires CanMove(pc, m, yes) && Ready(t, pc, m, bus) && pc.Power? && Holding(pc)
    ensures MovesWell(t, pc, Move(t, pc, m, yes), bus)
  {
  }

  lemma PowerOutsideMovesWell(t: nat, pc: Pc, m: Shared, yes: bool, bus: Bus)
    requires CanMove(pc, m, yes) && Ready(t, pc, m, bus) && pc.Power? && !Holding(pc)
    ensures MovesWell(t, pc, Move(t, pc, m, yes), bus)
  {
  }

  lemma EveryMoveWell(t: nat, pc: Pc, m: Shared, yes: bool, bus: Bus)
    requires CanMove(pc, m, yes) && Ready(t, pc, m, bus)
    ensures MovesWell(t, pc, Move(t, pc, m, yes), bus)
  {
    hide *;
    match pc
    case Stream(_) =>
      if Holding(pc) {
        StreamHolderMovesWell(t, pc, m, yes, bus);
      } else {
        StreamOutsideMovesWell(t, pc, m, yes, bus);
      }
    case Shell(_) =>
      if Holding(pc) {
        ShellHolderMovesWell(t, pc, m, yes, bus);
      } else {
        ShellOutsideMovesWell(t, pc, m, yes, bus);
      }
    case Power(_) =>
      if Holding(pc) {
        PowerHolderMovesWell(t, pc, m, yes, bus);
      } else {
        PowerOutsideMovesWell(t, pc, m, yes, bus);
      }
  }

  lemma OthersStillFit(u: nat, pcU: Pc, t: nat, pc: Pc, bus: Bus, after: Bus)
    requires u != t && Fits(u, pcU, bus)
    requires after.holder == bus.holder || after.holder == Some(t) || (after.holder == None && bus.holder == Some(t))
    requires bus.holder.Some? && bus.holder != Some(t) ==> HolderUndisturbed(pc, bus, after)
    requires after.complete - {t} == bus.complete - {t}
    requires pc == Stream(Boot) ==> after.line == Some(true) && bus.line == None && Early(pcU)
    ensures Fits(u, pcU, after)
  {
    assert u in after.complete <==> u in after.complete - {t};
    assert u in bus.complete <==> u in bus.complete - {t};
  }

  lemma InitInv(s: State)
    requires Init(s)
    ensures Inv(s)
  {
  }

  lemma InvReady(s: State, t: nat)
    requires Inv(s) && t in s.pcs
    ensures Ready(t, s.pcs[t], s.shared, Replay(s.trace).value)
  {
    hide Replay, Fits, Early;
  }

  lemma StepKeepsInv(s: State, c: Choice)
    requires Inv(s) && Enabled(s, c)
    ensures Inv(Next(s, c))
  {
    hide Move, Observe, Allowed, Replay, CanMove, Early, Holding, InProgMode, Progress;
    var t, pc, bus := c.t, s.pcs[c.t], Replay(s.trace).value;
    var e := Move(t, pc, s.shared, c.yes);
    var next := Next(s, c);
    InvReady(s, t);
    EveryMoveWell(t, pc, s.shared, c.yes, bus);
    var after := if e.event.Some? then Observe(bus, e.event.value) else bus;
    if e.event.Some? {
      ReplaySnoc(s.trace, e.event.value);
    }
    assert Replay(next.trace) == Some(after);
    forall u | u in next.pcs ensures Fits(u, next.pcs[u], after) {
      if u != t {
        OthersStillFit(u, s.pcs[u], t, pc, bus, after);
      }
    }
  }

  lemma {:induction false} RunKeepsInv(s: State, run: seq<Choice>)
    requires Inv(s) && Possible(s, run)
    ensures Inv(After(s, run))
    decreases |run|
  {
    if run != [] {
      StepKeepsInv(s, run[0]);
      RunKeepsInv(Next(s, run[0]), run[1..]);
    }
  }

  // ---------------------------------------------------------------- results

  /**
   In every interleaving of the stream thread with any number of shells and power threads, the
   trace obeys the rules of the bus; nobody holds the semaphore exactly when its token is there,
   and the holder in the trace is the one thread inside its critical section.
   */
  lemma EveryRunObeysTheBus(s: State, run: seq<Choice>)
    requires Init(s) && Possible(s, run)
    ensures var r := After(s, run);
      && Replay(r.trace).Some?
      && (r.shared.token <==> Replay(r.trace).value.holder == None)
      && forall t | t in r.pcs :: Holding(r.pcs[t]) <==> Replay(r.trace).value.holder == Some(t)
  {
    InitInv(s);
    RunKeepsInv(s, run);
    var r := After(s, run);
    forall t | t in r.pcs ensures Holding(r.pcs[t]) <==> Replay(r.trace).value.holder == Some(t) {
      assert Fits(t, r.pcs[t], Replay(r.trace).value);
    }
  }

  function Count(trace: seq<Event>, e: Event): nat {
    if trace == [] then 0 else Count(trace[..|trace| - 1], e) + if trace[|trace| - 1] == e then 1 else 0
  }

  /** On any trace that obeys the rules, a thread has released as often as it has acquired. */
  lemma {:induction false} AcquiresAreReleased(trace: seq<Event>, t: nat)
    requires Replay(trace).Some?
    ensures Count(trace, Acquire(t))
         == Count(trace, Release(t)) + if Replay(trace).value.holder == Some(t) then 1 else 0
    decreases |trace|
  {
    if trace != [] {
      AcquiresAreReleased(trace[..|trace| - 1], t);
    }
  }

  /** Outside its critical section a thread has given back every acquisition, on every path. */
  lemma EveryAcquireReleasedOnce(s: State, run: seq<Choice>, t: nat)
    requires Init(s) && Possible(s, run) && t in After(s, run).pcs
    ensures var r := After(s, run);
      Count(r.trace, Acquire(t)) == Count(r.trace, Release(t)) + if Holding(r.pcs[t]) then 1 else 0
  {
    EveryRunObeysTheBus(s, run);
    AcquiresAreReleased(After(s, run).trace, t);
  }

  /** Own steps a holder still takes, at most, before it gives the semaphore back. */
  function StepsToRelease(pc: Pc): nat {
    match pc
    case Stream(CheckProg) => 5
    case Stream(CheckPing) => 4
    case Stream(CheckReply) => 3
    case Stream(CheckNormal) => 2
    case Stream(CheckSignal) => 1
    case Stream(SendFrame) => 3
    case Stream(SendEnd) => 2
    case Stream(SendSignal) => 1
    case Shell(ConfigProg) => 3 + 2 * CONFIG_COMMANDS
    case Shell(ConfigAt(k)) => if k < CONFIG_COMMANDS then 2 + 2 * (CONFIG_COMMANDS - k) else 2
    case Shell(ConfigReply(k)) => if k < CONFIG_COMMANDS then 1 + 2 * (CONFIG_COMMANDS - k) else 1
    case Shell(ConfigNormal(_)) => 2
    case Shell(ConfigSignal(_)) => 1
    case Power(OffSleepTest) => 5
    case Power(OffSleepSet) => 4
    case Power(OnWakeTest) => 3
    case Power(OnWakeSet) => 2
    case Power(OnSignal) => 1
    case _ => 0
  }

  lemma MoveToRelease(t: nat, pc: Pc, m: Shared, yes: bool)
    requires Holding(pc)
    requires pc.Shell? && (pc.call.ConfigAt? || pc.call.ConfigReply?) ==> pc.call.k < CONFIG_COMMANDS
    ensures CanMove(pc, m, yes)
    ensures StepsToRelease(Move(t, pc, m, yes).pc) < StepsToRelease(pc)
    ensures Holding(Move(t, pc, m, yes).pc) <==> StepsToRelease(Move(t, pc, m, yes).pc) > 0
  {
  }

  /** A holder is never blocked, and each of its own steps brings the release nearer. */
  lemma HolderMovesToRelease(s: State, t: nat, yes: bool)
    requires Inv(s) && t in s.pcs && Holding(s.pcs[t])
    ensures Enabled(s, Choice(t, yes))
    ensures StepsToRelease(Next(s, Choice(t, yes)).pcs[t]) < StepsToRelease(s.pcs[t])
    ensures Holding(Next(s, Choice(t, yes)).pcs[t]) <==> StepsToRelease(Next(s, Choice(t, yes)).pcs[t]) > 0
  {
    var pc := s.pcs[t];
    assert Fits(t, pc, Replay(s.trace).value);
    hide Inv, Replay, Move, Holding, StepsToRelease, CanMove, InProgMode;
    MoveToRelease(t, pc, s.shared, yes);
  }

  // ---------------------------------------------------------------- reported success

  /** Between the two positions nobody takes or gives back the semaphore. */
  ghost predicate OneSession(trace: seq<Event>, from: nat, to: nat) {
    forall i | from < i < to && i < |trace| :: !trace[i].Acquire? && !trace[i].Release?
  }

  /** At positions `ps`, in this order: command 0, its reply, command 1, its reply, and so on. */
  ghost predicate Exchange(trace: seq<Event>, t: nat, ps: seq<nat>, from: nat, to: nat) {
    && (forall i | 0 <= i < |ps| :: from < ps[i] < to && ps[i] < |trace|)
    && (forall i | 0 <= i < |ps| ::
          trace[ps[i]] == if i % 2 == 0 then WriteConfig(t, i / 2) else Replied(t, i / 2))
    && (forall i, j | 0 <= i < j < |ps| :: ps[i] < ps[j])
  }

  lemma ExchangeGrows(front: seq<Event>, e: Event, t: nat, ps: seq<nat>, from: nat)
    requires Exchange(front, t, ps, from, |front|) && OneSession(front, from, |front|)
    requires !e.Acquire? && !e.Release?
    ensures Exchange(front + [e], t, ps, from, |front| + 1) && OneSession(front + [e], from, |front| + 1)
    ensures from < |front| && e == (if |ps| % 2 == 0 then WriteConfig(t, |ps| / 2) else Replied(t, |ps| / 2)) ==>
              Exchange(front + [e], t, ps + [|front|], from, |front| + 1)
  {
  }

  /** On a trace within the rules, the holder's session since it took the semaphore. */
  lemma {:induction false} SessionSoFar(trace: seq<Event>, t: nat) returns (from: nat, ps: seq<nat>)
    requires Replay(trace).Some? && Replay(trace).value.holder == Some(t)
    ensures from < |trace| && trace[from] == Acquire(t) && OneSession(trace, from, |trace|)
    ensures Exchange(trace, t, ps, from, |trace|)
    ensures var bus := Replay(trace).value;
      |ps| == bus.sent + bus.replied && (bus.sent == bus.replied || bus.sent == bus.replied + 1)
    decreases |trace|
  {
    var n := |trace| - 1;
    var front, e := trace[..n], trace[n];
    assert trace == front + [e];
    if e.Acquire? {
      from, ps := n, [];
    } else {
      from, ps := SessionSoFar(front, t);
      ExchangeGrows(front, e, t, ps, from);
      if e.WriteConfig? || e.Replied? {
        ps := ps + [n];
      }
    }
  }

  /** A complete session that has not been reported yet: every command in order, each with its reply. */
  lemma {:induction false} CompleteSession(trace: seq<Event>, t: nat) returns (from: nat, to: nat, ps: seq<nat>)
    requires Replay(trace).Some? && t in Replay(trace).value.complete
    ensures from < to < |trace| && trace[from] == Acquire(t) && trace[to] == Release(t)
    ensures OneSession(trace, from, to) && Exchange(trace, t, ps, from, to) && |ps| == 2 * CONFIG_COMMANDS
    ensures forall i | to < i < |trace| :: trace[i] != Acquire(t) && trace[i] != Returned(t, true)
    decreases |trace|
  {
    var n := |trace| - 1;
    var front, e := trace[..n], trace[n];
    assert trace == front + [e];
    if e == Release(t) {
      from, ps := SessionSoFar(front, t);
      to := n;
    } else {
      from, to, ps := CompleteSession(front, t);
    }
  }

  lemma {:induction false} ReplayPrefix(trace: seq<Event>, n: nat)
    requires Replay(trace).Some? && n < |trace|
    ensures Replay(trace[..n]).Some? && Allowed(Replay(trace[..n]).value, trace[n])
    decreases |trace|
  {
    if n < |trace| - 1 {
      ReplayPrefix(trace[..|trace| - 1], n);
      assert trace[..|trace| - 1][..n] == trace[..n];
    }
  }

  /** Success at position n of a trace: one whole session of the thread, not reported before. */
  ghost predicate Justified(trace: seq<Event>, t: nat, n: nat, from: nat, to: nat, ps: seq<nat>) {
    && from < to < n <= |trace| && trace[from] == Acquire(t) && trace[to] == Release(t)
    && OneSession(trace, from, to) && Exchange(trace, t, ps, from, to) && |ps| == 2 * CONFIG_COMMANDS
    && forall i | to < i < n :: trace[i] != Acquire(t) && trace[i] != Returned(t, true)
  }

  lemma JustifiedLater(trace: seq<Event>, t: nat, n: nat, from: nat, to: nat, ps: seq<nat>)
    requires n <= |trace| && Justified(trace[..n], t, n, from, to, ps)
    ensures Justified(trace, t, n, from, to, ps)
  {
    forall i | from < i < to ensures !trace[i].Acquire? && !trace[i].Release? {
      assert trace[..n][i] == trace[i];
    }
    forall i | 0 <= i < |ps| ensures trace[ps[i]] == trace[..n][ps[i]] {
    }
  }

  /**
   Whenever a reconfiguration returns success, in any interleaving: it held the semaphore for one
   session of its own, since its last report, in which the four commands went out in order and
   each was replied to before the next.
   */
  lemma SuccessMeansAllReplied(s: State, run: seq<Choice>, n: nat, t: nat) returns (from: nat, to: nat, ps: seq<nat>)
    requires Init(s) && Possible(s, run)
    requires n < |After(s, run).trace| && After(s, run).trace[n] == Returned(t, true)
    ensures Justified(After(s, run).trace, t, n, from, to, ps)
  {
    EveryRunObeysTheBus(s, run);
    var trace := After(s, run).trace;
    hide Init, After, Possible, Replay, Exchange, OneSession, Holding;
    ReplayPrefix(trace, n);
    from, to, ps := CompleteSession(trace[..n], t);
    JustifiedLater(trace, t, n, from, to, ps);
  }
}
