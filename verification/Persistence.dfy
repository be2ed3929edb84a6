/**
 The configuration store: the data EEPROM behind its lock, the configuration record saved in it,
 and the sensor intervals that survive a reboot.
 */
module Persistence {
  import opened Types

  // ---------------------------------------------------------------- EEPROM driver

  datatype EepromState = NotInit | Ready | ActiveWrite | Unlocked | Failed

  /** Memory after writing `data` at `addr`, for the bytes whose wait came back in time. */
  function Written(mem: seq<byte>, addr: nat, data: seq<byte>, inTime: seq<bool>): (r: seq<byte>)
    requires addr + |data| <= |mem| && |inTime| == |data|
    ensures |r| == |mem|
  {
    if data == [] then mem
    else
      var n := |data| - 1;
      var before := Written(mem, addr, data[..n], inTime[..n]);
      if inTime[n] then before[addr + n := data[n]] else before
  }

  /** A write touches no byte but its own, and each of those only if its wait came back in time. */
  lemma {:induction false} WrittenAt(mem: seq<byte>, addr: nat, data: seq<byte>, inTime: seq<bool>, k: nat)
    requires addr + |data| <= |mem| && |inTime| == |data| && k < |mem|
    ensures Written(mem, addr, data, inTime)[k]
         == if addr <= k < addr + |data| && inTime[k - addr] then data[k - addr] else mem[k]
  {
    if data != [] {
      var n := |data| - 1;
      WrittenAt(mem, addr, data[..n], inTime[..n], k);
    }
  }

  /**
   Memory after a whole write: the first wait is the one to unlock, the last the one to lock. A
   lock that is closed and stays closed lets nothing through.
   */
  function Programmed(mem: seq<byte>, addr: nat, data: seq<byte>, inTime: seq<bool>, locked: bool): (r: seq<byte>)
    requires addr + |data| <= |mem| && |inTime| == |data| + 2
    ensures |r| == |mem|
  {
    if inTime[0] || !locked then Written(mem, addr, data, inTime[1..|data| + 1]) else mem
  }

  /** The state after a whole write, which only the last wait decides. */
  function Finally(inTime: seq<bool>): EepromState
    requires inTime != []
  {
    if inTime[|inTime| - 1] then Ready else Failed
  }

  /** Byte i was let through in time, or was in the memory before. */
  ghost predicate Taken(mem: seq<byte>, addr: nat, data: seq<byte>, inTime: seq<bool>, locked: bool, i: nat)
    requires addr + |data| <= |mem| && |inTime| == |data| + 2 && i < |data|
  {
    ((inTime[0] || !locked) && inTime[i + 1]) || mem[addr + i] == data[i]
  }

  /** The bytes read back are the bytes written exactly when each of them was taken. */
  lemma ReadBackIff(mem: seq<byte>, addr: nat, data: seq<byte>, inTime: seq<bool>, locked: bool)
    requires addr + |data| <= |mem| && |inTime| == |data| + 2
    ensures Programmed(mem, addr, data, inTime, locked)[addr..addr + |data|] == data
       <==> forall i | 0 <= i < |data| :: Taken(mem, addr, data, inTime, locked, i)
  {
    var r, waits := Programmed(mem, addr, data, inTime, locked), inTime[1..|data| + 1];
    forall i | 0 <= i < |data|
      ensures r[addr..addr + |data|][i] == data[i] <==> Taken(mem, addr, data, inTime, locked, i)
    {
      WrittenAt(mem, addr, data, waits, addr + i);
    }
  }

  /**
   Two ways to lose data and end ready all the same: the wait to unlock times out, or the wait of
   a byte does.
   */
  lemma LostWriteEndsReady()
    ensures Programmed([0], 0, [7], [false, true, true], true) == [0] && Finally([false, true, true]) == Ready
    ensures Programmed([0], 0, [7], [true, false, true], true) == [0] && Finally([true, false, true]) == Ready
  {
    WrittenAt([0], 0, [7], [false], 0);
    assert [true, false, true][1..2] == [false];
  }

  /** The driver; each wait for the flash either comes back in time or times out. */
  class Eeprom {
    var state: EepromState
    var locked: bool
    const mem: array<byte>

    /** Power-up: the contents survive and the lock is closed. */
    constructor (mem: array<byte>)
      ensures this.mem == mem && state == NotInit && locked
    {
      this.mem := mem;
      state, locked := NotInit, true;
    }

    /** `EEPROM__init` */
    method Init()
      modifies this`state
      ensures state == Ready
    {
      state := Ready;
    }

    /** `unlockEeprom` */
    method Unlock(inTime: bool)
      modifies this
      ensures locked == (old(locked) && !inTime)
      ensures state == if !inTime then Failed else if old(locked) then Unlocked else old(state)
    {
      if !inTime {
        state := Failed;
        return;
      }
      if locked {
        locked := false;
        state := Unlocked;
      }
    }

    /** `eepromProgram`; the hardware ignores writes while the lock is closed. */
    method Program(addr: nat, data: byte, inTime: bool)
      requires addr < mem.Length
      modifies this`state, mem
      ensures state == if inTime then old(state) else Failed
      ensures mem[..] == if inTime && !locked then old(mem[..])[addr := data] else old(mem[..])
    {
      if !inTime {
        state := Failed;
        return;
      }
      if !locked {
        mem[addr] := data;
      }
    }

    /** `lockEeprom`, always called with EEPROM_READY. */
    method Lock(inTime: bool)
      modifies this`state, this`locked
      ensures state == if inTime then Ready else Failed
      ensures locked == (inTime || old(locked))
    {
      if !inTime {
        state := Failed;
        return;
      }
      locked := true;
      state := Ready;
    }

    /**
     `writeRegistersToEeprom`, whatever the waits do: what is read back is what was written exactly
     when every byte was taken. The driver is ready afterwards only with the lock closed.
     */
    method Write(addr: nat, data: seq<byte>, inTime: seq<bool>)
      requires addr + |data| <= mem.Length && |inTime| == |data| + 2
      modifies this, mem
      ensures mem[..] == Programmed(old(mem[..]), addr, data, inTime, old(locked))
      ensures mem[addr..addr + |data|] == data
         <==> forall i | 0 <= i < |data| :: Taken(old(mem[..]), addr, data, inTime, old(locked), i)
      ensures state == Finally(inTime)
      ensures state == Ready ==> locked
    {
      state := ActiveWrite;
      Unlock(inTime[0]);
      ghost var start, open := mem[..], !locked;
      var i := 0;
      assert data[..0] == [] && inTime[1..1] == [];
      while i < |data|
        invariant 0 <= i <= |data| && open == !locked
        invariant mem[..] == if open then Written(start, addr, data[..i], inTime[1..i + 1]) else start
      {
        WrittenNext(start, addr, data, inTime[1..|data| + 1], i);
        assert inTime[1..|data| + 1][..i] == inTime[1..i + 1];
        assert inTime[1..|data| + 1][..i + 1] == inTime[1..i + 2];
        Program(addr + i, data[i], inTime[i + 1]);
        i := i + 1;
      }
      assert data[..|data|] == data;
      Lock(inTime[|data| + 1]);
      ReadBackIff(start, addr, data, inTime, old(locked));
      assert mem[addr..addr + |data|] == mem[..][addr..addr + |data|];
    }

    /** `eepromRead`: nothing is delivered when the wait times out. */
    method Read(addr: nat, size: nat, inTime: bool) returns (data: seq<byte>)
      requires addr + size <= mem.Length
      modifies this`state
      ensures data == if inTime then mem[addr..addr + size] else []
      ensures state == if inTime then old(state) else Failed
    {
      data := [];
      if !inTime {
        state := Failed;
        return;
      }
      var i := 0;
      while i < size
        invariant 0 <= i <= size
        invariant data == mem[addr..addr + i]
      {
        data := data + [mem[addr + i]];
        i := i + 1;
      }
    }
  }

  lemma WrittenNext(mem: seq<byte>, addr: nat, data: seq<byte>, inTime: seq<bool>, i: nat)
    requires i < |data| == |inTime| && addr + |data| <= |mem|
    ensures Written(mem, addr, data[..i + 1], inTime[..i + 1])
         == var before := Written(mem, addr, data[..i], inTime[..i]);
            if inTime[i] then before[addr + i := data[i]] else before
  {
    assert data[..i + 1][..i] == data[..i] && inTime[..i + 1][..i] == inTime[..i];
  }

  // ---------------------------------------------------------------- configuration record

  const SCHEDULE_LIST_SIZE: nat := 10
  const VERSION: byte := 3
  const DEFAULT_TASK_INTERVAL: uint16 := 300
  const CONFIG_BASE_ADDR: nat := 0
  const CONFIG_SIZE: nat := 22

  /** `appConfiguration_t` as the compiler lays it out: one padding byte behind the version. */
  datatype Config = Config(version: byte, pad: byte, intervals: seq<uint16>)

  ghost predicate Whole(c: Config) {
    |c.intervals| == SCHEDULE_LIST_SIZE
  }

  /** Little-endian words. */
  function WordBytes(words: seq<uint16>): (r: seq<byte>)
    ensures |r| == 2 * |words|
  {
    if words == [] then [] else [words[0] % 256, words[0] / 256] + WordBytes(words[1..])
  }

  function Words(bytes: seq<byte>): (r: seq<uint16>)
    requires |bytes| % 2 == 0
    ensures |r| == |bytes| / 2
  {
    if bytes == [] then []
    else
      var low: int, high: int := bytes[0], bytes[1];
      [low + 256 * high] + Words(bytes[2..])
  }

  lemma {:induction false} WordsRoundTrip(words: seq<uint16>)
    ensures Words(WordBytes(words)) == words
  {
    if words != [] {
      WordsRoundTrip(words[1..]);
      assert WordBytes(words)[2..] == WordBytes(words[1..]);
    }
  }

  function Image(c: Config): (r: seq<byte>)
    requires |c.intervals| == SCHEDULE_LIST_SIZE
    ensures |r| == CONFIG_SIZE
  {
    [c.version, c.pad] + WordBytes(c.intervals)
  }

  function FromImage(bytes: seq<byte>): (c: Config)
    requires |bytes| == CONFIG_SIZE
    ensures |c.intervals| == SCHEDULE_LIST_SIZE
  {
    Config(bytes[0], bytes[1], Words(bytes[2..]))
  }

  lemma ImageRoundTrip(c: Config)
    requires Whole(c)
    ensures FromImage(Image(c)) == c
  {
    WordsRoundTrip(c.intervals);
    assert Image(c)[2..] == WordBytes(c.intervals);
  }

  function Defaults(pad: byte): (c: Config)
    ensures |c.intervals| == SCHEDULE_LIST_SIZE
  {
    Config(VERSION, pad, seq(SCHEDULE_LIST_SIZE, _ => DEFAULT_TASK_INTERVAL))
  }

  /** The record after the version check in `main`. */
  function Checked(c: Config): (r: Config)
    requires |c.intervals| == SCHEDULE_LIST_SIZE
    ensures |r.intervals| == SCHEDULE_LIST_SIZE && r.version == VERSION
  {
    if c.version != VERSION then Defaults(c.pad) else c
  }

  /** The interval a task starts with: 0 stands for the default. */
  function Effective(interval: uint16): uint16 {
    if interval > 0 then interval else DEFAULT_TASK_INTERVAL
  }

  // ---------------------------------------------------------------- the station

  /** BMP280, VEML7700, ML8511 and Power: the enabled tasks and their ids. */
  const TASKS: set<nat> := {1, 2, 3, 4}

  /** Everything the configuration commands work on; `registered` are the tasks that have started. */
  datatype Unit = Unit(mem: seq<byte>, config: Config, tasks: seq<uint16>, registered: set<nat>)

  ghost predicate Wired(u: Unit) {
    && |u.mem| >= CONFIG_SIZE
    && Whole(u.config) && u.config.version == VERSION
    && |u.tasks| == SCHEDULE_LIST_SIZE && u.registered <= TASKS
    && forall id | id in TASKS :: u.tasks[id] == Effective(u.config.intervals[id])
  }

  function StartTasks(c: Config): (r: seq<uint16>)
    requires |c.intervals| == SCHEDULE_LIST_SIZE
    ensures |r| == SCHEDULE_LIST_SIZE
  {
    seq(SCHEDULE_LIST_SIZE, i requires 0 <= i < SCHEDULE_LIST_SIZE => Effective(c.intervals[i]))
  }

  /** Power-up with the given EEPROM contents, the read coming back in time. */
  function Booted(mem: seq<byte>): Unit
    requires |mem| >= CONFIG_SIZE
  {
    var c := Checked(FromImage(mem[..CONFIG_SIZE]));
    Unit(mem, c, StartTasks(c), {})
  }

  /** The arguments of the schedule command are cut to 8 bits; it accepts running tasks only. */
  predicate Accepts(u: Unit, id: int, interval: int) {
    id % 256 in u.registered && interval % 256 > 0
  }

  function Scheduled(u: Unit, id: int, interval: int): Unit
    requires Whole(u.config) && |u.tasks| == SCHEDULE_LIST_SIZE && u.registered <= TASKS
  {
    if Accepts(u, id, interval) then
      u.(tasks := u.tasks[id % 256 := interval % 256],
         config := u.config.(intervals := u.config.intervals[id % 256 := interval % 256]))
    else u
  }

  function Saved(u: Unit): Unit
    requires |u.mem| >= CONFIG_SIZE && Whole(u.config)
  {
    u.(mem := Image(u.config) + u.mem[CONFIG_SIZE..])
  }

  class Station {
    const eeprom: Eeprom
    var config: Config
    var tasks: seq<uint16>
    var registered: set<nat>

    ghost function View(): Unit
      reads this, eeprom.mem
    {
      Unit(eeprom.mem[..], config, tasks, registered)
    }

    ghost predicate Valid()
      reads this, eeprom, eeprom.mem
    {
      Wired(View()) && (eeprom.state == Ready ==> eeprom.locked)
    }

    /** `main`: load, check the version, start the tasks. A timed-out read leaves zeros to check. */
    constructor (mem: array<byte>, inTime: bool)
      requires mem.Length >= CONFIG_SIZE
      ensures Valid() && eeprom.mem == mem && fresh(eeprom) && mem[..] == old(mem[..])
      ensures View() == if inTime then Booted(mem[..])
                        else Unit(mem[..], Defaults(0), StartTasks(Defaults(0)), {})
    {
      eeprom := new Eeprom(mem);
      registered := {};
      config := Config(0, 0, seq(SCHEDULE_LIST_SIZE, _ => 0));
      tasks := [];
      new;
      eeprom.Init();
      var image := eeprom.Read(CONFIG_BASE_ADDR, CONFIG_SIZE, inTime);
      if inTime {
        assert image == mem[..][..CONFIG_SIZE];
        config := FromImage(image);
      }
      if config.version != VERSION {
        RestoreDefaults();
      }
      tasks := StartTasks(config);
    }

    /** The loop in `main` that repairs a record of another version. */
    method RestoreDefaults()
      requires Whole(config)
      modifies this`config
      ensures config == Defaults(old(config.pad))
    {
      config := config.(version := VERSION);
      var i := 0;
      while i < SCHEDULE_LIST_SIZE
        invariant 0 <= i <= SCHEDULE_LIST_SIZE && Whole(config)
        invariant config.version == VERSION && config.pad == old(config.pad)
        invariant forall k | 0 <= k < i :: config.intervals[k] == DEFAULT_TASK_INTERVAL
      {
        config := config.(intervals := config.intervals[i := DEFAULT_TASK_INTERVAL]);
        i := i + 1;
      }
    }

    /** An enabled task enters the schedule list when it starts. */
    method Register(id: nat)
      requires Valid() && id in TASKS
      modifies this`registered
      ensures Valid() && View() == old(View()).(registered := old(registered) + {id})
    {
      registered := registered + {id};
    }

    /** `cmd_sch` with two arguments; the sensor thread takes the interval while the shell waits. */
    method Schedule(arg0: int, arg1: int)
      requires Valid()
      modifies this`config, this`tasks
      ensures Valid() && View() == Scheduled(old(View()), arg0, arg1)
    {
      var id, interval := arg0 % 256, arg1 % 256;
      if id > 0 && id < SCHEDULE_LIST_SIZE && id in registered && interval > 0 {
        tasks := tasks[id := interval];
        config := config.(intervals := config.intervals[id := interval]);
      }
    }

    /** `cmd_save`: the record is what a reboot will find exactly when every byte was taken. */
    method Save(inTime: seq<bool>)
      requires Valid() && |inTime| == CONFIG_SIZE + 2
      modifies eeprom, eeprom.mem
      ensures Valid()
      ensures View() == Saved(old(View())) <==> forall i | 0 <= i < CONFIG_SIZE ::
                Taken(old(eeprom.mem[..]), CONFIG_BASE_ADDR, Image(config), inTime, old(eeprom.locked), i)
      ensures eeprom.state == Finally(inTime)
      ensures eeprom.mem[CONFIG_SIZE..] == old(eeprom.mem[CONFIG_SIZE..])
    {
      var image := Image(config);
      ghost var before := eeprom.mem[..];
      eeprom.Write(CONFIG_BASE_ADDR, image, inTime);
      RestKept(before, image, inTime[1..CONFIG_SIZE + 1]);
      OverlayIff(before, eeprom.mem[..], image);
    }
  }

  lemma RestKept(mem: seq<byte>, image: seq<byte>, waits: seq<bool>)
    requires |image| == |waits| == CONFIG_SIZE <= |mem|
    ensures Written(mem, 0, image, waits)[CONFIG_SIZE..] == mem[CONFIG_SIZE..]
  {
    var r := Written(mem, 0, image, waits);
    forall k | CONFIG_SIZE <= k < |mem| ensures r[k] == mem[k] {
      WrittenAt(mem, 0, image, waits, k);
    }
  }

  lemma OverlayIff(before: seq<byte>, after: seq<byte>, image: seq<byte>)
    requires |image| == CONFIG_SIZE <= |before| == |after|
    requires after[CONFIG_SIZE..] == before[CONFIG_SIZE..]
    ensures after == image + before[CONFIG_SIZE..] <==> after[..CONFIG_SIZE] == image
  {
    assert after == after[..CONFIG_SIZE] + after[CONFIG_SIZE..];
  }

  // ---------------------------------------------------------------- runs of commands

  datatype Action = DoSchedule(id: int, interval: int) | DoRegister(task: nat) | DoSave | DoReboot

  /** One action of the station, all flash waits coming back in time. */
  function Step(u: Unit, a: Action): Unit
    requires Whole(u.config) && |u.mem| >= CONFIG_SIZE && |u.tasks| == SCHEDULE_LIST_SIZE && u.registered <= TASKS
  {
    match a
    case DoSchedule(id, interval) => Scheduled(u, id, interval)
    case DoRegister(id) => if id in TASKS then u.(registered := u.registered + {id}) else u
    case DoSave => Saved(u)
    case DoReboot => Booted(u.mem)
  }

  lemma StepKeepsWired(u: Unit, a: Action)
    requires Wired(u)
    ensures Wired(Step(u, a))
  {
  }

  ghost function Run(u: Unit, run: seq<Action>): (r: Unit)
    requires Wired(u)
    ensures Wired(r)
    decreases |run|
  {
    if run == [] then u
    else
      StepKeepsWired(u, run[0]);
      Run(Step(u, run[0]), run[1..])
  }

  /** What a user expects: current intervals, and a saved copy that a reboot goes back to. */
  datatype Store = Store(saved: map<nat, uint16>, current: map<nat, uint16>, registered: set<nat>)

  function Expect(s: Store, a: Action): Store {
    match a
    case DoSchedule(id, interval) =>
      if id % 256 in s.registered && interval % 256 > 0 then s.(current := s.current[id % 256 := interval % 256]) else s
    case DoRegister(id) => if id in TASKS then s.(registered := s.registered + {id}) else s
    case DoSave => s.(saved := s.current)
    case DoReboot => s.(current := s.saved, registered := {})
  }

  function ExpectRun(s: Store, run: seq<Action>): Store
    decreases |run|
  {
    if run == [] then s else ExpectRun(Expect(s, run[0]), run[1..])
  }

  /** The intervals the tasks run with. */
  function Current(tasks: seq<uint16>): map<nat, uint16>
    requires |tasks| == SCHEDULE_LIST_SIZE
  {
    map id | id in TASKS :: tasks[id]
  }

  ghost function StoreOf(u: Unit): Store
    requires Wired(u)
  {
    Store(Current(Booted(u.mem).tasks), Current(u.tasks), u.registered)
  }

  lemma SaveStores(u: Unit)
    requires Wired(u)
    ensures Wired(Saved(u)) && Current(Booted(Saved(u).mem).tasks) == Current(u.tasks)
  {
    ImageRoundTrip(u.config);
    assert Saved(u).mem[..CONFIG_SIZE] == Image(u.config);
    assert Checked(u.config) == u.config;
  }

  lemma StepAsExpected(u: Unit, a: Action)
    requires Wired(u)
    ensures Wired(Step(u, a)) && StoreOf(Step(u, a)) == Expect(StoreOf(u), a)
  {
    StepKeepsWired(u, a);
    match a
    case DoSave => SaveStores(u);
    case DoSchedule(id, interval) =>
      if Accepts(u, id, interval) {
        assert Current(Step(u, a).tasks) == Current(u.tasks)[id % 256 := interval % 256];
      }
    case _ =>
  }

  /**
   Over any run of schedule commands, saves, task starts and reboots, from any EEPROM contents,
   every enabled task runs with the interval last set, and after a reboot with the one last saved.
   */
  lemma {:induction false} EveryRunAsExpected(u: Unit, run: seq<Action>)
    requires Wired(u)
    ensures Wired(Run(u, run)) && StoreOf(Run(u, run)) == ExpectRun(StoreOf(u), run)
    decreases |run|
  {
    if run != [] {
      StepAsExpected(u, run[0]);
      EveryRunAsExpected(Step(u, run[0]), run[1..]);
    }
  }

  /** The record byte by byte: version, a padding byte, and ten 16-bit intervals, low byte first. */
  lemma ImageLayout(c: Config, i: nat)
    requires Whole(c) && i < 10
    ensures var b := Image(c);
      |b| == 22 && b[0] == c.version && b[2 + 2 * i] as int + 256 * b[3 + 2 * i] as int == c.intervals[i]
  {
    WordBytesAt(c.intervals, i);
  }

  lemma {:induction false} WordBytesAt(words: seq<uint16>, i: nat)
    requires i < |words|
    ensures WordBytes(words)[2 * i] as int + 256 * WordBytes(words)[2 * i + 1] as int == words[i]
    decreases i
  {
    if i > 0 {
      WordBytesAt(words[1..], i - 1);
    }
  }

  /** What a station starts with: 300 s everywhere for another version than 3, and in place of a stored 0. */
  lemma BootIntervals(mem: seq<byte>, id: nat)
    requires |mem| >= 22 && 1 <= id <= 4
    ensures var stored := mem[2 + 2 * id] as int + 256 * mem[3 + 2 * id] as int;
      Booted(mem).tasks[id] == if mem[0] != 3 || stored == 0 then 300 else stored
  {
    var image := mem[..CONFIG_SIZE];
    assert image[0] == mem[0];
    WordsAt(image[2..], id);
    assert image[2..][2 * id] == mem[2 + 2 * id] && image[2..][2 * id + 1] == mem[3 + 2 * id];
  }

  lemma {:induction false} WordsAt(bytes: seq<byte>, i: nat)
    requires |bytes| % 2 == 0 && 2 * i + 1 < |bytes|
    ensures Words(bytes)[i] == bytes[2 * i] as int + 256 * bytes[2 * i + 1] as int
    decreases i
  {
    if i > 0 {
      WordsAt(bytes[2..], i - 1);
    }
  }

  /** Which schedule commands take effect: a started task 1 to 4, and an interval that is not 0 in its 8 bits. */
  lemma ScheduleTakesEffectIff(u: Unit, id: nat, interval: nat, other: nat)
    requires Wired(u) && id < 256 && other in {1, 2, 3, 4}
    ensures var t := Step(u, DoSchedule(id, interval));
      var accepted := id in u.registered && 1 <= id <= 4 && interval % 256 != 0;
      && |t.tasks| == 10
      && t.tasks[other] == (if accepted && other == id then interval % 256 else u.tasks[other])
      && t.mem == u.mem && t.registered == u.registered
  {
  }

  /** Only the tasks 1 to 4 can start. */
  lemma StartedTasks(u: Unit, id: nat)
    requires Wired(u)
    ensures Step(u, DoRegister(id)).registered == if 1 <= id <= 4 then u.registered + {id} else u.registered
  {
  }

  /** Saved and rebooted, the tasks have the intervals they had, however they were set before. */
  lemma RebootKeepsSavedIntervals(mem: seq<byte>, run: seq<Action>, later: seq<Action>)
    requires |mem| >= CONFIG_SIZE
    requires forall a | a in later :: a.DoSchedule? || a.DoRegister?
    ensures Wired(Booted(mem))
    ensures Current(Run(Booted(mem), run + ([DoSave] + later + [DoReboot])).tasks)
         == Current(Run(Booted(mem), run).tasks)
  {
    var u := Booted(mem);
    hide Run, Booted, ExpectRun, Current;
    var tail := [DoSave] + later + [DoReboot];
    EveryRunAsExpected(u, run);
    EveryRunAsExpected(u, run + tail);
    ExpectConcat(StoreOf(u), run, tail);
    SaveThenReboot(ExpectRun(StoreOf(u), run), later);
  }

  lemma SaveThenReboot(s: Store, later: seq<Action>)
    requires forall a | a in later :: a.DoSchedule? || a.DoRegister?
    ensures ExpectRun(s, [DoSave] + later + [DoReboot]).current == s.current
  {
    ExpectConcat(s, [DoSave] + later, [DoReboot]);
    ExpectConcat(s, [DoSave], later);
    ExpectOne(s, DoSave);
    var saved := Expect(s, DoSave);
    SavedUntouched(saved, later);
    ExpectOne(ExpectRun(saved, later), DoReboot);
  }

  lemma ExpectOne(s: Store, a: Action)
    ensures ExpectRun(s, [a]) == Expect(s, a)
  {
    assert [a][1..] == [];
  }

  lemma {:induction false} ExpectConcat(s: Store, a: seq<Action>, b: seq<Action>)
    ensures ExpectRun(s, a + b) == ExpectRun(ExpectRun(s, a), b)
    decreases |a|
  {
    if a == [] {
      assert a + b == b;
    } else {
      assert (a + b)[1..] == a[1..] + b;
      ExpectConcat(Expect(s, a[0]), a[1..], b);
    }
  }

  lemma {:induction false} SavedUntouched(s: Store, later: seq<Action>)
    requires forall a | a in later :: a.DoSchedule? || a.DoRegister?
    ensures ExpectRun(s, later).saved == s.saved
    decreases |later|
  {
    if later != [] {
      assert later[0] in later && forall a | a in later[1..] :: a in later;
      SavedUntouched(Expect(s, later[0]), later[1..]);
    }
  }
}
