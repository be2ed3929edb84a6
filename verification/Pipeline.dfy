/**
 The transmit pipeline: any number of producer threads take buffers from a fixed pool, fill
 them and post them without looking at the result; one consumer sends each buffer and frees it.
 The threads are interleaved step by step.
 */
module Pipeline {
  import opened Types
  import Msp

  type Bytes = seq<bv8>

  const LINE_END: Bytes := [0x0a, 0x0d]

  datatype Buffer = Buffer(message: Bytes, size: nat)

  /** A buffer of the pool's object size, filled to at most that size. */
  predicate FitsPool(x: Buffer) {
    |x.message| == Msp.STREAM_MESSAGE_SIZE && x.size <= |x.message|
  }

  /** Where the consumer is between fetching a buffer and freeing it. */
  datatype Consumer =
    | Waiting
    | Fetched(buf: nat)
    | Sent(buf: nat)
    | HalfMarked(buf: nat)
    | Marked(buf: nat)
    | Ended(buf: nat)

  /**
   `pool` holds the buffers by address, `holds` the buffer each busy producer works on. `posted`
   and `wire` record the frames accepted by the mailbox and the writes to the radio; `failed`
   counts posts that found the mailbox full.
   */
  datatype State = State(
    pool: seq<Buffer>,
    capacity: nat,
    free: set<nat>,
    holds: map<nat, nat>,
    queue: seq<nat>,
    consumer: Consumer,
    posted: seq<Bytes>,
    wire: seq<Bytes>,
    failed: nat
  )

  function Frame(x: Buffer): Bytes
    requires FitsPool(x)
  {
    x.message[..x.size]
  }

  /** `shared_pools_init`: all buffers free, nothing queued. */
  ghost predicate Init(s: State) {
    && (forall b | 0 <= b < |s.pool| :: FitsPool(s.pool[b]))
    && (forall b :: b in s.free <==> 0 <= b < |s.pool|)
    && s.holds == map[] && s.queue == [] && s.consumer == Waiting
    && s.posted == [] && s.wire == [] && s.failed == 0
  }

  // ---------------------------------------------------------------- steps

  datatype Step =
    | Alloc(p: nat, b: nat)
    | Fill(p: nat, x: Buffer)
    | Post(p: nat)
    | Fetch
    | SendFrame
    | MarkFirst
    | MarkSecond
    | SendEnd
    | Free

  ghost predicate Enabled(s: State, a: Step) {
    match a
    case Alloc(p, b) => p !in s.holds && b in s.free
    case Fill(p, x) => p in s.holds && FitsPool(x)
    case Post(p) => p in s.holds
    case Fetch => s.consumer == Waiting && s.queue != []
    case SendFrame => s.consumer.Fetched?
    case MarkFirst => s.consumer.Sent?
    case MarkSecond => s.consumer.HalfMarked?
    case SendEnd => s.consumer.Marked?
    case Free => s.consumer.Ended?
  }

  ghost predicate Typed(s: State) {
    && (forall b | 0 <= b < |s.pool| :: FitsPool(s.pool[b]))
    && (forall b | b in s.free :: b < |s.pool|)
    && (forall p | p in s.holds :: s.holds[p] < |s.pool|)
    && (forall i | 0 <= i < |s.queue| :: s.queue[i] < |s.pool|)
    && (!s.consumer.Waiting? ==> s.consumer.buf < |s.pool|)
  }

  function Mark(x: Buffer, i: nat, c: bv8): Buffer
    requires FitsPool(x) && i < |x.message|
  {
    x.(message := x.message[i := c])
  }

  ghost function Next(s: State, a: Step): State
    requires Typed(s) && Enabled(s, a)
  {
    match a
    case Alloc(p, b) => s.(free := s.free - {b}, holds := s.holds[p := b])
    case Fill(p, x) => s.(pool := s.pool[s.holds[p] := x])
    case Post(p) =>
      if |s.queue| < s.capacity then
        s.(holds := s.holds - {p}, queue := s.queue + [s.holds[p]], posted := s.posted + [Frame(s.pool[s.holds[p]])])
      else
        s.(holds := s.holds - {p}, failed := s.failed + 1)
    case Fetch => s.(queue := s.queue[1..], consumer := Fetched(s.queue[0]))
    case SendFrame => s.(wire := s.wire + [Frame(s.pool[s.consumer.buf])], consumer := Sent(s.consumer.buf))
    case MarkFirst =>
      var b := s.consumer.buf;
      s.(pool := s.pool[b := Mark(s.pool[b], 0, 0x0a)], consumer := HalfMarked(b))
    case MarkSecond =>
      var b := s.consumer.buf;
      s.(pool := s.pool[b := Mark(s.pool[b], 1, 0x0d)], consumer := Marked(b))
    case SendEnd => s.(wire := s.wire + [s.pool[s.consumer.buf].message[..2]], consumer := Ended(s.consumer.buf))
    case Free => s.(free := s.free + {s.consumer.buf}, consumer := Waiting)
  }

  lemma NextTyped(s: State, a: Step)
    requires Typed(s) && Enabled(s, a)
    ensures Typed(Next(s, a)) && |Next(s, a).pool| == |s.pool| && Next(s, a).capacity == s.capacity
  {
  }

  /** A run is any sequence of steps, each possible in the state where it is taken. */
  ghost predicate Possible(s: State, run: seq<Step>)
    requires Typed(s)
    decreases |run|
  {
    run == [] || (Enabled(s, run[0]) && (NextTyped(s, run[0]); Possible(Next(s, run[0]), run[1..])))
  }

  ghost function After(s: State, run: seq<Step>): (r: State)
    requires Typed(s) && Possible(s, run)
    ensures Typed(r) && |r.pool| == |s.pool| && r.capacity == s.capacity
    decreases |run|
  {
    if run == [] then s
    else
      NextTyped(s, run[0]);
      After(Next(s, run[0]), run[1..])
  }

  // ---------------------------------------------------------------- ownership

  ghost function Holders(s: State, b: nat): set<nat> {
    set p | p in s.holds && s.holds[p] == b
  }

  /** In how many places a buffer is: free list, producers, mailbox, consumer. */
  ghost function Places(s: State, b: nat): nat {
    (if b in s.free then 1 else 0)
    + |Holders(s, b)|
    + multiset(s.queue)[b]
    + (if !s.consumer.Waiting? && s.consumer.buf == b then 1 else 0)
  }

  ghost predicate OnePlaceEach(s: State) {
    forall b | 0 <= b < |s.pool| :: Places(s, b) == 1
  }

  lemma HoldersAdd(s: State, p: nat, b: nat, c: nat)
    requires p !in s.holds
    ensures |Holders(s.(holds := s.holds[p := b]), c)| == |Holders(s, c)| + if b == c then 1 else 0
  {
    var t := s.(holds := s.holds[p := b]);
    assert Holders(t, c) == Holders(s, c) + if b == c then {p} else {};
  }

  lemma HoldersRemove(s: State, p: nat, c: nat)
    requires p in s.holds
    ensures |Holders(s, c)| == |Holders(s.(holds := s.holds - {p}), c)| + if s.holds[p] == c then 1 else 0
  {
    var t := s.(holds := s.holds - {p});
    assert Holders(s, c) == Holders(t, c) + if s.holds[p] == c then {p} else {};
  }

  /** Every step but a failed post leaves a buffer in exactly one place. */
  lemma StepKeepsPlace(s: State, a: Step, c: nat)
    requires Typed(s) && Enabled(s, a)
    requires a.Post? ==> |s.queue| < s.capacity
    requires Places(s, c) == 1
    ensures Places(Next(s, a), c) == 1
  {
    match a
    case Alloc(p, b) => HoldersAdd(s, p, b, c);
    case Post(p) =>
      HoldersRemove(s, p, c);
      assert multiset(s.queue + [s.holds[p]]) == multiset(s.queue) + multiset{s.holds[p]};
    case Fetch =>
      assert s.queue == [s.queue[0]] + s.queue[1..];
    case _ =>
  }

  /** A sequence without repetitions is no longer than a set it draws from. */
  lemma {:induction false} NoRepetitionBound(q: seq<nat>, all: set<nat>)
    requires forall i | 0 <= i < |q| :: q[i] in all && multiset(q)[q[i]] <= 1
    ensures |q| <= |all|
    decreases |q|
  {
    if q != [] {
      var head, rest := q[0], q[1..];
      assert q == [head] + rest;
      forall i | 0 <= i < |rest| ensures rest[i] in all - {head} && multiset(rest)[rest[i]] <= 1 {
        assert rest[i] == q[i + 1];
        assert rest[i] in multiset(rest);
      }
      NoRepetitionBound(rest, all - {head});
    }
  }

  ghost function Below(n: nat): (r: set<nat>)
    ensures |r| == n && forall b: nat :: b in r <==> b < n
  {
    if n == 0 then {} else Below(n - 1) + {n - 1}
  }

  /** While a producer holds a buffer, the mailbox has room for it. */
  lemma RoomToPost(s: State, p: nat)
    requires Typed(s) && OnePlaceEach(s)
    requires p in s.holds && |s.pool| <= s.capacity
    ensures |s.queue| < s.capacity
  {
    var b := s.holds[p];
    assert p in Holders(s, b);
    assert Places(s, b) == 1;
    assert |Holders(s, b)| >= 1 by {
      assert {p} <= Holders(s, b);
    }
    assert b !in multiset(s.queue);
    QueueBelow(s, b);
  }

  lemma QueueBelow(s: State, b: nat)
    requires Typed(s) && OnePlaceEach(s)
    requires b < |s.pool| && multiset(s.queue)[b] == 0
    ensures |s.queue| < |s.pool|
  {
    var all := Below(|s.pool|);
    forall i | 0 <= i < |s.queue| ensures s.queue[i] in all - {b} && multiset(s.queue)[s.queue[i]] <= 1 {
      assert s.queue[i] in multiset(s.queue);
      assert Places(s, s.queue[i]) == 1;
    }
    NoRepetitionBound(s.queue, all - {b});
  }

  // ---------------------------------------------------------------- what goes out

  /** The radio traffic for a list of frames: each frame, then its line end. */
  ghost function Lines(frames: seq<Bytes>): (r: seq<Bytes>)
    ensures |r| == 2 * |frames|
  {
    if frames == [] then []
    else Lines(frames[..|frames| - 1]) + [frames[|frames| - 1], LINE_END]
  }

  lemma LinesSnoc(frames: seq<Bytes>, f: Bytes)
    ensures Lines(frames + [f]) == Lines(frames) + [f, LINE_END]
  {
    assert (frames + [f])[..|frames|] == frames;
  }

  lemma {:induction false} LinesPrefix(frames: seq<Bytes>, k: nat)
    requires k <= |frames|
    ensures Lines(frames[..k]) <= Lines(frames)
  {
    if k < |frames| {
      var front := frames[..|frames| - 1];
      LinesPrefix(front, k);
      assert frames[..k] == front[..k];
    } else {
      assert frames[..k] == frames;
    }
  }

  lemma {:induction false} LinesAt(frames: seq<Bytes>, i: nat)
    requires i < |frames|
    ensures Lines(frames)[2 * i] == frames[i] && Lines(frames)[2 * i + 1] == LINE_END
  {
    if i < |frames| - 1 {
      LinesAt(frames[..|frames| - 1], i);
    }
  }

  /** The line end of the last frame sent is still to come. */
  predicate OwesEnd(s: State) {
    s.consumer.Sent? || s.consumer.HalfMarked? || s.consumer.Marked?
  }

  ghost function SentCount(s: State): int {
    |s.posted| - |s.queue| - if s.consumer.Fetched? then 1 else 0
  }

  /** Queued and fetched buffers still hold the frames as posted; the wire shows the others. */
  ghost predicate Faithful(s: State)
    requires Typed(s)
  {
    && SentCount(s) >= 0
    && (forall j | 0 <= j < |s.queue| :: Frame(s.pool[s.queue[j]]) == s.posted[|s.posted| - |s.queue| + j])
    && (s.consumer.Fetched? ==> Frame(s.pool[s.consumer.buf]) == s.posted[SentCount(s)])
    && (s.consumer.HalfMarked? ==> s.pool[s.consumer.buf].message[0] == LINE_END[0])
    && (s.consumer.Marked? ==> s.pool[s.consumer.buf].message[..2] == LINE_END)
    && s.wire + (if OwesEnd(s) then [LINE_END] else []) == Lines(s.posted[..SentCount(s)])
  }

  /** A buffer held by a producer or the consumer is not queued. */
  lemma HeldNotQueued(s: State, b: nat)
    requires Typed(s) && OnePlaceEach(s)
    requires (exists p :: p in s.holds && s.holds[p] == b) || (!s.consumer.Waiting? && s.consumer.buf == b)
    ensures forall j | 0 <= j < |s.queue| :: s.queue[j] != b
  {
    assert Places(s, b) == 1;
    if p :| p in s.holds && s.holds[p] == b {
      assert {p} <= Holders(s, b);
      assert |{p}| <= |Holders(s, b)| by { CardinalityLe({p}, Holders(s, b)); }
    }
    forall j | 0 <= j < |s.queue| ensures s.queue[j] != b {
      assert s.queue[j] in multiset(s.queue);
    }
  }

  lemma CardinalityLe(a: set<nat>, b: set<nat>)
    requires a <= b
    ensures |a| <= |b|
  {
    assert b == a + (b - a);
  }

  lemma HeldNotConsumed(s: State, p: nat)
    requires Typed(s) && OnePlaceEach(s) && p in s.holds
    ensures s.consumer.Waiting? || s.consumer.buf != s.holds[p]
  {
    assert Places(s, s.holds[p]) == 1;
    assert p in Holders(s, s.holds[p]);
    CardinalityLe({p}, Holders(s, s.holds[p]));
  }

  lemma ProducerStepFaithful(s: State, a: Step)
    requires Typed(s) && OnePlaceEach(s) && Faithful(s) && Enabled(s, a)
    requires a.Alloc? || a.Fill? || (a.Post? && |s.queue| < s.capacity)
    ensures Typed(Next(s, a)) && Faithful(Next(s, a))
  {
    NextTyped(s, a);
    match a
    case Alloc(p, b) =>
    case Fill(p, x) =>
      HeldNotQueued(s, s.holds[p]);
      HeldNotConsumed(s, p);
    case Post(p) =>
      var t := Next(s, a);
      assert t.posted[..SentCount(t)] == s.posted[..SentCount(s)];
      forall j | 0 <= j < |t.queue| ensures Frame(t.pool[t.queue[j]]) == t.posted[|t.posted| - |t.queue| + j] {
        if j < |s.queue| {
          assert t.queue[j] == s.queue[j];
        }
      }
  }

  lemma FetchFaithful(s: State)
    requires Typed(s) && Faithful(s) && Enabled(s, Fetch)
    ensures Typed(Next(s, Fetch)) && Faithful(Next(s, Fetch))
  {
    NextTyped(s, Fetch);
    var t := Next(s, Fetch);
    assert SentCount(t) == SentCount(s);
    assert Frame(s.pool[s.queue[0]]) == s.posted[|s.posted| - |s.queue| + 0];
    forall j | 0 <= j < |t.queue| ensures Frame(t.pool[t.queue[j]]) == t.posted[|t.posted| - |t.queue| + j] {
      assert t.queue[j] == s.queue[j + 1];
    }
  }

  lemma SendFrameFaithful(s: State)
    requires Typed(s) && Faithful(s) && Enabled(s, SendFrame)
    ensures Typed(Next(s, SendFrame)) && Faithful(Next(s, SendFrame))
  {
    NextTyped(s, SendFrame);
    var k := SentCount(s);
    assert s.posted[..k + 1] == s.posted[..k] + [s.posted[k]];
    LinesSnoc(s.posted[..k], s.posted[k]);
    assert Next(s, SendFrame).wire + [LINE_END] == s.wire + [s.posted[k], LINE_END];
  }

  lemma FinishFaithful(s: State, a: Step)
    requires Typed(s) && Faithful(s) && Enabled(s, a)
    requires a.SendEnd? || a.Free?
    ensures Typed(Next(s, a)) && Faithful(Next(s, a))
  {
    NextTyped(s, a);
    assert Next(s, a).wire + [] == Next(s, a).wire;
  }

  lemma MarkStepFaithful(s: State, a: Step)
    requires Typed(s) && OnePlaceEach(s) && Faithful(s) && Enabled(s, a)
    requires a.MarkFirst? || a.MarkSecond?
    ensures Typed(Next(s, a)) && Faithful(Next(s, a))
  {
    NextTyped(s, a);
    HeldNotQueued(s, s.consumer.buf);
  }

  // ---------------------------------------------------------------- all runs

  ghost predicate Sound(s: State) {
    Typed(s) && OnePlaceEach(s) && Faithful(s) && s.failed == 0
  }

  lemma InitSound(s: State)
    requires Init(s)
    ensures Sound(s)
  {
    forall b | 0 <= b < |s.pool| ensures Places(s, b) == 1 {
      assert Holders(s, b) == {};
    }
  }

  lemma StepKeepsSound(s: State, a: Step)
    requires Sound(s) && |s.pool| <= s.capacity && Enabled(s, a)
    ensures Sound(Next(s, a))
  {
    if a.Post? {
      RoomToPost(s, a.p);
    }
    NextTyped(s, a);
    forall b | 0 <= b < |s.pool| ensures Places(Next(s, a), b) == 1 {
      StepKeepsPlace(s, a, b);
    }
    match a
    case Alloc(_, _) => ProducerStepFaithful(s, a);
    case Fill(_, _) => ProducerStepFaithful(s, a);
    case Post(_) => ProducerStepFaithful(s, a);
    case MarkFirst => MarkStepFaithful(s, a);
    case MarkSecond => MarkStepFaithful(s, a);
    case Fetch => FetchFaithful(s);
    case SendFrame => SendFrameFaithful(s);
    case _ => FinishFaithful(s, a);
  }

  lemma {:induction false} RunKeepsSound(s: State, run: seq<Step>)
    requires Sound(s) && |s.pool| <= s.capacity && Possible(s, run)
    ensures Sound(After(s, run))
    decreases |run|
  {
    if run != [] {
      StepKeepsSound(s, run[0]);
      RunKeepsSound(Next(s, run[0]), run[1..]);
    }
  }

  /**
   In every interleaving of any number of producers with the consumer, when the mailbox has at
   least as many slots as the pool has buffers: no post ever fails, every buffer is in exactly
   one place, and the radio has been given the posted frames, byte for byte and in post order,
   each followed by its line end.
   */
  lemma EveryRunDelivers(s: State, run: seq<Step>)
    requires Init(s) && |s.pool| <= s.capacity
    requires Possible(s, run)
    ensures var t := After(s, run);
      && t.failed == 0
      && OnePlaceEach(t)
      && t.wire <= Lines(t.posted)
      && (t.queue == [] && t.consumer == Waiting ==> t.wire == Lines(t.posted))
      && (t.queue == [] && t.consumer == Waiting && t.holds == map[] ==> forall b | 0 <= b < |t.pool| :: b in t.free)
  {
    InitSound(s);
    RunKeepsSound(s, run);
    var t := After(s, run);
    LinesPrefix(t.posted, SentCount(t));
    assert t.wire <= t.wire + (if OwesEnd(t) then [LINE_END] else []);
    assert t.posted[..|t.posted|] == t.posted;
    if t.queue == [] && t.consumer == Waiting && t.holds == map[] {
      forall b | 0 <= b < |t.pool| ensures b in t.free {
        assert Places(t, b) == 1;
        assert Holders(t, b) == {};
      }
    }
  }

  // ---------------------------------------------------------------- from the producers to the wire

  /**
   What the producers meant to send, read off the run alone: at each post the buffer the producer
   filled last since it allocated, or nothing when it has not filled any.
   */
  function Drafts(filled: map<nat, Buffer>, run: seq<Step>): seq<Option<Buffer>>
    decreases |run|
  {
    if run == [] then []
    else
      match run[0]
      case Alloc(p, _) => Drafts(filled - {p}, run[1..])
      case Fill(p, x) => Drafts(filled[p := x], run[1..])
      case Post(p) => [if p in filled then Some(filled[p]) else None] + Drafts(filled - {p}, run[1..])
      case _ => Drafts(filled, run[1..])
  }

  /** Every draft is in the buffer its producer holds. */
  ghost predicate InHand(s: State, filled: map<nat, Buffer>)
    requires Typed(s)
  {
    forall p | p in filled :: p in s.holds && s.pool[s.holds[p]] == filled[p]
  }

  /** Two producers never hold the same buffer. */
  lemma HoldApart(s: State, p: nat, q: nat)
    requires Typed(s) && OnePlaceEach(s) && p in s.holds && q in s.holds && p != q
    ensures s.holds[p] != s.holds[q]
  {
    if s.holds[p] == s.holds[q] {
      var b := s.holds[p];
      assert Places(s, b) == 1;
      CardinalityLe({p, q}, Holders(s, b));
    }
  }

  lemma InHandStep(s: State, a: Step, filled: map<nat, Buffer>)
    requires Typed(s) && OnePlaceEach(s) && Enabled(s, a) && InHand(s, filled)
    ensures Typed(Next(s, a))
    ensures a.Alloc? || a.Post? ==> InHand(Next(s, a), filled - {a.p})
    ensures a.Fill? ==> InHand(Next(s, a), filled[a.p := a.x])
    ensures IsConsumer(a) ==> InHand(Next(s, a), filled)
  {
    NextTyped(s, a);
    if a.Fill? {
      forall q | q in filled && q != a.p ensures s.holds[q] != s.holds[a.p] {
        HoldApart(s, a.p, q);
      }
    } else if a.MarkFirst? || a.MarkSecond? {
      forall q | q in filled ensures s.holds[q] != s.consumer.buf {
        HeldNotConsumed(s, q);
      }
    }
  }

  /** A post of a draft records its frame; no other step changes what was posted. */
  lemma PostedStep(s: State, a: Step, filled: map<nat, Buffer>)
    requires Typed(s) && Enabled(s, a) && InHand(s, filled)
    requires a.Post? ==> |s.queue| < s.capacity
    ensures !a.Post? ==> Next(s, a).posted == s.posted
    ensures a.Post? ==> |Next(s, a).posted| == |s.posted| + 1 && s.posted <= Next(s, a).posted
    ensures a.Post? && a.p in filled ==>
              FitsPool(filled[a.p]) && Next(s, a).posted == s.posted + [Frame(filled[a.p])]
  {
  }

  /** The frames `posted` behind the first n are those of the drafts. */
  ghost predicate AsDrafted(posted: seq<Bytes>, n: nat, drafts: seq<Option<Buffer>>) {
    && |posted| == n + |drafts|
    && forall i | 0 <= i < |drafts| && drafts[i].Some? ::
         FitsPool(drafts[i].value) && posted[n + i] == Frame(drafts[i].value)
  }

  lemma {:induction false} PostedAsDrafted(s: State, run: seq<Step>, filled: map<nat, Buffer>)
    requires Sound(s) && |s.pool| <= s.capacity && Possible(s, run) && InHand(s, filled)
    ensures s.posted <= After(s, run).posted
    ensures AsDrafted(After(s, run).posted, |s.posted|, Drafts(filled, run))
    decreases |run|
  {
    if run != [] {
      var a, rest := run[0], run[1..];
      NextTyped(s, a);
      StepKeepsSound(s, a);
      if a.Post? {
        RoomToPost(s, a.p);
      }
      InHandStep(s, a, filled);
      PostedStep(s, a, filled);
      var after := if a.Fill? then filled[a.p := a.x] else if a.Alloc? || a.Post? then filled - {a.p} else filled;
      PostedAsDrafted(Next(s, a), rest, after);
      hide Next, Enabled, Sound, Typed;
      if a.Post? {
        ConsDrafted(s.posted, Next(s, a).posted, After(s, run).posted, filled, a.p, Drafts(after, rest));
      }
    }
  }

  lemma ConsDrafted(before: seq<Bytes>, next: seq<Bytes>, all: seq<Bytes>, filled: map<nat, Buffer>, p: nat,
                    rest: seq<Option<Buffer>>)
    requires |next| == |before| + 1 && before <= next <= all
    requires p in filled ==> FitsPool(filled[p]) && next == before + [Frame(filled[p])]
    requires AsDrafted(all, |next|, rest)
    ensures AsDrafted(all, |before|, [if p in filled then Some(filled[p]) else None] + rest)
  {
    var drafts := [if p in filled then Some(filled[p]) else None] + rest;
    forall i | 0 <= i < |drafts| && drafts[i].Some?
      ensures FitsPool(drafts[i].value) && all[|before| + i] == Frame(drafts[i].value)
    {
      if i > 0 {
        assert drafts[i] == rest[i - 1];
      } else {
        assert all[|before|] == next[|before|];
      }
    }
  }

  /**
   In every interleaving the i-th frame on the wire is, byte for byte, the buffer its producer
   filled last before the i-th post, and its line end follows.
   */
  lemma EveryDraftDelivered(s: State, run: seq<Step>, i: nat)
    requires Init(s) && |s.pool| <= s.capacity && Possible(s, run)
    requires i < |Drafts(map[], run)| && Drafts(map[], run)[i].Some?
    ensures var t, x := After(s, run), Drafts(map[], run)[i].value;
      && FitsPool(x)
      && (2 * i < |t.wire| ==> t.wire[2 * i] == x.message[..x.size])
      && (2 * i + 1 < |t.wire| ==> t.wire[2 * i + 1] == [0x0a, 0x0d])
      && (t.queue == [] && t.consumer == Waiting ==> 2 * i + 1 < |t.wire|)
  {
    InitSound(s);
    PostedAsDrafted(s, run, map[]);
    EveryRunDelivers(s, run);
    LinesAt(After(s, run).posted, i);
  }

  /** A frame of the protocol that a producer fills in is decoded from the radio traffic. */
  lemma DeliveredFramesDecode(s: State, run: seq<Step>, i: nat, cmd: bv8, words: seq<bv32>)
    requires Init(s) && |s.pool| <= s.capacity && Possible(s, run)
    requires i < |Drafts(map[], run)| && 2 * i < |After(s, run).wire| && 4 * |words| < 256
    requires var draft := Drafts(map[], run)[i];
      draft.Some? && draft.value.size <= |draft.value.message|
      && draft.value.message[..draft.value.size] == Msp.Encode(cmd, words)
    ensures Msp.Decode(After(s, run).wire[2 * i]) == Some(Msp.Message(cmd, words))
  {
    EveryDraftDelivered(s, run, i);
    Msp.DecodeEncode(cmd, words);
  }

  /** While a buffer is free and the mailbox has room, an idle producer can post any content that fits. */
  lemma ProducerPosts(s: State, p: nat, b: nat, x: Buffer)
    requires Typed(s) && p !in s.holds && b in s.free && FitsPool(x) && |s.queue| < s.capacity
    ensures Runs(s, [Alloc(p, b), Fill(p, x), Post(p)],
                 s.(free := s.free - {b}, pool := s.pool[b := x], queue := s.queue + [b],
                    posted := s.posted + [x.message[..x.size]]))
  {
    var s1 := Then(s, Alloc(p, b));
    var s2 := Then(s1, Fill(p, x));
    var t := Then(s2, Post(p));
    assert t.holds == s.holds;
    hide Next, Enabled, Typed;
    assert Runs(t, [], t);
    ThenRuns(s2, Post(p), [], t);
    ThenRuns(s1, Fill(p, x), [Post(p)], t);
    ThenRuns(s, Alloc(p, b), [Fill(p, x), Post(p)], t);
  }

  function Sending(): seq<Step> {
    [Fetch, SendFrame, MarkFirst, MarkSecond, SendEnd, Free]
  }

  /** Once a frame is sent, its buffer carries the line end out and is freed. */
  lemma ConsumerEnds(s: State)
    requires Typed(s) && s.consumer.Sent?
    ensures var b := s.consumer.buf;
      var x := s.pool[b];
      Runs(s, [MarkFirst, MarkSecond, SendEnd, Free],
           s.(free := s.free + {b}, pool := s.pool[b := x.(message := [0x0a, 0x0d] + x.message[2..])],
              wire := s.wire + [[0x0a, 0x0d]], consumer := Waiting))
  {
    var b := s.consumer.buf;
    var x := s.pool[b];
    var s1 := Then(s, MarkFirst);
    var s2 := Then(s1, MarkSecond);
    MarkedMessage(x);
    assert s2.pool == s.pool[b := x.(message := [0x0a, 0x0d] + x.message[2..])];
    var s3 := Then(s2, SendEnd);
    var t := Then(s3, Free);
    hide Next, Enabled, Typed;
    assert Runs(t, [], t);
    ThenRuns(s3, Free, [], t);
    ThenRuns(s2, SendEnd, [Free], t);
    ThenRuns(s1, MarkSecond, [SendEnd, Free], t);
    ThenRuns(s, MarkFirst, [MarkSecond, SendEnd, Free], t);
  }

  /** While the mailbox is not empty, the idle consumer can send its first buffer, with the line end, and free it. */
  lemma ConsumerSends(s: State)
    requires Typed(s) && s.consumer == Waiting && s.queue != []
    ensures var b := s.queue[0];
      var x := s.pool[b];
      Runs(s, Sending(),
           s.(free := s.free + {b}, pool := s.pool[b := x.(message := [0x0a, 0x0d] + x.message[2..])],
              queue := s.queue[1..], wire := s.wire + [x.message[..x.size], [0x0a, 0x0d]]))
  {
    var b := s.queue[0];
    var x := s.pool[b];
    var s1 := Then(s, Fetch);
    var s2 := Then(s1, SendFrame);
    assert s2 == s.(queue := s.queue[1..], wire := s.wire + [x.message[..x.size]], consumer := Sent(b));
    hide Next, Enabled, Typed, Runs;
    ConsumerEnds(s2);
    assert s.wire + [x.message[..x.size]] + [[0x0a, 0x0d]] == s.wire + [x.message[..x.size], [0x0a, 0x0d]];
    var t := s.(free := s.free + {b}, pool := s.pool[b := x.(message := [0x0a, 0x0d] + x.message[2..])],
                queue := s.queue[1..], wire := s.wire + [x.message[..x.size], [0x0a, 0x0d]]);
    ThenRuns(s1, SendFrame, [MarkFirst, MarkSecond, SendEnd, Free], t);
    ThenRuns(s, Fetch, [SendFrame, MarkFirst, MarkSecond, SendEnd, Free], t);
  }

  lemma MarkedMessage(x: Buffer)
    requires FitsPool(x)
    ensures Mark(Mark(x, 0, 0x0a), 1, 0x0d).message == [0x0a, 0x0d] + x.message[2..]
    ensures Mark(Mark(x, 0, 0x0a), 1, 0x0d).message[..2] == [0x0a, 0x0d]
  {
  }

  ghost predicate Runs(s: State, run: seq<Step>, t: State) {
    Typed(s) && Possible(s, run) && After(s, run) == t
  }

  ghost function Then(s: State, a: Step): (t: State)
    requires Typed(s) && Enabled(s, a)
    ensures Typed(t) && t == Next(s, a)
  {
    NextTyped(s, a);
    Next(s, a)
  }

  lemma ThenRuns(s: State, a: Step, run: seq<Step>, t: State)
    requires Typed(s) && Enabled(s, a) && Runs(Then(s, a), run, t)
    ensures Runs(s, [a] + run, t)
  {
    assert ([a] + run)[1..] == run;
  }

  // ---------------------------------------------------------------- draining

  predicate IsConsumer(a: Step) {
    a.Fetch? || a.SendFrame? || a.MarkFirst? || a.MarkSecond? || a.SendEnd? || a.Free?
  }

  /** Consumer steps that are left: six for each queued buffer, fewer for the one in hand. */
  function Work(s: State): nat {
    6 * |s.queue| + match s.consumer
                    case Waiting => 0
                    case Fetched(_) => 5
                    case Sent(_) => 4
                    case HalfMarked(_) => 3
                    case Marked(_) => 2
                    case Ended(_) => 1
  }

  /** The consumer alone empties the mailbox in exactly the work that is left. */
  lemma {:induction false} ConsumerDrains(s: State, run: seq<Step>)
    requires Typed(s) && Possible(s, run)
    requires forall k | 0 <= k < |run| :: IsConsumer(run[k])
    ensures |run| + Work(After(s, run)) == Work(s)
    decreases |run|
  {
    if run != [] {
      NextTyped(s, run[0]);
      ConsumerDrains(Next(s, run[0]), run[1..]);
    }
  }

  lemma ConsumerStuckOnlyWhenDrained(s: State)
    requires forall a | IsConsumer(a) :: !Enabled(s, a)
    ensures s.queue == [] && s.consumer == Waiting
  {
    assert IsConsumer(Fetch) && IsConsumer(SendFrame) && IsConsumer(MarkFirst);
    assert IsConsumer(MarkSecond) && IsConsumer(SendEnd) && IsConsumer(Free);
  }

  // ---------------------------------------------------------------- a smaller mailbox

  /** The first `k` buffers queued in order, the others free, nobody else active. */
  ghost predicate Loaded(s: State, k: nat) {
    && Typed(s) && k <= |s.pool|
    && (forall b :: b in s.free <==> k <= b < |s.pool|)
    && s.holds == map[] && s.consumer == Waiting && s.failed == 0
    && |s.queue| == k && (forall i | 0 <= i < k :: s.queue[i] == i)
  }

  /** A producer takes and posts one buffer. */
  lemma LoadOne(s: State, k: nat)
    requires Loaded(s, k) && k < |s.pool|
    ensures Possible(s, [Alloc(0, k), Post(0)])
    ensures k < s.capacity ==> Loaded(After(s, [Alloc(0, k), Post(0)]), k + 1)
    ensures k == s.capacity ==>
              var t := After(s, [Alloc(0, k), Post(0)]); t.failed == 1 && Places(t, k) == 0
  {
    NextTyped(s, Alloc(0, k));
    var mid := Next(s, Alloc(0, k));
    NextTyped(mid, Post(0));
    var t := Next(mid, Post(0));
    assert mid.holds - {0} == map[];
    assert [Alloc(0, k), Post(0)][1..] == [Post(0)] && [Post(0)][1..] == [];
    assert Possible(mid, [Post(0)]);
    assert After(mid, [Post(0)]) == t;
    assert Holders(t, k) == {};
    if k == s.capacity {
      assert k !in multiset(t.queue) by {
        assert forall i | 0 <= i < |t.queue| :: t.queue[i] != k;
      }
    }
  }

  lemma {:induction false} RunConcat(s: State, a: seq<Step>, b: seq<Step>)
    requires Typed(s) && Possible(s, a) && Possible(After(s, a), b)
    ensures Possible(s, a + b) && After(s, a + b) == After(After(s, a), b)
    decreases |a|
  {
    if a == [] {
      assert a + b == b;
    } else {
      NextTyped(s, a[0]);
      RunConcat(Next(s, a[0]), a[1..], b);
      assert (a + b)[0] == a[0] && (a + b)[1..] == a[1..] + b;
    }
  }

  /** With fewer slots than buffers, posting one buffer after another loses one. */
  lemma {:induction false} SmallMailboxLeaks(s: State, k: nat) returns (run: seq<Step>)
    requires Loaded(s, k) && k <= s.capacity < |s.pool|
    ensures Possible(s, run)
    ensures After(s, run).failed == 1 && Places(After(s, run), s.capacity) == 0
    decreases s.capacity - k
  {
    LoadOne(s, k);
    run := [Alloc(0, k), Post(0)];
    if k < s.capacity {
      var mid := After(s, run);
      var rest := SmallMailboxLeaks(mid, k + 1);
      RunConcat(s, run, rest);
      run := run + rest;
    }
  }

  /** The unchecked post is safe in every run exactly when the mailbox is as large as the pool. */
  lemma UncheckedPostSafeIff(s: State)
    requires Init(s)
    ensures (forall run | Possible(s, run) :: After(s, run).failed == 0) <==> |s.pool| <= s.capacity
  {
    if |s.pool| <= s.capacity {
      forall run | Possible(s, run) ensures After(s, run).failed == 0 {
        EveryRunDelivers(s, run);
      }
    } else {
      var run := SmallMailboxLeaks(s, 0);
      assert After(s, run).failed == 1;
    }
  }
}
