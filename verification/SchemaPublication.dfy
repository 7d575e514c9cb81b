/** Double-checked publication of a dataset schema under a shared mutex.

Any number of threads try to set the schema. Each looks at it under a shared lock first; if it is
empty, it takes the exclusive lock, looks again, fills the schema field by field, builds the Arrow
schema from it and unlocks. A schedule is any sequence of thread numbers; a thread that cannot get a
lock does nothing when scheduled.
*/
module SchemaPublication {
  import opened Wrappers

  datatype Field = Field(name: string, typeId: int)
  datatype ArrowField = ArrowField(name: string, dataType: int)

  /** What a thread brings: its fields, and the index of the first one whose parsing throws, if any. */
  datatype Job = Job(fields: seq<Field>, throwsAt: Option<nat>)

  datatype Pc =
    | Begin
    | Peek
    | Release(empty: bool)
    | Wait
    | Recheck
    | Filling(i: nat)
    | Building
    | Closing
    | Ended

  datatype State = State(schema: seq<Field>, arrow: Option<seq<ArrowField>>, writer: Option<nat>, pcs: seq<Pc>)

  /** The threads' jobs and the conversion from type ids to Arrow types. */
  datatype Config = Config(jobs: seq<Job>, dataType: int -> int)

  function Mirror(cfg: Config, schema: seq<Field>): (r: seq<ArrowField>)
    ensures |r| == |schema|
    ensures forall k | 0 <= k < |r| :: r[k] == ArrowField(schema[k].name, cfg.dataType(schema[k].typeId))
  {
    seq(|schema|, k requires 0 <= k < |schema| => ArrowField(schema[k].name, cfg.dataType(schema[k].typeId)))
  }

  predicate Reading(pc: Pc) { pc.Peek? || pc.Release? }

  predicate Writing(pc: Pc) { pc.Recheck? || pc.Filling? || pc.Building? || pc.Closing? }

  function Start(cfg: Config): State {
    State([], None, None, seq(|cfg.jobs|, _ => Begin))
  }

  function At(s: State, t: nat, pc: Pc): State
    requires t < |s.pcs|
  {
    s.(pcs := s.pcs[t := pc])
  }

  function Fill(cfg: Config, s: State, t: nat, i: nat): State
    requires t < |s.pcs| == |cfg.jobs|
  {
    var job := cfg.jobs[t];
    if i >= |job.fields| then At(s, t, Building)
    else if job.throwsAt == Some(i) then At(s, t, Closing)
    else At(s, t, Filling(i + 1)).(schema := s.schema + [job.fields[i]])
  }

  /** The next state when thread t is scheduled. */
  function Step(cfg: Config, s: State, t: nat): State
    requires t < |s.pcs| == |cfg.jobs|
  {
    match s.pcs[t]
    case Begin => if s.writer.None? then At(s, t, Peek) else s
    case Peek => At(s, t, Release(s.schema == []))
    case Release(empty) => At(s, t, if empty then Wait else Ended)
    case Wait =>
      if s.writer.None? && forall u | 0 <= u < |s.pcs| :: !Reading(s.pcs[u])
      then At(s, t, Recheck).(writer := Some(t)) else s
    case Recheck => At(s, t, if s.schema != [] then Closing else Filling(0))
    case Filling(i) => Fill(cfg, s, t, i)
    case Building => At(s, t, Closing).(arrow := Some(Mirror(cfg, s.schema)))
    case Closing => At(s, t, Ended).(writer := None)
    case Ended => s
  }

  // ----- the invariant

  /** No parse throws once it has added a field. */
  predicate Clean(cfg: Config) {
    forall t | 0 <= t < |cfg.jobs| :: !ThrowsLate(cfg.jobs[t])
  }

  predicate ThrowsLate(job: Job) {
    job.throwsAt.Some? && 0 < job.throwsAt.value < |job.fields|
  }

  /** Both schemas unset, or the Arrow schema mirrors the schema field for field. */
  predicate Consistent(cfg: Config, s: State) {
    if s.arrow.None? then s.schema == [] else s.arrow.value == Mirror(cfg, s.schema)
  }

  predicate Owned(cfg: Config, schema: seq<Field>) {
    schema != [] ==> exists t :: 0 <= t < |cfg.jobs| && schema == cfg.jobs[t].fields
  }

  /** Before the first field goes in, there is nothing to mirror. */
  predicate Blank(s: State) {
    s.arrow == None || s.arrow == Some([])
  }

  predicate WriterOk(cfg: Config, s: State, t: nat)
    requires t < |s.pcs| == |cfg.jobs|
  {
    var job := cfg.jobs[t];
    match s.pcs[t]
    case Recheck => Consistent(cfg, s) && Owned(cfg, s.schema)
    case Filling(i) => i <= |job.fields| && s.schema == job.fields[..i] && Blank(s)
    case Building => s.schema == job.fields && Blank(s)
    case Closing => Consistent(cfg, s) && Owned(cfg, s.schema)
    case _ => false
  }

  predicate Inv(cfg: Config, s: State) {
    && |s.pcs| == |cfg.jobs|
    && (s.writer.None? ==>
          && Consistent(cfg, s) && Owned(cfg, s.schema)
          && forall t | 0 <= t < |s.pcs| :: !Writing(s.pcs[t]))
    && (s.writer.Some? ==>
          && s.writer.value < |s.pcs| && WriterOk(cfg, s, s.writer.value)
          && forall t | 0 <= t < |s.pcs| && t != s.writer.value :: !Writing(s.pcs[t]) && !Reading(s.pcs[t]))
  }

  lemma InvStart(cfg: Config)
    ensures Inv(cfg, Start(cfg))
  {
  }

  /** Every step of every thread keeps the invariant. */
  lemma InvStep(cfg: Config, s: State, t: nat)
    requires Inv(cfg, s) && Clean(cfg) && t < |s.pcs|
    ensures Inv(cfg, Step(cfg, s, t))
  {
    var s' := Step(cfg, s, t);
    assert forall u | 0 <= u < |s.pcs| && u != t :: s'.pcs[u] == s.pcs[u];
    match s.pcs[t]
    case Filling(i) => FillKeeps(cfg, s, t, i);
    case Building => assert cfg.jobs[t].fields == s.schema;
    case _ =>
  }

  lemma FillKeeps(cfg: Config, s: State, t: nat, i: nat)
    requires Inv(cfg, s) && Clean(cfg) && t < |s.pcs| && s.pcs[t] == Filling(i)
    ensures Inv(cfg, Fill(cfg, s, t, i))
  {
    var job, s' := cfg.jobs[t], Fill(cfg, s, t, i);
    assert s.writer == Some(t) && WriterOk(cfg, s, t);
    assert forall u | 0 <= u < |s.pcs| && u != t :: s'.pcs[u] == s.pcs[u];
    if i < |job.fields| {
      assert job.fields[..i + 1] == job.fields[..i] + [job.fields[i]];
      assert !ThrowsLate(job);
    } else {
      assert job.fields[..i] == job.fields;
    }
  }

  // ----- whole runs

  type Schedule = seq<nat>

  function Run(cfg: Config, s: State, schedule: Schedule): (r: State)
    requires |s.pcs| == |cfg.jobs|
    ensures |r.pcs| == |cfg.jobs|
    decreases |schedule|
  {
    if schedule == [] then s
    else
      var s' := if schedule[0] < |s.pcs| then Step(cfg, s, schedule[0]) else s;
      Run(cfg, s', schedule[1..])
  }

  lemma {:induction false} RunKeepsInv(cfg: Config, s: State, schedule: Schedule)
    requires Inv(cfg, s) && Clean(cfg)
    ensures Inv(cfg, Run(cfg, s, schedule))
    decreases |schedule|
  {
    if schedule != [] {
      if schedule[0] < |s.pcs| { InvStep(cfg, s, schedule[0]); }
      RunKeepsInv(cfg, if schedule[0] < |s.pcs| then Step(cfg, s, schedule[0]) else s, schedule[1..]);
    }
  }

  /** Some schema is in place and nobody is still filling it. */
  predicate Published(s: State) {
    && s.schema != []
    && forall t | 0 <= t < |s.pcs| :: !s.pcs[t].Filling? && !s.pcs[t].Building?
  }

  lemma PublishedStep(cfg: Config, s: State, t: nat)
    requires Published(s) && t < |s.pcs| == |cfg.jobs|
    ensures Published(Step(cfg, s, t)) && Step(cfg, s, t).schema == s.schema && Step(cfg, s, t).arrow == s.arrow
  {
  }

  /** Once published, the schema never changes again, in any continuation. */
  lemma {:induction false} PublishedForever(cfg: Config, s: State, schedule: Schedule)
    requires Published(s) && |s.pcs| == |cfg.jobs|
    ensures Run(cfg, s, schedule).schema == s.schema && Run(cfg, s, schedule).arrow == s.arrow
    decreases |schedule|
  {
    if schedule != [] {
      if schedule[0] < |s.pcs| { PublishedStep(cfg, s, schedule[0]); }
      PublishedForever(cfg, if schedule[0] < |s.pcs| then Step(cfg, s, schedule[0]) else s, schedule[1..]);
    }
  }

  /** What a reader can rely on when no thread holds the exclusive lock. */
  predicate Sound(cfg: Config, s: State) {
    s.writer.None? ==> Consistent(cfg, s) && Owned(cfg, s.schema)
  }

  ghost predicate AlwaysSound(cfg: Config) {
    forall schedule: Schedule :: Sound(cfg, Run(cfg, Start(cfg), schedule))
  }

  /** Over all interleavings: the schema is always one caller's whole list and the Arrow schema always
      mirrors it, exactly when no parse throws after adding a field. */
  lemma AlwaysSoundIff(cfg: Config)
    ensures AlwaysSound(cfg) <==> Clean(cfg)
  {
    if Clean(cfg) {
      forall schedule: Schedule ensures Sound(cfg, Run(cfg, Start(cfg), schedule)) {
        InvStart(cfg);
        RunKeepsInv(cfg, Start(cfg), schedule);
      }
    } else {
      var t: nat :| t < |cfg.jobs| && ThrowsLate(cfg.jobs[t]);
      HalfSchema(cfg, t, []);
    }
  }

  function Solo(t: nat, n: nat): Schedule {
    if n == 0 then [] else Solo(t, n - 1) + [t]
  }

  lemma {:induction false} RunConcat(cfg: Config, s: State, a: Schedule, b: Schedule)
    requires |s.pcs| == |cfg.jobs|
    ensures Run(cfg, s, a + b) == Run(cfg, Run(cfg, s, a), b)
    decreases |a|
  {
    if a == [] {
      assert a + b == b;
    } else {
      assert (a + b)[1..] == a[1..] + b;
      RunConcat(cfg, if a[0] < |s.pcs| then Step(cfg, s, a[0]) else s, a[1..], b);
    }
  }

  lemma RunAppend(cfg: Config, s: State, a: Schedule, t: nat)
    requires |s.pcs| == |cfg.jobs| && t < |s.pcs|
    ensures Run(cfg, s, a + [t]) == Step(cfg, Run(cfg, s, a), t)
  {
    RunConcat(cfg, s, a, [t]);
    assert [t][1..] == [];
  }

  /** How many fields thread t adds before it stops: all of them, or those before the throw. */
  function Added(job: Job): nat {
    if job.throwsAt.Some? && job.throwsAt.value < |job.fields| then job.throwsAt.value else |job.fields|
  }

  /** A thread that runs alone is filling after five steps, and adds one field with each further one. */
  lemma {:induction false} SoloFills(cfg: Config, t: nat, i: nat)
    requires t < |cfg.jobs| && i <= Added(cfg.jobs[t])
    ensures var s := Run(cfg, Start(cfg), Solo(t, 5 + i));
            && s.pcs == Start(cfg).pcs[t := Filling(i)] && s.writer == Some(t)
            && s.schema == cfg.jobs[t].fields[..i] && s.arrow == None
  {
    var pcs := Start(cfg).pcs;
    if i == 0 {
      SoloEnters(cfg, t);
    } else {
      SoloFills(cfg, t, i - 1);
      RunAppend(cfg, Start(cfg), Solo(t, 4 + i), t);
      var job := cfg.jobs[t];
      assert job.fields[..i] == job.fields[..i - 1] + [job.fields[i - 1]];
      assert pcs[t := Filling(i - 1)][t := Filling(i)] == pcs[t := Filling(i)];
    }
  }

  lemma SoloEnters(cfg: Config, t: nat)
    requires t < |cfg.jobs|
    ensures var s := Run(cfg, Start(cfg), Solo(t, 5));
            s == State([], None, Some(t), Start(cfg).pcs[t := Filling(0)])
  {
    hide Run;
    var s0 := Start(cfg);
    RunNone(cfg, s0);
    RunAppend(cfg, s0, Solo(t, 0), t);
    RunAppend(cfg, s0, Solo(t, 1), t);
    RunAppend(cfg, s0, Solo(t, 2), t);
    RunAppend(cfg, s0, Solo(t, 3), t);
    RunAppend(cfg, s0, Solo(t, 4), t);
    var pcs := s0.pcs;
    assert Step(cfg, s0, t) == s0.(pcs := pcs[t := Peek]);
    assert Step(cfg, s0.(pcs := pcs[t := Peek]), t) == s0.(pcs := pcs[t := Release(true)]);
    assert Step(cfg, s0.(pcs := pcs[t := Release(true)]), t) == s0.(pcs := pcs[t := Wait]);
    assert Step(cfg, s0.(pcs := pcs[t := Wait]), t) == s0.(pcs := pcs[t := Recheck], writer := Some(t));
    assert Step(cfg, s0.(pcs := pcs[t := Recheck], writer := Some(t)), t)
        == s0.(pcs := pcs[t := Filling(0)], writer := Some(t));
  }

  lemma RunNone(cfg: Config, s: State)
    requires |s.pcs| == |cfg.jobs|
    ensures Run(cfg, s, []) == s
  {
  }

  /** A parse that throws after adding fields leaves them in place without an Arrow schema, and there
      they stay, whatever any thread does afterwards. */
  lemma HalfSchema(cfg: Config, t: nat, more: Schedule)
    requires t < |cfg.jobs| && ThrowsLate(cfg.jobs[t])
    ensures var k := cfg.jobs[t].throwsAt.value;
            var s := Run(cfg, Start(cfg), Solo(t, 7 + k));
            s.schema == cfg.jobs[t].fields[..k] && s.arrow == None && s.writer == None && !Sound(cfg, s)
    ensures var k := cfg.jobs[t].throwsAt.value;
            var s := Run(cfg, Start(cfg), Solo(t, 7 + k) + more);
            s.schema == cfg.jobs[t].fields[..k] && s.arrow == None
  {
    var k := cfg.jobs[t].throwsAt.value;
    SoloFills(cfg, t, k);
    RunAppend(cfg, Start(cfg), Solo(t, 5 + k), t);
    RunAppend(cfg, Start(cfg), Solo(t, 6 + k), t);
    var s := Run(cfg, Start(cfg), Solo(t, 7 + k));
    RunConcat(cfg, Start(cfg), Solo(t, 7 + k), more);
    hide Run;
    assert Published(s);
    PublishedForever(cfg, s, more);
  }

  // ----- publication happens, and everyone gets through

  /** A parse that gets to the end of its list. */
  predicate Whole(job: Job) {
    Added(job) == |job.fields|
  }

  /** A thread alone, with a list that parses: after eight steps and one for each field its list is the
      schema, the Arrow schema mirrors it, and the lock is free. */
  lemma SoloPublishes(cfg: Config, t: nat)
    requires t < |cfg.jobs| && Whole(cfg.jobs[t])
    ensures var s := Run(cfg, Start(cfg), Solo(t, 8 + |cfg.jobs[t].fields|));
            && s.schema == cfg.jobs[t].fields && s.writer == None
            && s.arrow == Some(Mirror(cfg, cfg.jobs[t].fields)) && |s.pcs| == |cfg.jobs| && s.pcs[t] == Ended
  {
    var n := |cfg.jobs[t].fields|;
    SoloFills(cfg, t, n);
    assert cfg.jobs[t].fields[..n] == cfg.jobs[t].fields;
    RunAppend(cfg, Start(cfg), Solo(t, 5 + n), t);
    RunAppend(cfg, Start(cfg), Solo(t, 6 + n), t);
    RunAppend(cfg, Start(cfg), Solo(t, 7 + n), t);
    hide Run;
  }

  /** A caller that finds a schema is through after three steps, without the exclusive lock. */
  lemma FastPath(cfg: Config, s: State, t: nat)
    requires t < |s.pcs| == |cfg.jobs| && s.pcs[t] == Begin && s.writer == None && s.schema != []
    ensures Run(cfg, s, [t, t, t]) == s.(pcs := s.pcs[t := Ended])
  {
    var pcs := s.pcs;
    var s1 := s.(pcs := pcs[t := Peek]);
    var s2 := s.(pcs := pcs[t := Release(false)]);
    var s3 := s.(pcs := pcs[t := Ended]);
    assert Step(cfg, s, t) == s1;
    assert pcs[t := Peek][t := Release(false)] == pcs[t := Release(false)];
    assert Step(cfg, s1, t) == s2;
    assert pcs[t := Release(false)][t := Ended] == pcs[t := Ended];
    assert Step(cfg, s2, t) == s3;
    assert [t, t, t][1..] == [t, t] && [t, t][1..] == [t] && [t][1..] == [];
    assert Run(cfg, s3, []) == s3;
    assert Run(cfg, s2, [t]) == s3;
    assert Run(cfg, s1, [t, t]) == s3;
  }

  /** Whoever holds the exclusive lock is alone with it, also when parses throw. */
  predicate Locked(cfg: Config, s: State) {
    && |s.pcs| == |cfg.jobs|
    && (s.writer.None? ==> forall t | 0 <= t < |s.pcs| :: !Writing(s.pcs[t]))
    && (s.writer.Some? ==>
          && s.writer.value < |s.pcs| && Writing(s.pcs[s.writer.value])
          && forall t | 0 <= t < |s.pcs| && t != s.writer.value :: !Writing(s.pcs[t]) && !Reading(s.pcs[t]))
  }

  lemma LockedStep(cfg: Config, s: State, t: nat)
    requires Locked(cfg, s) && t < |s.pcs|
    ensures Locked(cfg, Step(cfg, s, t))
  {
    var s' := Step(cfg, s, t);
    assert forall u | 0 <= u < |s.pcs| && u != t :: s'.pcs[u] == s.pcs[u];
  }

  lemma {:induction false} RunKeepsLocked(cfg: Config, s: State, schedule: Schedule)
    requires Locked(cfg, s)
    ensures Locked(cfg, Run(cfg, s, schedule))
    decreases |schedule|
  {
    if schedule != [] {
      if schedule[0] < |s.pcs| { LockedStep(cfg, s, schedule[0]); }
      hide Locked;
      RunKeepsLocked(cfg, if schedule[0] < |s.pcs| then Step(cfg, s, schedule[0]) else s, schedule[1..]);
    }
  }

  /** How many steps a thread still has to make. */
  function Left(job: Job, pc: Pc): nat {
    match pc
    case Begin => |job.fields| + 8
    case Peek => |job.fields| + 7
    case Release(_) => |job.fields| + 6
    case Wait => |job.fields| + 5
    case Recheck => |job.fields| + 4
    case Filling(i) => if i < |job.fields| then |job.fields| - i + 3 else 3
    case Building => 2
    case Closing => 1
    case Ended => 0
  }

  function LeftOver(jobs: seq<Job>, pcs: seq<Pc>): nat
    requires |jobs| == |pcs|
  {
    if pcs == [] then 0
    else LeftOver(jobs[..|pcs| - 1], pcs[..|pcs| - 1]) + Left(jobs[|pcs| - 1], pcs[|pcs| - 1])
  }

  lemma {:induction false} LeftOverUpdate(jobs: seq<Job>, pcs: seq<Pc>, t: nat, pc: Pc)
    requires |jobs| == |pcs| && t < |pcs|
    ensures LeftOver(jobs, pcs[t := pc]) + Left(jobs[t], pcs[t]) == LeftOver(jobs, pcs) + Left(jobs[t], pc)
  {
    var n := |pcs| - 1;
    hide Left;
    if t < n {
      assert pcs[t := pc][..n] == pcs[..n][t := pc];
      LeftOverUpdate(jobs[..n], pcs[..n], t, pc);
    } else {
      assert pcs[t := pc][..n] == pcs[..n];
    }
  }

  predicate Over(s: State) {
    s.writer == None && forall t | 0 <= t < |s.pcs| :: s.pcs[t] == Ended
  }

  /** A thread that is not kept waiting by a lock has one step less to make after its step. */
  predicate Advances(cfg: Config, s: State, t: nat)
    requires t < |s.pcs| == |cfg.jobs|
  {
    var pcs := Step(cfg, s, t).pcs;
    |pcs| == |s.pcs| && pcs == s.pcs[t := pcs[t]] && Left(cfg.jobs[t], pcs[t]) < Left(cfg.jobs[t], s.pcs[t])
  }

  lemma StepAdvances(cfg: Config, s: State, t: nat)
    requires t < |s.pcs| == |cfg.jobs| && s.pcs[t] != Ended
    requires s.pcs[t] == Begin ==> s.writer.None?
    requires s.pcs[t] == Wait ==> s.writer.None? && forall u | 0 <= u < |s.pcs| :: !Reading(s.pcs[u])
    ensures Advances(cfg, s, t)
  {
    var pcs := Step(cfg, s, t).pcs;
    assert pcs == s.pcs[t := pcs[t]];
  }

  /** No deadlock: as long as not all have ended, some thread can go on. */
  lemma SomeoneAdvances(cfg: Config, s: State) returns (t: nat)
    requires Locked(cfg, s) && !Over(s)
    ensures t < |s.pcs| && Advances(cfg, s, t)
  {
    hide Advances;
    if s.writer.Some? {
      t := s.writer.value;
    } else if u: nat :| u < |s.pcs| && s.pcs[u] != Ended && s.pcs[u] != Wait {
      t := u;
    } else {
      t :| t < |s.pcs| && s.pcs[t] != Ended;
    }
    StepAdvances(cfg, s, t);
  }

  /** From every state some continuation ends all threads with the lock free. */
  lemma EveryoneEnds(cfg: Config, s: State) returns (schedule: Schedule)
    requires Locked(cfg, s)
    ensures Over(Run(cfg, s, schedule))
    decreases if |s.pcs| == |cfg.jobs| then LeftOver(cfg.jobs, s.pcs) else 0
  {
    if Over(s) {
      schedule := [];
    } else {
      var t := SomeoneAdvances(cfg, s);
      LeftOverUpdate(cfg.jobs, s.pcs, t, Step(cfg, s, t).pcs[t]);
      LockedStep(cfg, s, t);
      hide Locked;
      var rest := EveryoneEnds(cfg, Step(cfg, s, t));
      schedule := [t] + rest;
      assert schedule[0] == t && schedule[1..] == rest;
    }
  }

  /** After any run from the start, all threads can still come to their end. */
  lemma AlwaysCompletable(cfg: Config, schedule: Schedule) returns (more: Schedule)
    ensures Over(Run(cfg, Start(cfg), schedule + more))
  {
    assert Locked(cfg, Start(cfg));
    RunKeepsLocked(cfg, Start(cfg), schedule);
    more := EveryoneEnds(cfg, Run(cfg, Start(cfg), schedule));
    RunConcat(cfg, Start(cfg), schedule, more);
  }

  // ----- and then there is a schema

  /** The first field of the list parses. */
  predicate Fruitful(job: Job) {
    job.fields != [] && job.throwsAt != Some(0)
  }

  /** A thread that is past its turn has left a schema behind, its own or another's. */
  predicate LeftBehind(cfg: Config, s: State, t: nat)
    requires t < |s.pcs| == |cfg.jobs|
  {
    match s.pcs[t]
    case Begin => true
    case Peek => true
    case Release(empty) => !empty ==> s.schema != []
    case Wait => true
    case Recheck => true
    case Filling(i) => i > 0 ==> s.schema != []
    case Building => Fruitful(cfg.jobs[t]) ==> s.schema != []
    case Closing => Fruitful(cfg.jobs[t]) ==> s.schema != []
    case Ended => Fruitful(cfg.jobs[t]) ==> s.schema != []
  }

  predicate SchemaLeft(cfg: Config, s: State) {
    |s.pcs| == |cfg.jobs| && forall t | 0 <= t < |s.pcs| :: LeftBehind(cfg, s, t)
  }

  lemma SchemaLeftStep(cfg: Config, s: State, t: nat)
    requires SchemaLeft(cfg, s) && t < |s.pcs|
    ensures SchemaLeft(cfg, Step(cfg, s, t))
  {
    var s' := Step(cfg, s, t);
    assert s.schema != [] ==> s'.schema != [];
    assert LeftBehind(cfg, s, t) && LeftBehind(cfg, s', t);
    forall u | 0 <= u < |s'.pcs| ensures LeftBehind(cfg, s', u) {
      if u != t { assert s'.pcs[u] == s.pcs[u] && LeftBehind(cfg, s, u); }
    }
  }

  lemma {:induction false} RunKeepsSchemaLeft(cfg: Config, s: State, schedule: Schedule)
    requires SchemaLeft(cfg, s)
    ensures SchemaLeft(cfg, Run(cfg, s, schedule))
    decreases |schedule|
  {
    if schedule != [] {
      if schedule[0] < |s.pcs| { SchemaLeftStep(cfg, s, schedule[0]); }
      hide SchemaLeft;
      RunKeepsSchemaLeft(cfg, if schedule[0] < |s.pcs| then Step(cfg, s, schedule[0]) else s, schedule[1..]);
    }
  }

  /** In every interleaving: once a thread whose first field parses has ended, there is a schema. */
  lemma EndedPublishes(cfg: Config, schedule: Schedule, t: nat)
    requires t < |cfg.jobs| && Fruitful(cfg.jobs[t])
    ensures var s := Run(cfg, Start(cfg), schedule);
            |s.pcs| == |cfg.jobs| && (s.pcs[t] == Ended ==> s.schema != [])
  {
    assert SchemaLeft(cfg, Start(cfg));
    RunKeepsSchemaLeft(cfg, Start(cfg), schedule);
    assert LeftBehind(cfg, Run(cfg, Start(cfg), schedule), t);
  }
}
