/** The metadata handshake of the missing-value algorithm.

Three parties exchange their column counts and then their column types over FIFO channels. In each
round party p runs the same loop over i = 0, 1, 2: on its own turn it sends to its next and to its
previous neighbour, otherwise it receives from party i. A round ends with a comparison that raises
when the three values differ. A schedule is any sequence of party ids; a party that waits on an empty
channel does nothing when scheduled.
*/
module Handshake {
  import opened Wrappers

  datatype Msg = Count(n: nat) | Types(ts: seq<int>)

  type PartyId = p: nat | p < 3

  datatype Instr = Send(to: PartyId) | RecvFrom(sender: PartyId) | Check | Done

  const CHECK1: nat := 4
  const CHECK2: nat := 9
  const FINISHED: nat := 10

  /** Instruction k of a round, before its check. */
  function RoundInstr(p: PartyId, k: nat): Instr
    requires k < 4
  {
    if k < p then RecvFrom(k)
    else if k == p then Send((p + 1) % 3)
    else if k == p + 1 then Send((p + 2) % 3)
    else RecvFrom(k - 1)
  }

  function InstrAt(p: PartyId, pc: nat): Instr {
    if pc < CHECK1 then RoundInstr(p, pc)
    else if pc == CHECK1 || pc == CHECK2 then Check
    else if pc < CHECK2 then RoundInstr(p, pc - 5)
    else Done
  }

  /** A party: where it is, whether it has raised, and what it has heard from the others. */
  datatype Local = Local(pc: nat, raised: bool, counts: map<nat, nat>, types: map<nat, seq<int>>)

  datatype State = State(locals: seq<Local>, chan: map<(nat, nat), seq<Msg>>)

  /** The parties' own column types; the column count of a party is the length of its list. */
  type Config = c: seq<seq<int>> | |c| == 3 witness [[], [], []]

  /** A blocked party waits; a `Mixup` is a message of the wrong kind or a type list that does not fit
      the buffer reserved for it. */
  datatype Move = Blocked | Mixup | Moved(s: State)

  predicate Shape(s: State) {
    |s.locals| == 3 && forall i, j | 0 <= i < 3 && 0 <= j < 3 :: (i, j) in s.chan
  }

  function Put(s: State, p: PartyId, l: Local): State
    requires Shape(s)
  {
    s.(locals := s.locals[p := l])
  }

  /** The message a party sends at a program point: its count in round one, its types in round two. */
  function Payload(cfg: Config, p: PartyId, pc: nat): Msg {
    if pc < CHECK1 then Count(|cfg[p]|) else Types(cfg[p])
  }

  function SendMove(cfg: Config, s: State, p: PartyId, q: PartyId): State
    requires Shape(s)
  {
    var l := s.locals[p];
    State(s.locals[p := l.(pc := l.pc + 1)], s.chan[(p, q) := s.chan[(p, q)] + [Payload(cfg, p, l.pc)]])
  }

  /** The buffer for a type list has one slot for each of the receiver's own columns. */
  function Hear(cfg: Config, p: PartyId, l: Local, q: PartyId, msg: Msg): (bool, Local) {
    if l.pc < CHECK1 then
      if msg.Count? then (true, l.(pc := l.pc + 1, counts := l.counts[q := msg.n])) else (false, l)
    else
      if msg.Types? && |msg.ts| == |cfg[p]| then (true, l.(pc := l.pc + 1, types := l.types[q := msg.ts]))
      else (false, l)
  }

  function RecvMove(cfg: Config, s: State, p: PartyId, q: PartyId): Move
    requires Shape(s)
  {
    if s.chan[(q, p)] == [] then Blocked
    else
      var (ok, l) := Hear(cfg, p, s.locals[p], q, s.chan[(q, p)][0]);
      if ok then Moved(State(s.locals[p := l], s.chan[(q, p) := s.chan[(q, p)][1..]])) else Mixup
  }

  /** Compares what was heard from both neighbours with one's own, or says that nothing was heard. */
  function Verdict(cfg: Config, p: PartyId, l: Local): Option<bool> {
    var next, prev := (p + 1) % 3, (p + 2) % 3;
    if l.pc == CHECK1 then
      if next !in l.counts || prev !in l.counts then None
      else Some(|cfg[p]| == l.counts[next] == l.counts[prev])
    else
      if next !in l.types || prev !in l.types then None
      else Some(cfg[p] == l.types[next] == l.types[prev])
  }

  function CheckMove(cfg: Config, s: State, p: PartyId): Move
    requires Shape(s)
  {
    var l := s.locals[p];
    match Verdict(cfg, p, l)
    case None => Mixup
    case Some(same) => Moved(Put(s, p, if same then l.(pc := l.pc + 1) else l.(raised := true)))
  }

  function Move1(cfg: Config, s: State, p: PartyId): Move
    requires Shape(s)
  {
    if s.locals[p].raised then Blocked
    else
      match InstrAt(p, s.locals[p].pc)
      case Done => Blocked
      case Send(q) => Moved(SendMove(cfg, s, p, q))
      case RecvFrom(q) => RecvMove(cfg, s, p, q)
      case Check => CheckMove(cfg, s, p)
  }

  const IDLE: Local := Local(0, false, map[], map[])

  const START: State :=
    State([IDLE, IDLE, IDLE],
          map[(0, 0) := [], (0, 1) := [], (0, 2) := [], (1, 0) := [], (1, 1) := [], (1, 2) := [],
              (2, 0) := [], (2, 1) := [], (2, 2) := []])

  // ----- what the program counters determine

  /** Where in a round i sends to j, and where j receives from i. */
  function SendSlot(i: PartyId, j: PartyId): nat {
    if j == (i + 1) % 3 then i else i + 1
  }

  function RecvSlot(j: PartyId, i: PartyId): nat {
    if i < j then i else i + 1
  }

  function Outbox(cfg: Config, i: PartyId, j: PartyId, pc: nat): seq<Msg> {
    (if pc > SendSlot(i, j) then [Count(|cfg[i]|)] else []) +
    (if pc > 5 + SendSlot(i, j) then [Types(cfg[i])] else [])
  }

  function Taken(j: PartyId, i: PartyId, pc: nat): nat {
    (if pc > RecvSlot(j, i) then 1 else 0) + (if pc > 5 + RecvSlot(j, i) then 1 else 0)
  }

  predicate SameCounts(cfg: Config) {
    |cfg[0]| == |cfg[1]| == |cfg[2]|
  }

  predicate SameTypes(cfg: Config) {
    cfg[0] == cfg[1] == cfg[2]
  }

  ghost predicate ChannelOk(cfg: Config, s: State, i: PartyId, j: PartyId)
    requires Shape(s)
  {
    var out, got := Outbox(cfg, i, j, s.locals[i].pc), Taken(j, i, s.locals[j].pc);
    got <= |out| && s.chan[(i, j)] == out[got..]
  }

  ghost predicate LocalOk(cfg: Config, s: State, p: PartyId)
    requires Shape(s)
  {
    var l := s.locals[p];
    && l.pc <= FINISHED
    && (forall q: PartyId | q != p && l.pc > RecvSlot(p, q) :: q in l.counts && l.counts[q] == |cfg[q]|)
    && (forall q: PartyId | q != p && l.pc > 5 + RecvSlot(p, q) :: q in l.types && l.types[q] == cfg[q])
    && (l.pc > CHECK1 ==> SameCounts(cfg))
    && (l.pc > CHECK2 ==> SameTypes(cfg))
    && (l.raised ==> (l.pc == CHECK1 && !SameCounts(cfg)) || (l.pc == CHECK2 && !SameTypes(cfg)))
  }

  ghost predicate Inv(cfg: Config, s: State) {
    && Shape(s)
    && (forall p: PartyId :: LocalOk(cfg, s, p))
    && (forall i: PartyId, j: PartyId | i != j :: ChannelOk(cfg, s, i, j))
  }

  lemma InvStart(cfg: Config)
    ensures Inv(cfg, START)
  {
    assert Shape(START);
    forall p: PartyId ensures LocalOk(cfg, START, p) {
      assert START.locals[p] == IDLE;
    }
    forall i: PartyId, j: PartyId | i != j ensures ChannelOk(cfg, START, i, j) {
      assert START.chan[(i, j)] == [] && START.locals[i] == IDLE && START.locals[j] == IDLE;
      assert Outbox(cfg, i, j, 0) == [] && Taken(j, i, 0) == 0;
    }
  }

  lemma OutboxStep(cfg: Config, i: PartyId, j: PartyId, pc: nat)
    requires i != j && pc < FINISHED
    ensures Outbox(cfg, i, j, pc + 1)
         == Outbox(cfg, i, j, pc) + (if InstrAt(i, pc) == Send(j) then [Payload(cfg, i, pc)] else [])
  {
  }

  lemma TakenStep(j: PartyId, i: PartyId, pc: nat)
    requires i != j && pc < FINISHED
    ensures Taken(j, i, pc + 1) == Taken(j, i, pc) + (if InstrAt(j, pc) == RecvFrom(i) then 1 else 0)
  {
  }

  /** An instruction never talks to the party itself. */
  lemma NoSelfTalk(p: PartyId, pc: nat)
    ensures InstrAt(p, pc) != Send(p) && InstrAt(p, pc) != RecvFrom(p)
  {
  }

  lemma ChannelAfter(cfg: Config, s: State, s': State, p: PartyId, i: PartyId, j: PartyId)
    requires Inv(cfg, s) && Shape(s') && i != j && s.locals[p].pc < FINISHED
    requires forall q: PartyId | q != p :: s'.locals[q] == s.locals[q]
    requires s'.locals[p].pc == s.locals[p].pc + 1
    requires s'.chan[(i, j)] ==
               if p == i && InstrAt(p, s.locals[p].pc) == Send(j) then s.chan[(i, j)] + [Payload(cfg, p, s.locals[p].pc)]
               else if p == j && InstrAt(p, s.locals[p].pc) == RecvFrom(i) && s.chan[(i, j)] != [] then s.chan[(i, j)][1..]
               else s.chan[(i, j)]
    requires p == j && InstrAt(p, s.locals[p].pc) == RecvFrom(i) ==> s.chan[(i, j)] != []
    ensures ChannelOk(cfg, s', i, j)
  {
    hide Outbox;
    hide Taken;
    assert ChannelOk(cfg, s, i, j);
    var pc := s.locals[p].pc;
    var out, got := Outbox(cfg, i, j, s.locals[i].pc), Taken(j, i, s.locals[j].pc);
    if p == i {
      OutboxStep(cfg, i, j, pc);
      assert out + [] == out;
    } else if p == j {
      TakenStep(j, i, pc);
    }
  }

  lemma SendKeeps(cfg: Config, s: State, p: PartyId, q: PartyId)
    requires Inv(cfg, s) && !s.locals[p].raised && InstrAt(p, s.locals[p].pc) == Send(q)
    ensures Inv(cfg, SendMove(cfg, s, p, q))
  {
    hide Outbox;
    hide Taken;
    assert LocalOk(cfg, s, p);
    NoSelfTalk(p, s.locals[p].pc);
    var s' := SendMove(cfg, s, p, q);
    forall i: PartyId, j: PartyId | i != j ensures ChannelOk(cfg, s', i, j) {
      ChannelAfter(cfg, s, s', p, i, j);
    }
    forall r: PartyId ensures LocalOk(cfg, s', r) {
      assert LocalOk(cfg, s, r);
      if r == p { QuietStep(p, s.locals[p].pc); }
    }
  }

  /** Only a receive moves a party past a receiving slot. */
  lemma QuietStep(p: PartyId, pc: nat)
    requires !InstrAt(p, pc).RecvFrom?
    ensures forall q: PartyId | q != p :: (pc + 1 > RecvSlot(p, q) <==> pc > RecvSlot(p, q))
    ensures forall q: PartyId | q != p :: (pc + 1 > 5 + RecvSlot(p, q) <==> pc > 5 + RecvSlot(p, q))
  {
  }

  lemma RecvStep(p: PartyId, pc: nat, sender: PartyId)
    requires InstrAt(p, pc) == RecvFrom(sender)
    ensures forall q: PartyId | q != p && q != sender :: (pc + 1 > RecvSlot(p, q) <==> pc > RecvSlot(p, q))
    ensures forall q: PartyId | q != p && q != sender :: (pc + 1 > 5 + RecvSlot(p, q) <==> pc > 5 + RecvSlot(p, q))
    ensures pc < CHECK1 ==> pc == RecvSlot(p, sender)
    ensures pc >= CHECK1 ==> pc == 5 + RecvSlot(p, sender)
  {
  }

  /** What a receiver finds is what the sender sent in that very round. */
  lemma HeadOfChannel(cfg: Config, s: State, p: PartyId, q: PartyId)
    requires Inv(cfg, s) && p != q
    requires InstrAt(p, s.locals[p].pc) == RecvFrom(q) && s.chan[(q, p)] != []
    ensures s.chan[(q, p)][0] == if s.locals[p].pc < CHECK1 then Count(|cfg[q]|) else Types(cfg[q])
    ensures s.locals[p].pc > CHECK1 ==> SameCounts(cfg)
  {
    assert ChannelOk(cfg, s, q, p) && LocalOk(cfg, s, p);
  }

  /** The receiving party's own part of the invariant, after a receive. */
  lemma HearKeeps(cfg: Config, s: State, s': State, p: PartyId, q: PartyId, msg: Msg)
    requires Shape(s) && Shape(s') && LocalOk(cfg, s, p) && p != q && !s.locals[p].raised
    requires InstrAt(p, s.locals[p].pc) == RecvFrom(q)
    requires msg == if s.locals[p].pc < CHECK1 then Count(|cfg[q]|) else Types(cfg[q])
    requires s'.locals[p] == Hear(cfg, p, s.locals[p], q, msg).1 && Hear(cfg, p, s.locals[p], q, msg).0
    ensures LocalOk(cfg, s', p)
  {
    RecvStep(p, s.locals[p].pc, q);
    hide InstrAt;
    hide RecvSlot;
  }

  lemma RecvKeeps(cfg: Config, s: State, p: PartyId, q: PartyId)
    requires Inv(cfg, s) && !s.locals[p].raised && InstrAt(p, s.locals[p].pc) == RecvFrom(q)
    ensures RecvMove(cfg, s, p, q) != Mixup
    ensures RecvMove(cfg, s, p, q).Moved? ==> Inv(cfg, RecvMove(cfg, s, p, q).s)
  {
    hide Outbox;
    hide Taken;
    NoSelfTalk(p, s.locals[p].pc);
    assert LocalOk(cfg, s, p);
    if s.chan[(q, p)] != [] {
      HeadOfChannel(cfg, s, p, q);
      var s' := RecvMove(cfg, s, p, q).s;
      var msg := s.chan[(q, p)][0];
      assert s'.locals[p] == Hear(cfg, p, s.locals[p], q, msg).1;
      hide RoundInstr;
      hide RecvSlot;
      forall i: PartyId, j: PartyId | i != j ensures ChannelOk(cfg, s', i, j) {
        ChannelAfter(cfg, s, s', p, i, j);
      }
      forall r: PartyId ensures LocalOk(cfg, s', r) {
        assert LocalOk(cfg, s, r);
        if r == p { HearKeeps(cfg, s, s', p, q, msg); }
      }
    }
  }

  lemma VerdictIs(cfg: Config, s: State, p: PartyId)
    requires Inv(cfg, s) && InstrAt(p, s.locals[p].pc) == Check
    ensures Verdict(cfg, p, s.locals[p])
         == Some(if s.locals[p].pc == CHECK1 then SameCounts(cfg) else SameTypes(cfg))
  {
    assert LocalOk(cfg, s, p);
    var next: PartyId, prev: PartyId := (p + 1) % 3, (p + 2) % 3;
    assert RecvSlot(p, next) <= 3 && RecvSlot(p, prev) <= 3;
  }

  lemma CheckKeeps(cfg: Config, s: State, p: PartyId)
    requires Inv(cfg, s) && !s.locals[p].raised && InstrAt(p, s.locals[p].pc) == Check
    ensures CheckMove(cfg, s, p).Moved? && Inv(cfg, CheckMove(cfg, s, p).s)
  {
    hide Outbox;
    hide Taken;
    hide Verdict;
    VerdictIs(cfg, s, p);
    assert LocalOk(cfg, s, p);
    var s' := CheckMove(cfg, s, p).s;
    forall i: PartyId, j: PartyId | i != j ensures ChannelOk(cfg, s', i, j) {
      if s'.locals[p].raised {
        assert ChannelOk(cfg, s, i, j);
      } else {
        ChannelAfter(cfg, s, s', p, i, j);
      }
    }
    forall r: PartyId ensures LocalOk(cfg, s', r) {
      assert LocalOk(cfg, s, r);
      if r == p { QuietStep(p, s.locals[p].pc); }
    }
  }

  /** Every step of every party keeps the invariant, and no step mixes up rounds. */
  lemma InvStep(cfg: Config, s: State, p: PartyId)
    requires Inv(cfg, s)
    ensures Move1(cfg, s, p) != Mixup
    ensures Move1(cfg, s, p).Moved? ==> Inv(cfg, Move1(cfg, s, p).s)
  {
    assert Shape(s);
    hide LocalOk;
    hide ChannelOk;
    if !s.locals[p].raised {
      match InstrAt(p, s.locals[p].pc)
      case Send(q) => SendKeeps(cfg, s, p, q);
      case RecvFrom(q) => RecvKeeps(cfg, s, p, q);
      case Check => CheckKeeps(cfg, s, p);
      case Done =>
    }
  }

  // ----- whole runs

  ghost function Run(cfg: Config, s: State, schedule: seq<PartyId>): State
    requires Inv(cfg, s)
    decreases |schedule|
  {
    if schedule == [] then s
    else
      InvStep(cfg, s, schedule[0]);
      var m := Move1(cfg, s, schedule[0]);
      Run(cfg, if m.Moved? then m.s else s, schedule[1..])
  }

  lemma {:induction false} RunKeepsInv(cfg: Config, s: State, schedule: seq<PartyId>)
    requires Inv(cfg, s)
    ensures Inv(cfg, Run(cfg, s, schedule))
    decreases |schedule|
  {
    if schedule != [] {
      InvStep(cfg, s, schedule[0]);
      var m := Move1(cfg, s, schedule[0]);
      RunKeepsInv(cfg, if m.Moved? then m.s else s, schedule[1..]);
    }
  }

  ghost function FromStart(cfg: Config, schedule: seq<PartyId>): State {
    InvStart(cfg);
    Run(cfg, START, schedule)
  }

  predicate Ended(l: Local) {
    l.raised || l.pc == FINISHED
  }

  /** The rank of a waiting party: the turn it waits for, over both rounds. */
  function Turn(p: PartyId, pc: nat): nat {
    match InstrAt(p, pc)
    case RecvFrom(q) => if pc < CHECK1 then q else 3 + q
    case _ => 0
  }

  lemma WaitsForEarlier(cfg: Config, s: State, p: PartyId) returns (q: PartyId)
    requires Inv(cfg, s) && !Ended(s.locals[p]) && Move1(cfg, s, p).Blocked?
    ensures !Ended(s.locals[q])
    ensures Move1(cfg, s, q).Blocked? ==> Turn(q, s.locals[q].pc) < Turn(p, s.locals[p].pc)
  {
    var pc := s.locals[p].pc;
    assert LocalOk(cfg, s, p);
    q := InstrAt(p, pc).sender;
    assert ChannelOk(cfg, s, q, p) && LocalOk(cfg, s, q);
  }

  /** No deadlock: as long as some party has not ended, some party can move. */
  lemma NoDeadlock(cfg: Config, s: State, p: PartyId)
    requires Inv(cfg, s) && !Ended(s.locals[p])
    ensures exists q: PartyId :: Move1(cfg, s, q).Moved?
    decreases Turn(p, s.locals[p].pc)
  {
    InvStep(cfg, s, p);
    if Move1(cfg, s, p).Blocked? {
      var q := WaitsForEarlier(cfg, s, p);
      InvStep(cfg, s, q);
      if Move1(cfg, s, q).Blocked? {
        NoDeadlock(cfg, s, q);
      }
    }
  }

  function Progress(s: State): nat
    requires |s.locals| == 3
  {
    Weight(s.locals[0]) + Weight(s.locals[1]) + Weight(s.locals[2])
  }

  function Weight(l: Local): nat {
    l.pc + if l.raised then 1 else 0
  }

  lemma MoveWeighsOne(cfg: Config, s: State, p: PartyId)
    requires Shape(s) && Move1(cfg, s, p).Moved?
    ensures var s' := Move1(cfg, s, p).s;
            |s'.locals| == 3 && Weight(s'.locals[p]) == Weight(s.locals[p]) + 1
            && forall q: PartyId | q != p :: s'.locals[q] == s.locals[q]
  {
    hide Verdict;
  }

  lemma WeightBound(cfg: Config, s: State, p: PartyId)
    requires Shape(s) && LocalOk(cfg, s, p)
    ensures Weight(s.locals[p]) <= 10
  {
  }

  /** And the number of moves is bounded: each adds one to a measure that never passes thirty. */
  lemma MovesAreBounded(cfg: Config, s: State, p: PartyId)
    requires Inv(cfg, s) && Move1(cfg, s, p).Moved?
    ensures Inv(cfg, Move1(cfg, s, p).s)
    ensures Progress(Move1(cfg, s, p).s) == Progress(s) + 1 <= 30
  {
    assert Shape(s);
    InvStep(cfg, s, p);
    MoveWeighsOne(cfg, s, p);
    hide Move1;
    var s' := Move1(cfg, s, p).s;
    hide ChannelOk;
    assert LocalOk(cfg, s', 0) && LocalOk(cfg, s', 1) && LocalOk(cfg, s', 2);
    hide LocalOk;
    WeightBound(cfg, s', 0);
    WeightBound(cfg, s', 1);
    WeightBound(cfg, s', 2);
    hide Weight;
    assert p == 0 || p == 1 || p == 2;
  }

  /** Agreement, in every interleaving: a party that has ended has accepted exactly when all three
      parties have the same columns, so no two parties end differently. */
  lemma Agreement(cfg: Config, schedule: seq<PartyId>, p: PartyId)
    ensures var s := FromStart(cfg, schedule);
            |s.locals| == 3 && (Ended(s.locals[p]) ==> (!s.locals[p].raised <==> SameTypes(cfg)))
  {
    InvStart(cfg);
    RunKeepsInv(cfg, START, schedule);
    assert LocalOk(cfg, FromStart(cfg, schedule), p);
  }

  /** When all have ended, no message is left over. */
  lemma NothingLeft(cfg: Config, s: State, i: PartyId, j: PartyId)
    requires Inv(cfg, s) && i != j && forall p: PartyId :: Ended(s.locals[p])
    ensures s.chan[(i, j)] == []
  {
    assert ChannelOk(cfg, s, i, j) && LocalOk(cfg, s, i) && LocalOk(cfg, s, j);
  }

  // ----- the number of moves, and where runs end

  /** How many steps of a schedule are moves, the others being waits. */
  ghost function Moves(cfg: Config, s: State, schedule: seq<PartyId>): nat
    requires Inv(cfg, s)
    decreases |schedule|
  {
    if schedule == [] then 0
    else
      InvStep(cfg, s, schedule[0]);
      var m := Move1(cfg, s, schedule[0]);
      if m.Moved? then 1 + Moves(cfg, m.s, schedule[1..]) else Moves(cfg, s, schedule[1..])
  }

  lemma {:induction false} MovesAreProgress(cfg: Config, s: State, schedule: seq<PartyId>)
    requires Inv(cfg, s)
    ensures |Run(cfg, s, schedule).locals| == 3
    ensures Progress(Run(cfg, s, schedule)) == Progress(s) + Moves(cfg, s, schedule)
    decreases |schedule|
  {
    hide Inv;
    hide Move1;
    hide Progress;
    RunKeepsInv(cfg, s, schedule);
    assert |Run(cfg, s, schedule).locals| == 3 by { InvShape(cfg, Run(cfg, s, schedule)); }
    InvShape(cfg, s);
    if schedule != [] {
      InvStep(cfg, s, schedule[0]);
      var m := Move1(cfg, s, schedule[0]);
      if m.Moved? { MovesAreBounded(cfg, s, schedule[0]); }
      MovesAreProgress(cfg, if m.Moved? then m.s else s, schedule[1..]);
    }
  }

  lemma InvShape(cfg: Config, s: State)
    requires Inv(cfg, s)
    ensures Shape(s) && Progress(s) <= 30
  {
    assert LocalOk(cfg, s, 0) && LocalOk(cfg, s, 1) && LocalOk(cfg, s, 2);
    hide LocalOk;
    WeightBound(cfg, s, 0);
    WeightBound(cfg, s, 1);
    WeightBound(cfg, s, 2);
  }

  /** No schedule, however long, makes more than thirty moves. */
  lemma AtMostThirtyMoves(cfg: Config, schedule: seq<PartyId>)
    ensures Inv(cfg, START) && Moves(cfg, START, schedule) <= 30
  {
    InvStart(cfg);
    MovesAreProgress(cfg, START, schedule);
    RunKeepsInv(cfg, START, schedule);
    InvShape(cfg, Run(cfg, START, schedule));
  }

  ghost predicate Quiet(cfg: Config, s: State)
    requires Shape(s)
  {
    forall p: PartyId :: !Move1(cfg, s, p).Moved?
  }

  ghost predicate Over(s: State)
    requires Shape(s)
  {
    && (forall p: PartyId :: Ended(s.locals[p]))
    && (forall i: PartyId, j: PartyId | i != j :: s.chan[(i, j)] == [])
  }

  /** Where a run comes to rest, all parties have ended and all channels are empty. */
  lemma RestIsOver(cfg: Config, schedule: seq<PartyId>)
    ensures Shape(FromStart(cfg, schedule))
    ensures Quiet(cfg, FromStart(cfg, schedule)) ==> Over(FromStart(cfg, schedule))
  {
    InvStart(cfg);
    RunKeepsInv(cfg, START, schedule);
    var s := FromStart(cfg, schedule);
    InvShape(cfg, s);
    if Quiet(cfg, s) {
      QuietIsOver(cfg, s);
    }
  }

  lemma QuietIsOver(cfg: Config, s: State)
    requires Inv(cfg, s) && Quiet(cfg, s)
    ensures Over(s)
  {
    InvShape(cfg, s);
    hide Move1;
    forall p: PartyId ensures Ended(s.locals[p]) {
      if !Ended(s.locals[p]) { NoDeadlock(cfg, s, p); }
    }
    hide Inv;
    forall i: PartyId, j: PartyId | i != j ensures s.chan[(i, j)] == [] {
      NothingLeft(cfg, s, i, j);
    }
  }

  /** And from every state that can be reached, some continuation comes to that rest. */
  lemma Completes(cfg: Config, s: State) returns (schedule: seq<PartyId>)
    requires Inv(cfg, s)
    ensures Shape(Run(cfg, s, schedule)) && Over(Run(cfg, s, schedule))
    decreases 30 - (if |s.locals| == 3 then Progress(s) else 0)
  {
    hide Inv;
    hide Move1;
    hide Progress;
    hide Over;
    InvShape(cfg, s);
    if Quiet(cfg, s) {
      QuietIsOver(cfg, s);
      schedule := [];
    } else {
      var p: PartyId :| Move1(cfg, s, p).Moved?;
      MovesAreBounded(cfg, s, p);
      var s' := Move1(cfg, s, p).s;
      InvShape(cfg, s');
      var rest := Completes(cfg, s');
      schedule := [p] + rest;
      assert schedule[0] == p && schedule[1..] == rest;
    }
  }
}
