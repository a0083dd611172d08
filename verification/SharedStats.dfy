/**
 The statistics handshake of `common/src/shared_stats.rs` as interleaved steps
 of any number of processes under sequential consistency: one tile that
 publishes its counters, and processes that reset or read them. Counters are
 modelled by the set of serial numbers of the packets they count, so a count
 can be traced to its packets. Copying a record is not atomic: a write passes
 through an arbitrary torn value and a read mixes two snapshots.
 */
module SharedStats {
  type Pid = nat
  type Packets = set<nat>

  const TILE: Pid := 0

  datatype Operation = Reset | Read | Update

  datatype Outcome = ResetDone | ReadDone(stats: Packets) | UpdateDone(reset: bool)

  /** Where a process is; `Wants` spins on the lock, `Leaving` is about to release it. */
  datatype Pc =
    | Idle
    | Wants(op: Operation)
    | ResetFlag | ResetTear | ResetWrite
    | ReadFirst | ReadRest(copy: Packets)
    | UpdateCheck | UpdateTear | UpdateWrite | UpdateClear(reset: bool)
    | Leaving(outcome: Outcome)
    | Returned(outcome: Outcome)

  /** `mark` is the number of packets processed when a reset last released the lock. */
  datatype State = State(
    lock: nat, stats: Packets, shouldReset: nat,
    pcs: map<Pid, Pc>,
    local: Packets, processed: nat, mark: nat)

  datatype Action =
    | Process
    | Begin(p: Pid, op: Operation)
    | Take(p: Pid)
    | Spin(p: Pid)
    | Work(p: Pid, torn: Packets)
    | Release(p: Pid)
    | Return(p: Pid)

  predicate Holds(pc: Pc) {
    !(pc.Idle? || pc.Wants? || pc.Returned?)
  }

  ghost predicate Start(s: State) {
    && s == State(0, {}, 0, s.pcs, {}, 0, 0)
    && TILE in s.pcs
    && forall p :: p in s.pcs ==> s.pcs[p] == Idle
  }

  function FirstWork(op: Operation): Pc {
    match op
    case Reset => ResetFlag
    case Read => ReadFirst
    case Update => UpdateCheck
  }

  /** One memory access of a process that holds the lock. */
  ghost predicate Works(s: State, p: Pid, torn: Packets, s': State)
    requires p in s.pcs
  {
    match s.pcs[p]
    case ResetFlag => s' == s.(shouldReset := 1, pcs := s.pcs[p := ResetTear])
    case ResetTear => s' == s.(stats := torn, pcs := s.pcs[p := ResetWrite])
    case ResetWrite => s' == s.(stats := {}, pcs := s.pcs[p := Leaving(ResetDone)])
    case ReadFirst => s' == s.(pcs := s.pcs[p := ReadRest(s.stats)])
    case ReadRest(copy) =>
      copy * s.stats <= torn <= copy + s.stats && s' == s.(pcs := s.pcs[p := Leaving(ReadDone(torn))])
    case UpdateCheck =>
      s' == s.(pcs := s.pcs[p := if s.shouldReset == 0 then UpdateTear else UpdateClear(true)])
    case UpdateTear => s' == s.(stats := torn, pcs := s.pcs[p := UpdateWrite])
    case UpdateWrite => s' == s.(stats := s.local, pcs := s.pcs[p := UpdateClear(false)])
    case UpdateClear(reset) => s' == s.(shouldReset := 0, pcs := s.pcs[p := Leaving(UpdateDone(reset))])
    case _ => false
  }

  ghost predicate Next(s: State, a: Action, s': State) {
    match a
    case Process =>
      && TILE in s.pcs && s.pcs[TILE].Idle?
      && s' == s.(local := s.local + {s.processed}, processed := s.processed + 1)
    case Begin(p, op) =>
      && p in s.pcs && s.pcs[p].Idle? && (op.Update? <==> p == TILE)
      && s' == s.(pcs := s.pcs[p := Wants(op)])
    case Take(p) =>
      && p in s.pcs && s.pcs[p].Wants? && s.lock == 0
      && s' == s.(lock := 1, pcs := s.pcs[p := FirstWork(s.pcs[p].op)])
    case Spin(p) =>
      && p in s.pcs
      && ((s.pcs[p].Wants? && s.lock != 0) || (s.pcs[p].Leaving? && s.lock != 1))
      && s' == s
    case Work(p, torn) => p in s.pcs && Works(s, p, torn, s')
    case Release(p) =>
      && p in s.pcs && s.pcs[p].Leaving? && s.lock == 1
      && s' == s.(lock := 0, pcs := s.pcs[p := Returned(s.pcs[p].outcome)],
                  mark := if s.pcs[p].outcome.ResetDone? then s.processed else s.mark)
    case Return(p) =>
      && p in s.pcs && s.pcs[p].Returned?
      && s' == s.(pcs := s.pcs[p := Idle], local := if s.pcs[p].outcome == UpdateDone(true) then {} else s.local)
  }

  // ---------------------------------------------------------- the invariant

  /** Critical sections exclude each other, and the lock word says whether one is open. */
  ghost predicate Exclusion(s: State) {
    && s.lock <= 1
    && (s.lock == 0 ==> forall p :: p in s.pcs ==> !Holds(s.pcs[p]))
    && (forall p, q :: p in s.pcs && q in s.pcs && Holds(s.pcs[p]) && Holds(s.pcs[q]) ==> p == q)
  }

  ghost predicate AllFrom(ps: Packets, mark: nat) {
    forall x :: x in ps ==> mark <= x
  }

  predicate IsUpdating(pc: Pc) {
    || pc.UpdateCheck? || pc.UpdateTear? || pc.UpdateWrite? || pc.UpdateClear?
    || (pc.Wants? && pc.op.Update?)
    || ((pc.Leaving? || pc.Returned?) && pc.outcome.UpdateDone?)
  }

  /** Only the tile updates, and it does nothing else. */
  ghost predicate Roles(s: State) {
    && TILE in s.pcs
    && forall p :: p in s.pcs ==> s.pcs[p].Idle? || (IsUpdating(s.pcs[p]) <==> p == TILE)
  }

  /** The tile has read a reset request and not yet emptied its counters. */
  predicate Emptying(pc: Pc) {
    pc == UpdateClear(true) || pc == Leaving(UpdateDone(true)) || pc == Returned(UpdateDone(true))
  }

  /** What the point a process has reached says about the shared fields. */
  ghost predicate PointOk(s: State, pc: Pc) {
    match pc
    case ResetTear => s.shouldReset == 1
    case ResetWrite => s.shouldReset == 1
    case ReadRest(copy) => copy == s.stats
    case UpdateTear => s.shouldReset == 0
    case UpdateWrite => s.shouldReset == 0
    case UpdateClear(reset) => reset <==> s.shouldReset == 1
    case Leaving(outcome) =>
      (outcome.ResetDone? ==> s.shouldReset == 1 && s.stats == {})
      && (outcome.ReadDone? ==> outcome.stats == s.stats)
    case _ => true
  }

  ghost predicate MidWrite(pc: Pc) {
    pc.ResetWrite? || pc.UpdateWrite?
  }

  ghost predicate Quiet(s: State) {
    forall p :: p in s.pcs ==> !MidWrite(s.pcs[p])
  }

  /**
   Unless a reset is pending, the tile's own counters and, outside of writes,
   the shared ones hold only packets processed since the last reset.
   */
  ghost predicate CountsOk(s: State)
    requires TILE in s.pcs
  {
    && s.shouldReset <= 1 && s.mark <= s.processed
    && (s.shouldReset == 0 && !Emptying(s.pcs[TILE]) ==> AllFrom(s.local, s.mark))
    && (Quiet(s) ==> AllFrom(s.stats, s.mark))
  }

  ghost predicate Inv(s: State) {
    && Exclusion(s)
    && Roles(s)
    && (forall p :: p in s.pcs ==> PointOk(s, s.pcs[p]))
    && CountsOk(s)
  }

  lemma StartOk(s: State)
    requires Start(s)
    ensures Inv(s)
  {
  }

  lemma ExclusionKept(s: State, a: Action, s': State)
    requires Exclusion(s) && Next(s, a, s')
    ensures Exclusion(s')
  {
  }

  lemma RolesKept(s: State, a: Action, s': State)
    requires Roles(s) && Next(s, a, s')
    ensures Roles(s')
  {
  }

  lemma PointsKept(s: State, a: Action, s': State)
    requires Inv(s) && Next(s, a, s')
    ensures forall p :: p in s'.pcs ==> PointOk(s', s'.pcs[p])
  {
  }

  lemma SharedKept(s: State, a: Action, s': State)
    requires Inv(s) && Next(s, a, s') && Quiet(s')
    ensures AllFrom(s'.stats, s'.mark)
  {
    if !Quiet(s) {
      var p :| p in s.pcs && MidWrite(s.pcs[p]);
      assert s'.pcs[p] != s.pcs[p];
    } else {
      assert a.Work? ==> !MidWrite(s'.pcs[a.p]);
    }
  }

  lemma LocalKept(s: State, a: Action, s': State)
    requires Inv(s) && Next(s, a, s')
    ensures TILE in s'.pcs && s'.shouldReset <= 1 && s'.mark <= s'.processed
    ensures s'.shouldReset == 0 && !Emptying(s'.pcs[TILE]) ==> AllFrom(s'.local, s'.mark)
  {
  }

  lemma CountsKept(s: State, a: Action, s': State)
    requires Inv(s) && Next(s, a, s')
    ensures TILE in s'.pcs && CountsOk(s')
  {
    hide Inv, Next, Quiet;
    LocalKept(s, a, s');
    if Quiet(s') {
      SharedKept(s, a, s');
    }
  }

  lemma StepKeeps(s: State, a: Action, s': State)
    requires Inv(s) && Next(s, a, s')
    ensures Inv(s') && s.mark <= s'.mark
  {
    hide PointOk, Works;
    assert Exclusion(s') by { ExclusionKept(s, a, s'); }
    assert Roles(s') by { RolesKept(s, a, s'); }
    PointsKept(s, a, s');
    CountsKept(s, a, s');
    MarkGrows(s, a, s');
  }

  lemma MarkGrows(s: State, a: Action, s': State)
    requires s.mark <= s.processed && Next(s, a, s')
    ensures s.mark <= s'.mark
  {
  }

  // -------------------------------------------------------------- whole runs

  ghost predicate Run(ss: seq<State>, acts: seq<Action>) {
    && |ss| == |acts| + 1
    && Start(ss[0])
    && forall i, j :: 0 <= i < j < |ss| && j <= i + 1 ==> Next(ss[i], acts[i], ss[j])
  }

  lemma {:induction false} RunKeeps(ss: seq<State>, acts: seq<Action>, i: nat)
    requires Run(ss, acts) && i < |ss|
    ensures Inv(ss[i])
  {
    hide Inv, Next;
    if i == 0 {
      StartOk(ss[0]);
    } else {
      RunKeeps(ss, acts, i - 1);
      StepKeeps(ss[i - 1], acts[i - 1], ss[i]);
    }
  }

  lemma {:induction false} MarkMonotone(ss: seq<State>, acts: seq<Action>, i: nat, j: nat)
    requires Run(ss, acts) && i <= j < |ss|
    ensures ss[i].mark <= ss[j].mark
    decreases j - i
  {
    hide Inv, Next;
    if i < j {
      MarkMonotone(ss, acts, i, j - 1);
      RunKeeps(ss, acts, j - 1);
      StepKeeps(ss[j - 1], acts[j - 1], ss[j]);
    }
  }

  /** No two processes are ever inside their critical sections together. */
  lemma MutualExclusion(ss: seq<State>, acts: seq<Action>, i: nat, p: Pid, q: Pid)
    requires Run(ss, acts) && i < |ss| && p in ss[i].pcs && q in ss[i].pcs
    requires Holds(ss[i].pcs[p]) && Holds(ss[i].pcs[q])
    ensures p == q && ss[i].lock == 1
  {
    hide Next;
    RunKeeps(ss, acts, i);
  }

  /** Step `i` lets a process leave a reset. */
  ghost predicate Resets(s: State, a: Action) {
    a.Release? && a.p in s.pcs && s.pcs[a.p] == Leaving(ResetDone)
  }

  /** Step `j` ends a read with the given counters. */
  ghost predicate Reads(s: State, a: Action, stats: Packets) {
    a.Work? && a.p in s.pcs && s.pcs[a.p].ReadRest? && a.torn == stats
  }

  /** What a read returns is never torn and counts nothing from before the last reset. */
  lemma ReadIsFresh(ss: seq<State>, acts: seq<Action>, j: nat, stats: Packets)
    requires Run(ss, acts) && j < |acts| && Reads(ss[j], acts[j], stats)
    ensures stats == ss[j].stats && Quiet(ss[j]) && AllFrom(stats, ss[j].mark)
  {
    RunKeeps(ss, acts, j);
    assert Next(ss[j], acts[j], ss[j + 1]);
    assert PointOk(ss[j], ss[j].pcs[acts[j].p]);
    forall q | q in ss[j].pcs ensures !MidWrite(ss[j].pcs[q]) {
      assert Holds(ss[j].pcs[acts[j].p]);
    }
  }

  /** No read after a reset returns counts for packets that the tile processed before that reset. */
  lemma ReadAfterReset(ss: seq<State>, acts: seq<Action>, i: nat, j: nat, stats: Packets)
    requires Run(ss, acts) && i < j < |acts| && Resets(ss[i], acts[i]) && Reads(ss[j], acts[j], stats)
    ensures AllFrom(stats, ss[i].processed)
  {
    hide Inv;
    assert Next(ss[i], acts[i], ss[i + 1]);
    MarkMonotone(ss, acts, i + 1, j);
    ReadIsFresh(ss, acts, j, stats);
  }

  // ------------------------------------------------ what exactly is counted

  /** The packets with serial numbers from `from` up to, not including, `to`. */
  function Interval(from: nat, to: nat): (ps: Packets)
    ensures forall x :: x in ps <==> from <= x < to
  {
    if to <= from then {} else Interval(from, to - 1) + {to - 1}
  }

  /** How many packets had been processed when the tile last emptied its counters. */
  ghost function EmptiedAt(ss: seq<State>, acts: seq<Action>, i: nat): nat
    requires i <= |acts| <= |ss|
  {
    if i == 0 then 0
    else
      var s, a := ss[i - 1], acts[i - 1];
      if a.Return? && a.p in s.pcs && s.pcs[a.p] == Returned(UpdateDone(true)) then s.processed
      else EmptiedAt(ss, acts, i - 1)
  }

  lemma LocalStep(s: State, a: Action, s': State)
    requires Next(s, a, s')
    ensures s'.processed == if a.Process? then s.processed + 1 else s.processed
    ensures s'.local
            == if a.Process? then s.local + {s.processed}
               else if a.Return? && a.p in s.pcs && s.pcs[a.p] == Returned(UpdateDone(true)) then {}
               else s.local
  {
  }

  /** The tile counts every packet since it last emptied its counters, and no other. */
  lemma {:induction false} LocalExact(ss: seq<State>, acts: seq<Action>, i: nat)
    requires Run(ss, acts) && i < |ss|
    ensures EmptiedAt(ss, acts, i) <= ss[i].processed
    ensures ss[i].local == Interval(EmptiedAt(ss, acts, i), ss[i].processed)
  {
    hide Next;
    if i > 0 {
      LocalExact(ss, acts, i - 1);
      LocalStep(ss[i - 1], acts[i - 1], ss[i]);
    }
  }

  /** The value of the last write to the shared counters: a reset empties them, an update publishes. */
  ghost function Written(ss: seq<State>, acts: seq<Action>, i: nat): Packets
    requires i <= |acts| <= |ss|
  {
    if i == 0 then {}
    else
      var s, a := ss[i - 1], acts[i - 1];
      if a.Work? && a.p in s.pcs && s.pcs[a.p].ResetWrite? then {}
      else if a.Work? && a.p in s.pcs && s.pcs[a.p].UpdateWrite? then
        Interval(EmptiedAt(ss, acts, i - 1), s.processed)
      else Written(ss, acts, i - 1)
  }

  lemma {:induction false} StatsExact(ss: seq<State>, acts: seq<Action>, i: nat)
    requires Run(ss, acts) && i < |ss| && Quiet(ss[i])
    ensures ss[i].stats == Written(ss, acts, i)
  {
    hide Next, Inv, Quiet;
    if i > 0 {
      LocalExact(ss, acts, i - 1);
      RunKeeps(ss, acts, i - 1);
      StatsStep(ss[i - 1], acts[i - 1], ss[i]);
      if Quiet(ss[i - 1]) {
        StatsExact(ss, acts, i - 1);
      }
    }
  }

  /** The shared counters change in a write, or not at all between quiet states. */
  lemma StatsStep(s: State, a: Action, s': State)
    requires Inv(s) && Next(s, a, s') && Quiet(s')
    ensures if a.Work? && a.p in s.pcs && s.pcs[a.p].ResetWrite? then s'.stats == {}
            else if a.Work? && a.p in s.pcs && s.pcs[a.p].UpdateWrite? then s'.stats == s.local
            else Quiet(s) && s'.stats == s.stats
  {
    if a.Work? {
      assert !MidWrite(s'.pcs[a.p]);
    }
    if !Quiet(s) {
      var p :| p in s.pcs && MidWrite(s.pcs[p]);
      assert s'.pcs[p] != s.pcs[p];
    }
  }

  /** A read returns exactly the last published counters, or none after a reset that came later. */
  lemma ReadReturnsPublished(ss: seq<State>, acts: seq<Action>, j: nat, stats: Packets)
    requires Run(ss, acts) && j < |acts| && Reads(ss[j], acts[j], stats)
    ensures stats == Written(ss, acts, j)
  {
    hide Inv, Next;
    ReadIsFresh(ss, acts, j, stats);
    StatsExact(ss, acts, j);
  }

  // ------------------------------------------------------- no reset is lost

  /** A reset request waits for the tile, which has not passed its check. */
  ghost predicate Pending(s: State)
    requires TILE in s.pcs
  {
    s.shouldReset == 1 && !(s.pcs[TILE].UpdateTear? || s.pcs[TILE].UpdateWrite? || s.pcs[TILE].UpdateClear?)
  }

  ghost predicate Checks(s: State, a: Action) {
    a.Work? && a.p in s.pcs && s.pcs[a.p].UpdateCheck?
  }

  lemma PendingKept(s: State, a: Action, s': State)
    requires Inv(s) && Next(s, a, s') && Pending(s) && !Checks(s, a)
    ensures TILE in s'.pcs && Pending(s')
  {
  }

  lemma {:induction false} StaysPending(ss: seq<State>, acts: seq<Action>, i: nat, j: nat)
    requires Run(ss, acts) && i < j < |ss| && Resets(ss[i], acts[i])
    requires forall m :: i < m < j ==> !Checks(ss[m], acts[m])
    ensures TILE in ss[j].pcs && Pending(ss[j])
    decreases j - i
  {
    hide Inv, Next;
    RunKeeps(ss, acts, j - 1);
    assert Next(ss[j - 1], acts[j - 1], ss[j]);
    if i + 1 == j {
      ResetPends(ss[i], acts[i], ss[j]);
    } else {
      StaysPending(ss, acts, i, j - 1);
      PendingKept(ss[j - 1], acts[j - 1], ss[j]);
    }
  }

  lemma ResetPends(s: State, a: Action, s': State)
    requires Inv(s) && Next(s, a, s') && Resets(s, a)
    ensures TILE in s'.pcs && Pending(s')
  {
    assert PointOk(s, s.pcs[a.p]);
    assert Holds(s.pcs[a.p]);
  }

  /** A reset is never lost: the tile's first check after it reads the request and goes on to empty its counters. */
  lemma ResetNeverLost(ss: seq<State>, acts: seq<Action>, i: nat, j: nat)
    requires Run(ss, acts) && i < j < |acts| && Resets(ss[i], acts[i]) && Checks(ss[j], acts[j])
    requires forall m :: i < m < j ==> !Checks(ss[m], acts[m])
    ensures TILE in ss[j + 1].pcs && ss[j + 1].pcs[TILE] == UpdateClear(true)
  {
    hide Inv;
    StaysPending(ss, acts, i, j);
    RunKeeps(ss, acts, j);
    CheckIsTile(ss[j], acts[j]);
    assert Next(ss[j], acts[j], ss[j + 1]);
  }

  lemma CheckIsTile(s: State, a: Action)
    requires Inv(s) && Checks(s, a)
    ensures a.p == TILE
  {
  }

  /** A process requests a reset. */
  ghost predicate Requests(s: State, a: Action) {
    a.Work? && a.p in s.pcs && s.pcs[a.p].ResetFlag?
  }

  /** The tile takes the request flag back. */
  ghost predicate Clears(s: State, a: Action) {
    a.Work? && a.p in s.pcs && s.pcs[a.p].UpdateClear?
  }

  lemma FlagStep(s: State, a: Action, s': State)
    requires Next(s, a, s')
    ensures s'.shouldReset == if Requests(s, a) then 1 else if Clears(s, a) then 0 else s.shouldReset
  {
  }

  /** The tile never sees a request twice: behind a raised flag is a request made since the flag was last cleared. */
  lemma {:induction false} RequestBehindFlag(ss: seq<State>, acts: seq<Action>, j: nat) returns (i: nat)
    requires Run(ss, acts) && j < |ss| && ss[j].shouldReset != 0
    ensures i < j && Requests(ss[i], acts[i])
    ensures forall m :: i < m < j ==> !Clears(ss[m], acts[m])
  {
    hide Next;
    if j > 0 {
      FlagStep(ss[j - 1], acts[j - 1], ss[j]);
      if Requests(ss[j - 1], acts[j - 1]) {
        i := j - 1;
      } else {
        i := RequestBehindFlag(ss, acts, j - 1);
      }
    }
  }

  /** Once the tile has read a reset request it processes no packet before its counters are empty. */
  lemma EmptiesBeforeProcessing(s: State, a: Action, s': State)
    requires Inv(s) && Next(s, a, s') && Emptying(s.pcs[TILE])
    ensures !a.Process? && (Emptying(s'.pcs[TILE]) || (s'.pcs[TILE].Idle? && s'.local == {}))
  {
  }
}
