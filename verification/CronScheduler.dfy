/** The cron scheduler's floors: which firings a run answers, and which are lost. */
module CronScheduler {
  import opened Common

  datatype Kind = Prune | Scan | Analyze | Enrich | Backup

  /** A kind's schedule as it stands at a tick: whether it is on, and the instants it fires. */
  datatype Schedule = Schedule(enabled: bool, fires: int -> bool)

  /** What a tick's run of a kind comes to: refused because another holds the slot, when it is marked, whether the mark is kept. */
  datatype Attempt = Attempt(conflict: bool, mark: int, kept: bool)

  /** Time 0 stands for a run that never was. */
  datatype Floor = Floor(check: int, run: int)

  /** Where the window of a kind begins. */
  function After(f: Floor): int { if f.run > 0 && f.run > f.check then f.run else f.check }

  predicate Due(s: Schedule, f: Floor, now: int) {
    s.enabled && exists t :: After(f) < t <= now && s.fires(t)
  }

  /** The kinds whose run another may hold up; a pruning or a scan is never put off. */
  predicate Deferrable(kind: Kind) { kind in {Analyze, Enrich, Backup} }

  predicate Deferred(kind: Kind, a: Attempt) { Deferrable(kind) && a.conflict }

  function FloorAt(kind: Kind, f: Floor, s: Schedule, now: int, a: Attempt): Floor {
    if !Due(s, f, now) then f.(check := now)
    else if Deferred(kind, a) then f
    else Floor(now, if a.kept then a.mark else f.run)
  }

  /** A tick as one kind sees it. */
  datatype Turn = Turn(now: int, maintenance: bool, schedule: Schedule, attempt: Attempt)

  /** The turn begins a run of the kind. */
  predicate Begun(kind: Kind, f: Floor, turn: Turn) {
    !turn.maintenance && Due(turn.schedule, f, turn.now) && !Deferred(kind, turn.attempt)
  }

  function TurnFloor(kind: Kind, f: Floor, turn: Turn): Floor {
    if turn.maintenance then f else FloorAt(kind, f, turn.schedule, turn.now, turn.attempt)
  }

  // -------------------------------------------------------------------- the scheduler

  const KINDS := [Prune, Scan, Analyze, Enrich, Backup]

  /** A kind's place in the order of a tick. */
  function Position(kind: Kind): (i: nat)
    ensures i < |KINDS| && KINDS[i] == kind
  {
    match kind
    case Prune => 0
    case Scan => 1
    case Analyze => 2
    case Enrich => 3
    case Backup => 4
  }

  class Scheduler {
    var lastCheck: map<Kind, int>
    var lastRun: map<Kind, int>

    ghost predicate Valid()
      reads this
    {
      forall kind: Kind :: kind in lastCheck && kind in lastRun
    }

    ghost function FloorOf(kind: Kind): Floor
      reads this
      requires Valid()
    {
      Floor(lastCheck[kind], lastRun[kind])
    }

    constructor (start: int, runs: map<Kind, int>)
      requires forall kind: Kind :: kind in runs
      ensures Valid() && forall kind: Kind :: FloorOf(kind) == Floor(start, runs[kind])
    {
      lastCheck := map[Prune := start, Scan := start, Analyze := start, Enrich := start, Backup := start];
      lastRun := runs;
      new;
      forall kind: Kind
        ensures kind in lastCheck && lastCheck[kind] == start
      {
        assert KINDS[Position(kind)] == kind;
      }
    }

    /** A kind's arm: run it if it is due, and move its floor unless the run was put off. */
    method Arm(kind: Kind, now: int, s: Schedule, a: Attempt) returns (began: bool)
      requires Valid()
      modifies this
      ensures Valid() && began == old(Begun(kind, FloorOf(kind), Turn(now, false, s, a)))
      ensures FloorOf(kind) == FloorAt(kind, old(FloorOf(kind)), s, now, a)
      ensures forall k :: k != kind ==> FloorOf(k) == old(FloorOf(k))
    {
      hide Due;
      began := false;
      if !Due(s, Floor(lastCheck[kind], lastRun[kind]), now) {
        lastCheck := lastCheck[kind := now];
        return;
      }
      if Deferrable(kind) && a.conflict {
        return;
      }
      began := true;
      if a.kept {
        lastRun := lastRun[kind := a.mark];
      }
      lastCheck := lastCheck[kind := now];
    }

    /** One tick: nothing at all during maintenance, else each kind in turn; `began` lists the runs as they are begun. */
    method Tick(now: int, maintenance: bool, schedules: Kind -> Schedule, attempts: Kind -> Attempt) returns (began: seq<Kind>)
      requires Valid()
      modifies this
      ensures Valid()
      ensures forall kind :: FloorOf(kind) == TurnFloor(kind, old(FloorOf(kind)), Turn(now, maintenance, schedules(kind), attempts(kind)))
      ensures forall kind :: kind in began <==> old(Begun(kind, FloorOf(kind), Turn(now, maintenance, schedules(kind), attempts(kind))))
      ensures forall i, j :: 0 <= i < j < |began| ==> Position(began[i]) < Position(began[j])
    {
      hide FloorAt, Due, Deferred;
      began := [];
      if maintenance {
        return;
      }
      for i := 0 to |KINDS|
        invariant Valid()
        invariant forall kind :: Position(kind) < i ==>
          FloorOf(kind) == FloorAt(kind, old(FloorOf(kind)), schedules(kind), now, attempts(kind))
        invariant forall kind :: i <= Position(kind) ==> FloorOf(kind) == old(FloorOf(kind))
        invariant forall kind :: kind in began <==>
          Position(kind) < i && old(Begun(kind, FloorOf(kind), Turn(now, false, schedules(kind), attempts(kind))))
        invariant forall j, k :: 0 <= j < k < |began| ==> Position(began[j]) < Position(began[k])
      {
        var kind := KINDS[i];
        PositionOf(i);
        var run := Arm(kind, now, schedules(kind), attempts(kind));
        if run {
          began := began + [kind];
        }
      }
    }
  }

  lemma PositionOf(i: nat)
    requires i < |KINDS|
    ensures forall kind :: Position(kind) == i <==> kind == KINDS[i]
  {
    assert KINDS[0] == Prune && KINDS[1] == Scan && KINDS[2] == Analyze && KINDS[3] == Enrich && KINDS[4] == Backup;
  }

  // --------------------------------------------------------------- one kind's whole run

  /** The kind's floor before turn `i` of a run that began from `f`. */
  function FloorBefore(kind: Kind, f: Floor, turns: seq<Turn>, i: nat): Floor
    requires i <= |turns|
  {
    if i == 0 then f else TurnFloor(kind, FloorBefore(kind, f, turns, i - 1), turns[i - 1])
  }

  /** Where the kind's next window begins after `i` turns: everything up to here has been passed. */
  function Passed(kind: Kind, f: Floor, turns: seq<Turn>, i: nat): int
    requires i <= |turns|
  {
    After(FloorBefore(kind, f, turns, i))
  }

  /** Ticks come in order, none before the floor's own check; a run is marked no earlier than the tick that began it. */
  ghost predicate Ordered(f: Floor, turns: seq<Turn>) {
    && (forall i :: 0 <= i < |turns| ==> f.check <= turns[i].now <= turns[i].attempt.mark && turns[i].attempt.mark > 0)
    && forall i, j :: 0 <= i < j < |turns| ==> turns[i].now <= turns[j].now
  }

  /** Turn `i` begins a run. */
  predicate Begins(kind: Kind, f: Floor, turns: seq<Turn>, i: nat) {
    i < |turns| && Begun(kind, FloorBefore(kind, f, turns, i), turns[i])
  }

  /** The run that turn `i` begins is for an instant of the window it looked at, the instant at or before the run. */
  predicate Answers(kind: Kind, f: Floor, turns: seq<Turn>, i: nat, t: int) {
    Begins(kind, f, turns, i) && Passed(kind, f, turns, i) < t <= turns[i].now
  }

  /** The run that turn `i` begins is still going, and its mark will move the window past the instant. */
  predicate Swallows(kind: Kind, f: Floor, turns: seq<Turn>, i: nat, t: int) {
    Begins(kind, f, turns, i) && turns[i].attempt.kept && turns[i].now < t <= turns[i].attempt.mark
  }

  lemma {:induction false} CheckBehind(kind: Kind, f: Floor, turns: seq<Turn>, i: nat)
    requires Ordered(f, turns) && i < |turns|
    ensures FloorBefore(kind, f, turns, i).check <= turns[i].now
  {
    if i > 0 {
      CheckBehind(kind, f, turns, i - 1);
    }
  }

  /** The schedule turn `i` sees is on and fires at an instant of the turn's window. */
  ghost predicate FiresIn(kind: Kind, f: Floor, turns: seq<Turn>, i: nat, t: int) {
    i < |turns| && turns[i].schedule.enabled && Passed(kind, f, turns, i) < t <= turns[i].now && turns[i].schedule.fires(t)
  }

  ghost predicate CalledFor(kind: Kind, f: Floor, turns: seq<Turn>, i: nat) { exists t :: FiresIn(kind, f, turns, i, t) }

  /** Another run of a kind that waits for others holds this one up. */
  ghost predicate HeldUp(kind: Kind, turn: Turn) { kind in {Analyze, Enrich, Backup} && turn.attempt.conflict }

  /**
   One turn begins a run exactly where it is called for and not held up, and
   moves the window on to its tick or to its run's mark, or leaves it; never back.
   */
  lemma TurnPasses(kind: Kind, f: Floor, turns: seq<Turn>, i: nat)
    requires Ordered(f, turns) && i < |turns|
    ensures
      var before, after := Passed(kind, f, turns, i), Passed(kind, f, turns, i + 1);
      var turn := turns[i];
      && (Begins(kind, f, turns, i) <==> !turn.maintenance && CalledFor(kind, f, turns, i) && !HeldUp(kind, turn))
      && before <= after == (
           if turn.maintenance || (CalledFor(kind, f, turns, i) && HeldUp(kind, turn)) then before
           else if CalledFor(kind, f, turns, i) && turn.attempt.kept then turn.attempt.mark
           else Max(before, turn.now))
  {
    CheckBehind(kind, f, turns, i);
    DueIsCalledFor(kind, f, turns, i);
  }

  lemma DueIsCalledFor(kind: Kind, f: Floor, turns: seq<Turn>, i: nat)
    requires i < |turns|
    ensures Due(turns[i].schedule, FloorBefore(kind, f, turns, i), turns[i].now) <==> CalledFor(kind, f, turns, i)
  {
    var turn, floor := turns[i], FloorBefore(kind, f, turns, i);
    if Due(turn.schedule, floor, turn.now) {
      var t :| After(floor) < t <= turn.now && turn.schedule.fires(t);
      assert FiresIn(kind, f, turns, i, t);
    }
  }

  lemma {:induction false} PassedRises(kind: Kind, f: Floor, turns: seq<Turn>, i: nat, j: nat)
    requires Ordered(f, turns) && i <= j <= |turns|
    ensures Passed(kind, f, turns, i) <= Passed(kind, f, turns, j)
    decreases j
  {
    hide Passed, Begins;
    if i < j {
      PassedRises(kind, f, turns, i, j - 1);
      TurnPasses(kind, f, turns, j - 1);
    }
  }

  /** The instant is passed in turn `i`. */
  predicate PassesIn(kind: Kind, f: Floor, turns: seq<Turn>, i: nat, t: int) {
    i < |turns| && Passed(kind, f, turns, i) < t <= Passed(kind, f, turns, i + 1)
  }

  lemma PassedOnce(kind: Kind, f: Floor, turns: seq<Turn>, i: nat, j: nat, t: int)
    requires Ordered(f, turns) && PassesIn(kind, f, turns, i, t) && PassesIn(kind, f, turns, j, t)
    ensures i == j
  {
    hide Passed;
    if i < j {
      PassedRises(kind, f, turns, i + 1, j);
    } else if j < i {
      PassedRises(kind, f, turns, j + 1, i);
    }
  }

  lemma {:induction false} PassedSomewhere(kind: Kind, f: Floor, turns: seq<Turn>, n: nat, t: int) returns (i: nat)
    requires Ordered(f, turns) && n <= |turns| && After(f) < t <= Passed(kind, f, turns, n)
    ensures PassesIn(kind, f, turns, i, t)
    decreases n
  {
    hide TurnFloor;
    if t <= Passed(kind, f, turns, n - 1) {
      i := PassedSomewhere(kind, f, turns, n - 1, t);
    } else {
      i := n - 1;
    }
  }

  /** What is answered or swallowed is passed, in that very turn. */
  lemma FatesPass(kind: Kind, f: Floor, turns: seq<Turn>, i: nat, t: int)
    requires Ordered(f, turns) && (Answers(kind, f, turns, i, t) || Swallows(kind, f, turns, i, t))
    ensures PassesIn(kind, f, turns, i, t) && After(f) < t <= Passed(kind, f, turns, |turns|)
  {
    TurnPasses(kind, f, turns, i);
    PassedRises(kind, f, turns, 0, i);
    PassedRises(kind, f, turns, i + 1, |turns|);
  }

  /**
   Every run is for a firing, and no firing is for two runs: a turn begins a
   run only where the schedule, then on, fired in the window it looked at, and
   does so always but in maintenance and where another run holds it up.
   */
  lemma EveryRunAnswersAFiring(kind: Kind, f: Floor, turns: seq<Turn>)
    requires Ordered(f, turns)
    ensures forall i: nat :: Begins(kind, f, turns, i) ==> exists t :: Answers(kind, f, turns, i, t) && FiresIn(kind, f, turns, i, t)
    ensures forall i: nat, t :: FiresIn(kind, f, turns, i, t) && !turns[i].maintenance && !HeldUp(kind, turns[i]) ==> Answers(kind, f, turns, i, t)
    ensures forall i: nat, j: nat, t :: Answers(kind, f, turns, i, t) && Answers(kind, f, turns, j, t) ==> i == j
  {
    hide Passed, Due, Deferred, FloorBefore, HeldUp;
    forall i: nat | Begins(kind, f, turns, i)
      ensures exists t :: Answers(kind, f, turns, i, t) && FiresIn(kind, f, turns, i, t)
    {
      TurnPasses(kind, f, turns, i);
      var t :| FiresIn(kind, f, turns, i, t);
      assert Answers(kind, f, turns, i, t);
    }
    forall i: nat, t | FiresIn(kind, f, turns, i, t) && !turns[i].maintenance && !HeldUp(kind, turns[i])
      ensures Answers(kind, f, turns, i, t)
    {
      TurnPasses(kind, f, turns, i);
    }
    forall i: nat, j: nat, t | Answers(kind, f, turns, i, t) && Answers(kind, f, turns, j, t)
      ensures i == j
    {
      FatesPass(kind, f, turns, i, t);
      FatesPass(kind, f, turns, j, t);
      PassedOnce(kind, f, turns, i, j, t);
    }
  }

  // ------------------------------------------------------------- what happens to an instant

  /**
   The fate of any instant since the start: it is still to be looked at, or one
   turn and only one passed it. That turn looked and found nothing due, or had
   the schedule off; or it began a run, for the instant or for an earlier one.
   */
  lemma EveryInstantHasAFate(kind: Kind, f: Floor, turns: seq<Turn>, t: int)
    requires Ordered(f, turns) && After(f) < t
    ensures t <= Passed(kind, f, turns, |turns|) <==> exists i: nat :: PassesIn(kind, f, turns, i, t)
    ensures forall i: nat, j: nat :: PassesIn(kind, f, turns, i, t) && PassesIn(kind, f, turns, j, t) ==> i == j
    ensures forall i: nat :: PassesIn(kind, f, turns, i, t) ==>
      if Begins(kind, f, turns, i) then Answers(kind, f, turns, i, t) <==> !Swallows(kind, f, turns, i, t)
      else !turns[i].maintenance && t <= turns[i].now && !(turns[i].schedule.enabled && turns[i].schedule.fires(t))
  {
    hide Passed;
    if t <= Passed(kind, f, turns, |turns|) {
      var i := PassedSomewhere(kind, f, turns, |turns|, t);
    }
    forall i: nat, j: nat | PassesIn(kind, f, turns, i, t) && PassesIn(kind, f, turns, j, t)
      ensures i == j
    {
      PassedOnce(kind, f, turns, i, j, t);
    }
    forall i: nat | PassesIn(kind, f, turns, i, t)
      ensures t <= Passed(kind, f, turns, |turns|)
      ensures if Begins(kind, f, turns, i) then Answers(kind, f, turns, i, t) <==> !Swallows(kind, f, turns, i, t)
        else !turns[i].maintenance && t <= turns[i].now && !(turns[i].schedule.enabled && turns[i].schedule.fires(t))
    {
      PassedRises(kind, f, turns, i + 1, |turns|);
      PassedFate(kind, f, turns, i, t);
    }
  }

  lemma PassedFate(kind: Kind, f: Floor, turns: seq<Turn>, i: nat, t: int)
    requires Ordered(f, turns) && PassesIn(kind, f, turns, i, t)
    ensures if Begins(kind, f, turns, i) then Answers(kind, f, turns, i, t) <==> !Swallows(kind, f, turns, i, t)
      else !turns[i].maintenance && t <= turns[i].now && !(turns[i].schedule.enabled && turns[i].schedule.fires(t))
  {
    TurnPasses(kind, f, turns, i);
  }

  /** Every tick sees one schedule, and it is on. */
  ghost predicate Steady(s: Schedule, turns: seq<Turn>) {
    s.enabled && forall i :: 0 <= i < |turns| ==> turns[i].schedule == s
  }

  ghost predicate Answered(kind: Kind, f: Floor, turns: seq<Turn>, t: int) { exists i: nat :: Answers(kind, f, turns, i, t) }

  ghost predicate Swallowed(kind: Kind, f: Floor, turns: seq<Turn>, t: int) { exists i: nat :: Swallows(kind, f, turns, i, t) }

  /**
   A firing of a steady schedule that has been passed was answered by exactly
   one run, begun at or after it, unless it came behind the tick that began a
   run and no later than that run's mark: then no run answers it.
   */
  lemma AnsweredUnlessSwallowed(kind: Kind, s: Schedule, f: Floor, turns: seq<Turn>, t: int)
    requires Ordered(f, turns) && Steady(s, turns) && s.fires(t) && After(f) < t
    ensures t <= Passed(kind, f, turns, |turns|) <==> (Answered(kind, f, turns, t) || Swallowed(kind, f, turns, t))
    ensures !(Answered(kind, f, turns, t) && Swallowed(kind, f, turns, t))
    ensures forall i: nat, j: nat :: Answers(kind, f, turns, i, t) && Answers(kind, f, turns, j, t) ==> i == j
  {
    hide Passed, Begins;
    EveryInstantHasAFate(kind, f, turns, t);
    forall i: nat | Answers(kind, f, turns, i, t) || Swallows(kind, f, turns, i, t)
      ensures PassesIn(kind, f, turns, i, t)
    {
      FatesPass(kind, f, turns, i, t);
    }
    if t <= Passed(kind, f, turns, |turns|) {
      var i: nat :| PassesIn(kind, f, turns, i, t);
      assert Answers(kind, f, turns, i, t) || Swallows(kind, f, turns, i, t);
    }
  }

  /**
   Nothing lost, exactly as far as it goes: every firing that has been passed
   was answered if and only if no run whose mark was kept had a firing between
   the tick that began it and its mark.
   */
  lemma NothingLostUnlessSwallowed(kind: Kind, s: Schedule, f: Floor, turns: seq<Turn>)
    requires Ordered(f, turns) && Steady(s, turns)
    ensures (forall t :: After(f) < t <= Passed(kind, f, turns, |turns|) && s.fires(t) ==> Answered(kind, f, turns, t)) <==>
      (forall i: nat, t :: i < |turns| && Begins(kind, f, turns, i) && turns[i].attempt.kept && turns[i].now < t <= turns[i].attempt.mark ==> !s.fires(t))
  {
    hide Passed, Begins, Answered, Swallowed;
    if forall t :: After(f) < t <= Passed(kind, f, turns, |turns|) && s.fires(t) ==> Answered(kind, f, turns, t) {
      forall i: nat, t | i < |turns| && Begins(kind, f, turns, i) && turns[i].attempt.kept && turns[i].now < t <= turns[i].attempt.mark
        ensures !s.fires(t)
      {
        if s.fires(t) {
          SwallowIsLoss(kind, s, f, turns, i, t);
        }
      }
    } else {
      var t :| After(f) < t <= Passed(kind, f, turns, |turns|) && s.fires(t) && !Answered(kind, f, turns, t);
      AnsweredUnlessSwallowed(kind, s, f, turns, t);
      var i := SwallowingTurn(kind, f, turns, t);
      assert i < |turns| && Begins(kind, f, turns, i) && turns[i].attempt.kept && turns[i].now < t <= turns[i].attempt.mark;
    }
  }

  lemma SwallowingTurn(kind: Kind, f: Floor, turns: seq<Turn>, t: int) returns (i: nat)
    requires Swallowed(kind, f, turns, t)
    ensures i < |turns| && Swallows(kind, f, turns, i, t)
  {
    i :| Swallows(kind, f, turns, i, t);
  }

  lemma SwallowIsLoss(kind: Kind, s: Schedule, f: Floor, turns: seq<Turn>, i: nat, t: int)
    requires Ordered(f, turns) && Steady(s, turns) && s.fires(t) && Swallows(kind, f, turns, i, t)
    ensures After(f) < t <= Passed(kind, f, turns, |turns|) && !Answered(kind, f, turns, t)
  {
    hide Passed, Begins;
    FatesPass(kind, f, turns, i, t);
    AnsweredUnlessSwallowed(kind, s, f, turns, t);
  }

  lemma {:induction false} FloorsOfPrefix(kind: Kind, f: Floor, turns: seq<Turn>, more: seq<Turn>, i: nat)
    requires i <= |turns|
    ensures FloorBefore(kind, f, turns + more, i) == FloorBefore(kind, f, turns, i)
  {
    if i > 0 {
      FloorsOfPrefix(kind, f, turns, more, i - 1);
    }
  }

  /** What one run has swallowed no run answers, however long the scheduler goes on. */
  lemma SwallowedForGood(kind: Kind, f: Floor, turns: seq<Turn>, more: seq<Turn>, i: nat, t: int)
    requires Ordered(f, turns + more) && Swallows(kind, f, turns, i, t)
    ensures !Answered(kind, f, turns + more, t)
  {
    hide Passed, TurnFloor;
    var all := turns + more;
    FloorsOfPrefix(kind, f, turns, more, i);
    assert Swallows(kind, f, all, i, t);
    FatesPass(kind, f, all, i, t);
    forall j: nat | Answers(kind, f, all, j, t)
      ensures false
    {
      FatesPass(kind, f, all, j, t);
      PassedOnce(kind, f, all, i, j, t);
    }
  }

  /** A firing that has been passed, and that no run answers however long the scheduler goes on. */
  ghost predicate Lost(kind: Kind, s: Schedule, f: Floor, turns: seq<Turn>, t: int) {
    && Steady(s, turns) && Ordered(f, turns) && s.fires(t) && After(f) < t <= Passed(kind, f, turns, |turns|)
    && forall more: seq<Turn> :: Ordered(f, turns + more) ==> !Answered(kind, f, turns + more, t)
  }

  /** Of every kind some firing is lost: one run, marked when it was done, swallows what fired meanwhile. */
  lemma FiringsAreLost(kind: Kind)
    ensures exists s: Schedule, f: Floor, turns: seq<Turn>, t :: Lost(kind, s, f, turns, t)
  {
    var s := Schedule(true, t => t == 10 || t == 15);
    var f := Floor(1, 0);
    var turns := [Turn(12, false, s, Attempt(false, 20, true))];
    assert Due(s, f, 12) by { assert After(f) < 10 <= 12 && s.fires(10); }
    assert FloorBefore(kind, f, turns, 0) == f;
    assert Swallows(kind, f, turns, 0, 15);
    assert FloorBefore(kind, f, turns, 1) == Floor(12, 20);
    forall more: seq<Turn> | Ordered(f, turns + more)
      ensures !Answered(kind, f, turns + more, 15)
    {
      SwallowedForGood(kind, f, turns, more, 0, 15);
    }
    assert Lost(kind, s, f, turns, 15);
  }

  /** A kind put off stays due until a run is begun, however long that takes. */
  lemma {:induction false} PutOffIsNotLost(kind: Kind, s: Schedule, f: Floor, turns: seq<Turn>, n: nat, now: int)
    requires Steady(s, turns) && Due(s, f, now) && n <= |turns|
    requires forall i :: 0 <= i < |turns| ==> now <= turns[i].now && (turns[i].maintenance || Deferred(kind, turns[i].attempt))
    ensures FloorBefore(kind, f, turns, n) == f
    ensures n < |turns| ==> Due(s, FloorBefore(kind, f, turns, n), turns[n].now)
  {
    var firing :| After(f) < firing <= now && s.fires(firing);
    assert forall i :: 0 <= i < |turns| ==> After(f) < firing <= turns[i].now;
    if n > 0 {
      PutOffIsNotLost(kind, s, f, turns, n - 1, now);
    }
  }
}
