/** The lease lock that keeps a scheduled job from running twice: one table of runs shared by all
    processes, a heartbeat that renews the start time, and a timeout after which a run is
    considered dead. Times are milliseconds on one shared clock. */
module JobLock {
  import opened Options

  const LOCK_TIMEOUT := 300_000
  const HEARTBEAT := 240_000
  /** The largest distance between heartbeats that whole-second start times leave safe. */
  const LARGEST_SAFE_GAP := 299_501

  /** `timestamptz` with precision 0 keeps whole seconds, rounded to the nearest. */
  function Rounded(t: nat): nat {
    (t + 500) / 1000 * 1000
  }

  /** A row of `cron_job_time_management`; (start, job) is unique. */
  datatype JobRow = JobRow(job: string, start: nat, end: Option<nat>)

  // ---------------------------------------------------------------------------------------
  // Operations on the table
  // ---------------------------------------------------------------------------------------

  /** `findLastJob`: the index of the job's row with the latest start, or -1. */
  function LastRow(rows: seq<JobRow>, job: string): (t: int)
    ensures -1 <= t < |rows|
    ensures t >= 0 ==> rows[t].job == job
    ensures forall i | 0 <= i < |rows| && rows[i].job == job :: t >= 0 && rows[i].start <= rows[t].start
  {
    if rows == [] then -1
    else
      var n := |rows| - 1;
      var t := LastRow(rows[..n], job);
      if rows[n].job == job && (t < 0 || rows[n].start > rows[t].start) then n else t
  }

  predicate Expired(start: nat, now: nat) {
    now - start > LOCK_TIMEOUT
  }

  /** `isJobRunning`. */
  predicate Running(rows: seq<JobRow>, job: string, now: nat) {
    var t := LastRow(rows, job);
    t >= 0 && !Expired(rows[t].start, now) && rows[t].end.None?
  }

  /** Whether a row other than `except` already has this start, so that the unique constraint fires. */
  predicate Taken(rows: seq<JobRow>, job: string, start: nat, except: int) {
    exists i | 0 <= i < |rows| :: i != except && rows[i].job == job && rows[i].start == start
  }

  predicate Insertable(rows: seq<JobRow>, job: string, now: nat) {
    !Taken(rows, job, Rounded(now), -1)
  }

  function Inserted(rows: seq<JobRow>, job: string, now: nat): seq<JobRow> {
    rows + [JobRow(job, Rounded(now), None)]
  }

  predicate Acquires(rows: seq<JobRow>, job: string, now: nat) {
    !Running(rows, job, now) && Insertable(rows, job, now)
  }

  /** `tryAcquireJobLock`, check and insert in one step. */
  function Acquired(rows: seq<JobRow>, job: string, now: nat): seq<JobRow> {
    if Acquires(rows, job, now) then Inserted(rows, job, now) else rows
  }

  /** `updateJobStartTime`; a constraint violation is logged and leaves the row as it was. */
  function Renewed(rows: seq<JobRow>, job: string, now: nat): seq<JobRow> {
    var t := LastRow(rows, job);
    if !Running(rows, job, now) || Taken(rows, job, Rounded(now), t) then rows
    else rows[t := rows[t].(start := Rounded(now))]
  }

  /** `releaseJobLock`: ends the last row, whoever wrote it. */
  function Released(rows: seq<JobRow>, job: string, now: nat): seq<JobRow> {
    var t := LastRow(rows, job);
    if t < 0 then rows else rows[t := rows[t].(end := Some(Rounded(now)))]
  }

  // ---------------------------------------------------------------------------------------
  // Processes
  // ---------------------------------------------------------------------------------------

  /** One process that believes it holds one job. */
  datatype Claim = Claim(process: nat, job: string)

  /** `held` maps every claim of a live process to the time of its acquisition or last heartbeat. */
  datatype State = State(rows: seq<JobRow>, clock: nat, held: map<Claim, nat>)

  datatype Step =
    | Acquire(claim: Claim)
    | Heartbeat(claim: Claim)
    | Release(claim: Claim)
    | Crash(process: nat)
    | Tick(ms: nat)

  const START := State([], 0, map[])

  function Survivors(held: map<Claim, nat>, process: nat): map<Claim, nat> {
    map c | c in held && c.process != process :: held[c]
  }

  /** Only a holder beats and releases, and the clock stops short of letting a live holder go
      `gap` milliseconds without a heartbeat. A crash may come at any time. */
  predicate Enabled(gap: nat, s: State, step: Step) {
    match step
    case Acquire(_) => true
    case Heartbeat(c) => c in s.held
    case Release(c) => c in s.held
    case Crash(_) => true
    case Tick(ms) => forall c | c in s.held :: s.clock + ms - s.held[c] <= gap
  }

  function Next(s: State, step: Step): State {
    match step
    case Acquire(c) =>
      s.(rows := Acquired(s.rows, c.job, s.clock),
         held := if Acquires(s.rows, c.job, s.clock) then s.held[c := s.clock] else s.held)
    case Heartbeat(c) =>
      s.(rows := Renewed(s.rows, c.job, s.clock), held := if c in s.held then s.held[c := s.clock] else s.held)
    case Release(c) => s.(rows := Released(s.rows, c.job, s.clock), held := s.held - {c})
    case Crash(p) => s.(held := Survivors(s.held, p))
    case Tick(ms) => s.(clock := s.clock + ms)
  }

  function After(s: State, steps: seq<Step>): State
    decreases |steps|
  {
    if steps == [] then s else After(Next(s, steps[0]), steps[1..])
  }

  predicate Feasible(gap: nat, s: State, steps: seq<Step>)
    decreases |steps|
  {
    steps == [] || (Enabled(gap, s, steps[0]) && Feasible(gap, Next(s, steps[0]), steps[1..]))
  }

  // ---------------------------------------------------------------------------------------
  // Safety
  // ---------------------------------------------------------------------------------------

  ghost predicate UniqueStarts(rows: seq<JobRow>) {
    forall i, j | 0 <= i < j < |rows| && rows[i].job == rows[j].job :: rows[i].start != rows[j].start
  }

  /** No row starts after now, as the table rounds it. */
  ghost predicate NotAhead(rows: seq<JobRow>, now: nat) {
    forall i | 0 <= i < |rows| :: rows[i].start <= Rounded(now)
  }

  /** The claim's row is the last of its job, is not ended, and shows its last heartbeat. */
  ghost predicate Backed(gap: nat, s: State, c: Claim)
    requires c in s.held
  {
    var t := LastRow(s.rows, c.job);
    && s.held[c] <= s.clock <= s.held[c] + gap
    && t >= 0
    && s.rows[t].end.None?
    && s.rows[t].start == Rounded(s.held[c])
  }

  ghost predicate Exclusive(s: State) {
    forall c, d | c in s.held && d in s.held && c.job == d.job :: c == d
  }

  ghost predicate Inv(gap: nat, s: State) {
    && UniqueStarts(s.rows)
    && NotAhead(s.rows, s.clock)
    && (forall c | c in s.held :: Backed(gap, s, c))
    && Exclusive(s)
  }

  lemma RoundedBounds(a: nat, b: nat)
    ensures a <= Rounded(a) + 499 && Rounded(a) <= a + 500
    ensures a <= b ==> Rounded(a) <= Rounded(b)
  {
  }

  /** A backed claim keeps everyone else out, as long as the gap is safe. */
  lemma BackedIsRunning(gap: nat, s: State, c: Claim)
    requires gap <= LARGEST_SAFE_GAP && c in s.held && Backed(gap, s, c)
    ensures Running(s.rows, c.job, s.clock)
  {
    RoundedBounds(s.held[c], s.clock);
  }

  /** In a table whose rows are not ahead of the clock, only the last row can be in the way. */
  lemma TakenMeansLast(rows: seq<JobRow>, job: string, now: nat)
    requires UniqueStarts(rows) && NotAhead(rows, now)
    ensures var t := LastRow(rows, job);
            && !Taken(rows, job, Rounded(now), t)
            && (Taken(rows, job, Rounded(now), -1) <==> t >= 0 && rows[t].start == Rounded(now))
  {
  }

  lemma LastRowOfOther(rows: seq<JobRow>, rows': seq<JobRow>, job: string)
    requires |rows| <= |rows'| && UniqueStarts(rows)
    requires forall i | 0 <= i < |rows| :: rows[i].job == rows'[i].job && (rows[i].job == job ==> rows[i] == rows'[i])
    requires forall i | |rows| <= i < |rows'| :: rows'[i].job != job
    ensures LastRow(rows, job) == LastRow(rows', job)
  {
  }

  /** A step on one job leaves the rows of the others, and what they say, as they were. */
  lemma OtherJobs(s: State, step: Step, job: string)
    requires UniqueStarts(s.rows)
    requires (step.Acquire? || step.Heartbeat? || step.Release?) ==> step.claim.job != job
    ensures var s' := Next(s, step);
            && LastRow(s'.rows, job) == LastRow(s.rows, job)
            && (LastRow(s.rows, job) >= 0 ==> s'.rows[LastRow(s.rows, job)] == s.rows[LastRow(s.rows, job)])
  {
    hide Rounded, Taken, UniqueStarts;
    LastRowOfOther(s.rows, Next(s, step).rows, job);
  }

  /** An inserted row becomes the last of its job. */
  lemma InsertedTable(rows: seq<JobRow>, job: string, now: nat)
    requires UniqueStarts(rows) && NotAhead(rows, now) && Insertable(rows, job, now)
    ensures var rows' := Inserted(rows, job, now);
            UniqueStarts(rows') && NotAhead(rows', now) && LastRow(rows', job) == |rows|
  {
    hide LastRow, Rounded, Running;
    var rows' := Inserted(rows, job, now);
    forall i | 0 <= i < |rows| && rows[i].job == job ensures rows[i].start < Rounded(now) {
      assert !Taken(rows, job, Rounded(now), -1);
    }
    assert forall i | 0 <= i < |rows| :: rows'[i] == rows[i];
    assert rows'[|rows|] == JobRow(job, Rounded(now), None);
  }

  /** A renewed row stays the last of its job, and the constraint never stops a renewal. */
  lemma RenewedTable(rows: seq<JobRow>, job: string, now: nat)
    requires UniqueStarts(rows) && NotAhead(rows, now) && Running(rows, job, now)
    ensures var t, rows' := LastRow(rows, job), Renewed(rows, job, now);
            && rows' == rows[t := rows[t].(start := Rounded(now))]
            && UniqueStarts(rows') && NotAhead(rows', now) && LastRow(rows', job) == t
  {
    hide LastRow, Rounded;
    var t := LastRow(rows, job);
    TakenMeansLast(rows, job, now);
    forall i | 0 <= i < |rows| && i != t && rows[i].job == job ensures rows[i].start < Rounded(now) {
      assert !Taken(rows, job, Rounded(now), t);
    }
    var rows' := Renewed(rows, job, now);
    assert rows'[t].start == Rounded(now) && rows'[t].job == job;
    assert forall i | 0 <= i < |rows| && i != t :: rows'[i] == rows[i];
  }

  lemma AcquireKeeps(gap: nat, s: State, c: Claim)
    requires gap <= LARGEST_SAFE_GAP && Inv(gap, s)
    ensures Inv(gap, Next(s, Acquire(c)))
  {
    hide LastRow, Rounded, Running, Insertable, UniqueStarts, NotAhead;
    var s' := Next(s, Acquire(c));
    if Acquires(s.rows, c.job, s.clock) {
      forall d | d in s.held ensures d.job != c.job {
        if d.job == c.job { BackedIsRunning(gap, s, d); }
      }
      InsertedTable(s.rows, c.job, s.clock);
      forall d | d in s'.held ensures Backed(gap, s', d) {
        if d != c {
          assert Backed(gap, s, d);
          OtherJobs(s, Acquire(c), d.job);
        }
      }
    }
  }

  lemma HeartbeatKeeps(gap: nat, s: State, c: Claim)
    requires gap <= LARGEST_SAFE_GAP && Inv(gap, s) && c in s.held
    ensures Inv(gap, Next(s, Heartbeat(c)))
  {
    hide LastRow, Rounded, Renewed, Running, UniqueStarts, NotAhead;
    var s', t := Next(s, Heartbeat(c)), LastRow(s.rows, c.job);
    assert Backed(gap, s, c);
    BackedIsRunning(gap, s, c);
    RenewedTable(s.rows, c.job, s.clock);
    forall d | d in s'.held ensures Backed(gap, s', d) {
      if d != c {
        assert Backed(gap, s, d);
        OtherJobs(s, Heartbeat(c), d.job);
      }
    }
  }

  lemma ReleaseKeeps(gap: nat, s: State, c: Claim)
    requires Inv(gap, s) && c in s.held
    ensures Inv(gap, Next(s, Release(c)))
  {
    var s' := Next(s, Release(c));
    forall d | d in s'.held ensures Backed(gap, s', d) {
      assert Backed(gap, s, d);
      OtherJobs(s, Release(c), d.job);
    }
  }

  lemma StepKeeps(gap: nat, s: State, step: Step)
    requires gap <= LARGEST_SAFE_GAP && Inv(gap, s) && Enabled(gap, s, step)
    ensures Inv(gap, Next(s, step))
  {
    match step
    case Acquire(c) => AcquireKeeps(gap, s, c);
    case Heartbeat(c) => HeartbeatKeeps(gap, s, c);
    case Release(c) => ReleaseKeeps(gap, s, c);
    case Crash(p) =>
      var s' := Next(s, step);
      forall d | d in s'.held ensures Backed(gap, s', d) { assert Backed(gap, s, d); }
    case Tick(ms) =>
      var s' := Next(s, step);
      RoundedBounds(s.clock, s'.clock);
      forall d | d in s'.held ensures Backed(gap, s', d) { assert Backed(gap, s, d); }
  }

  lemma {:induction false} RunKeeps(gap: nat, s: State, steps: seq<Step>)
    requires gap <= LARGEST_SAFE_GAP && Inv(gap, s) && Feasible(gap, s, steps)
    ensures Inv(gap, After(s, steps))
    decreases |steps|
  {
    if steps != [] {
      StepKeeps(gap, s, steps[0]);
      RunKeeps(gap, Next(s, steps[0]), steps[1..]);
    }
  }

  /** The state one run reaches is safe: a job has at most one live holder, whose row is the last
      of the job, not ended and not expired. */
  ghost predicate Safe(s: State) {
    && Exclusive(s)
    && forall c | c in s.held ::
         var t := LastRow(s.rows, c.job);
         t >= 0 && s.rows[t].end.None? && !Expired(s.rows[t].start, s.clock)
  }

  /** With whole-second start times, every run is safe exactly when heartbeats are at most
      299.501 seconds apart. */
  lemma SafeIffGap(gap: nat)
    ensures (forall steps | Feasible(gap, START, steps) :: Safe(After(START, steps))) <==> gap <= LARGEST_SAFE_GAP
  {
    if gap <= LARGEST_SAFE_GAP {
      forall steps | Feasible(gap, START, steps) ensures Safe(After(START, steps)) {
        RunKeeps(gap, START, steps);
        var s := After(START, steps);
        forall c | c in s.held ensures Running(s.rows, c.job, s.clock) {
          BackedIsRunning(gap, s, c);
        }
      }
    } else {
      UnsafeGap(gap);
    }
  }

  /** Mutual exclusion alone holds in every run up to the same distance. */
  lemma ExclusiveIffGap(gap: nat)
    ensures (forall steps | Feasible(gap, START, steps) :: Exclusive(After(START, steps))) <==> gap <= LARGEST_SAFE_GAP
  {
    if gap <= LARGEST_SAFE_GAP {
      SafeIffGap(gap);
    } else {
      UnsafeGap(gap);
    }
  }

  /** One holder whose start is rounded down by 499 ms goes 299.502 seconds without a heartbeat, and
      another process acquires the job. */
  lemma UnsafeGap(gap: nat)
    requires gap > LARGEST_SAFE_GAP
    ensures exists steps :: Feasible(gap, START, steps) && !Exclusive(After(START, steps))
  {
    hide LastRow, After, Feasible;
    var c, d := Claim(0, "sync"), Claim(1, "sync");
    var row, late := JobRow("sync", 0, None), JobRow("sync", 300_000, None);
    var s1, s2, s3 := State([], 499, map[]), State([row], 499, map[c := 499]), State([row], 300_001, map[c := 499]);
    var s4 := State([row, late], 300_001, map[c := 499, d := 300_001]);
    assert Next(START, Tick(499)) == s1;
    assert Next(s1, Acquire(c)) == s2;
    assert Next(s2, Tick(299_502)) == s3;
    assert LastRow([row], "sync") == 0 by {
      assert [row][0].job == "sync";
    }
    assert Next(s3, Acquire(d)) == s4;
    FourSteps(gap, START, Tick(499), Acquire(c), Tick(299_502), Acquire(d));
    assert c in s4.held && d in s4.held && !Exclusive(s4);
  }

  lemma FourSteps(gap: nat, s: State, a: Step, b: Step, c: Step, d: Step)
    ensures After(s, [a, b, c, d]) == Next(Next(Next(Next(s, a), b), c), d)
    ensures Feasible(gap, s, [a, b, c, d]) <==>
              && Enabled(gap, s, a) && Enabled(gap, Next(s, a), b) && Enabled(gap, Next(Next(s, a), b), c)
              && Enabled(gap, Next(Next(Next(s, a), b), c), d)
  {
    hide Next, Enabled;
    assert [a, b, c, d][1..] == [b, c, d];
    ThreeSteps(gap, Next(s, a), b, c, d);
  }

  lemma ThreeSteps(gap: nat, s: State, a: Step, b: Step, c: Step)
    ensures After(s, [a, b, c]) == Next(Next(Next(s, a), b), c)
    ensures Feasible(gap, s, [a, b, c]) <==>
              Enabled(gap, s, a) && Enabled(gap, Next(s, a), b) && Enabled(gap, Next(Next(s, a), b), c)
  {
    hide Next, Enabled;
    assert [a, b, c][1..] == [b, c] && [b, c][1..] == [c] && [c][1..] == [];
    var t := Next(Next(s, a), b);
    assert After(s, [a, b, c]) == After(Next(s, a), [b, c]) == After(t, [c]) == After(Next(t, c), []);
    assert Feasible(gap, t, [c]) <==> Enabled(gap, t, c);
    assert Feasible(gap, Next(s, a), [b, c]) <==> Enabled(gap, Next(s, a), b) && Feasible(gap, t, [c]);
  }

  /** The four-minute heartbeat: at most one live process holds a job in every reachable state. */
  lemma HeartbeatIsSafe(steps: seq<Step>)
    requires Feasible(HEARTBEAT, START, steps)
    ensures Safe(After(START, steps))
  {
    SafeIffGap(HEARTBEAT);
  }

  // ---------------------------------------------------------------------------------------
  // Progress
  // ---------------------------------------------------------------------------------------

  /** When an attempt succeeds, told by the job's last row alone. */
  lemma AcquiresIff(gap: nat, s: State, job: string)
    requires Inv(gap, s)
    ensures var t := LastRow(s.rows, job);
            Acquires(s.rows, job, s.clock) <==>
              t < 0 || (s.rows[t].start != Rounded(s.clock)
                        && (s.rows[t].end.Some? || Expired(s.rows[t].start, s.clock)))
  {
    TakenMeansLast(s.rows, job, s.clock);
  }

  predicate Unheld(s: State, job: string) {
    forall c | c in s.held :: c.job != job
  }

  /** Whether some attempt at the job succeeds during the run. */
  predicate TakenOver(s: State, steps: seq<Step>, job: string)
    decreases |steps|
  {
    steps != [] &&
    ( (steps[0].Acquire? && steps[0].claim.job == job && Acquires(s.rows, job, s.clock))
    || TakenOver(Next(s, steps[0]), steps[1..], job))
  }

  /** A job that nobody holds, and nobody takes over, keeps its last row. */
  lemma {:induction false} UnheldStays(gap: nat, s: State, steps: seq<Step>, job: string)
    requires gap <= LARGEST_SAFE_GAP && Inv(gap, s) && Feasible(gap, s, steps)
    requires Unheld(s, job) && !TakenOver(s, steps, job)
    ensures var s', t := After(s, steps), LastRow(s.rows, job);
            && Inv(gap, s') && s.clock <= s'.clock && Unheld(s', job)
            && LastRow(s'.rows, job) == t && (t >= 0 ==> s'.rows[t] == s.rows[t])
    decreases |steps|
  {
    hide LastRow, Rounded, Running, Insertable, UniqueStarts, NotAhead, Backed;
    if steps != [] {
      var s1 := Next(s, steps[0]);
      StepKeeps(gap, s, steps[0]);
      if steps[0].Acquire? && steps[0].claim.job == job {
        assert s1 == s;
      } else {
        OtherJobs(s, steps[0], job);
      }
      assert Unheld(s1, job);
      UnheldStays(gap, s1, steps[1..], job);
    }
  }

  /** After the last live holder of a job is gone, in whatever way, the job is never blocked for
      longer than the timeout plus the rounding: once 300.501 seconds have passed, either an
      attempt has succeeded meanwhile or the next one does. */
  lemma BlockedAtMostTimeout(gap: nat, s: State, steps: seq<Step>, job: string)
    requires gap <= LARGEST_SAFE_GAP && Inv(gap, s) && Feasible(gap, s, steps)
    requires Unheld(s, job) && After(s, steps).clock > s.clock + LOCK_TIMEOUT + 500
    ensures TakenOver(s, steps, job) || Acquires(After(s, steps).rows, job, After(s, steps).clock)
  {
    if !TakenOver(s, steps, job) {
      UnheldStays(gap, s, steps, job);
      var s' := After(s, steps);
      RoundedBounds(s.clock, s'.clock);
      RoundedBounds(s'.clock, s'.clock);
      AcquiresIff(gap, s', job);
    }
  }

  /** A crash of the holder is such a moment. */
  lemma CrashUnholds(gap: nat, s: State, c: Claim)
    requires Inv(gap, s) && c in s.held
    ensures Unheld(Next(s, Crash(c.process)), c.job)
  {
    forall d | d in Survivors(s.held, c.process) ensures d.job != c.job {
      assert d in s.held;
    }
  }

  /** Releasing a held job frees it: nobody holds it any more, and its last row, which still shows the
      last heartbeat, is ended now. */
  lemma ReleaseFrees(gap: nat, s: State, c: Claim)
    requires Inv(gap, s) && c in s.held
    ensures var s', t := Next(s, Release(c)), LastRow(s.rows, c.job);
            && Unheld(s', c.job) && s'.clock == s.clock
            && 0 <= t == LastRow(s'.rows, c.job)
            && s'.rows[t] == JobRow(c.job, Rounded(s.held[c]), Some(Rounded(s.clock)))
  {
    hide Rounded, UniqueStarts, NotAhead;
    assert Backed(gap, s, c);
    LastRowOfSame(s.rows, Next(s, Release(c)).rows, c.job);
  }

  /** Ending rows does not change which is the last. */
  lemma {:induction false} LastRowOfSame(rows: seq<JobRow>, rows': seq<JobRow>, job: string)
    requires |rows| == |rows'|
    requires forall i | 0 <= i < |rows| :: rows'[i].job == rows[i].job && rows'[i].start == rows[i].start
    ensures LastRow(rows', job) == LastRow(rows, job)
  {
    if rows != [] {
      LastRowOfSame(rows[..|rows| - 1], rows'[..|rows| - 1], job);
    }
  }

  /** In every run, from the release of a job until it is taken over, whatever the processes do in the
      meantime, the next attempt by anyone succeeds exactly when it does not fall into the rounded
      second of the last heartbeat before the release. */
  lemma ReleasedIsFree(gap: nat, before: seq<Step>, c: Claim, between: seq<Step>, d: Claim)
    requires gap <= LARGEST_SAFE_GAP && Feasible(gap, START, before) && c in After(START, before).held
    requires var s := Next(After(START, before), Release(c));
             Feasible(gap, s, between) && !TakenOver(s, between, c.job)
    requires d.job == c.job
    ensures var s, s' := After(START, before), After(Next(After(START, before), Release(c)), between);
            && d !in s'.held
            && (d in Next(s', Acquire(d)).held <==> Rounded(s'.clock) != Rounded(s.held[c]))
  {
    hide LastRow, Rounded, Running, Insertable, UniqueStarts, NotAhead, Backed, Taken, After, Feasible, TakenOver;
    RunKeeps(gap, START, before);
    var s := After(START, before);
    ReleaseFrees(gap, s, c);
    StepKeeps(gap, s, Release(c));
    var s1 := Next(s, Release(c));
    UnheldStays(gap, s1, between, c.job);
    AcquiresIff(gap, After(s1, between), c.job);
  }

  /** Two attempts that both pass the check before either inserts: the unique constraint stops the
      second exactly when both inserts fall into the same rounded second. Exclusion therefore rests
      on check and insert being one step. */
  lemma RaceIff(rows: seq<JobRow>, job: string, first: nat, second: nat)
    requires first <= second && Insertable(rows, job, first) && Insertable(rows, job, second)
    ensures Insertable(Inserted(rows, job, first), job, second) <==> Rounded(first) != Rounded(second)
  {
    var rows' := Inserted(rows, job, first);
    assert rows'[|rows|] == JobRow(job, Rounded(first), None);
    if Taken(rows', job, Rounded(second), -1) {
      var i :| 0 <= i < |rows'| && rows'[i].job == job && rows'[i].start == Rounded(second);
      assert i < |rows| ==> Taken(rows, job, Rounded(second), -1);
    }
  }

  // ---------------------------------------------------------------------------------------
  // The service
  // ---------------------------------------------------------------------------------------

  /** The table all processes share. */
  class JobRepository {
    var rows: seq<JobRow>

    constructor ()
      ensures rows == []
    {
      rows := [];
    }

    method FindLastJob(job: string) returns (t: int)
      ensures t == LastRow(rows, job)
    {
      t := -1;
      var i := 0;
      while i < |rows|
        invariant 0 <= i <= |rows|
        invariant t == LastRow(rows[..i], job)
      {
        assert rows[..i + 1][..i] == rows[..i];
        if rows[i].job == job && (t < 0 || rows[i].start > rows[t].start) {
          t := i;
        }
        i := i + 1;
      }
      assert rows[..i] == rows;
    }
  }

  /** `SafeCronService` of one process. */
  class SafeCronService {
    const repo: JobRepository
    var acquiredLocks: set<string>

    constructor (repo: JobRepository)
      ensures this.repo == repo && acquiredLocks == {}
    {
      this.repo := repo;
      acquiredLocks := {};
    }

    method IsJobRunning(job: string, now: nat) returns (running: bool)
      ensures running == Running(repo.rows, job, now)
    {
      var lastJob := repo.FindLastJob(job);
      if lastJob < 0 {
        return false;
      }
      var isExpired := now - repo.rows[lastJob].start > LOCK_TIMEOUT;
      var isCompleted := repo.rows[lastJob].end.Some?;
      running := !(isExpired || isCompleted);
    }

    method AcquireLock(job: string, now: nat) returns (ok: bool)
      modifies this, repo
      ensures ok == Acquires(old(repo.rows), job, now)
      ensures repo.rows == Acquired(old(repo.rows), job, now)
      ensures acquiredLocks == old(acquiredLocks) + if ok then {job} else {}
    {
      var isRunning := IsJobRunning(job, now);
      if isRunning {
        return false;
      }
      if !Insertable(repo.rows, job, now) {
        return false;
      }
      repo.rows := repo.rows + [JobRow(job, Rounded(now), None)];
      acquiredLocks := acquiredLocks + {job};
      ok := true;
    }

    method UpdateJobStartTime(job: string, now: nat)
      modifies repo
      ensures repo.rows == Renewed(old(repo.rows), job, now)
    {
      var isRunning := IsJobRunning(job, now);
      if !isRunning {
        return;
      }
      var lastJob := repo.FindLastJob(job);
      if lastJob >= 0 && repo.rows[lastJob].end.None? && !Taken(repo.rows, job, Rounded(now), lastJob) {
        repo.rows := repo.rows[lastJob := repo.rows[lastJob].(start := Rounded(now))];
      }
    }

    method ReleaseLock(job: string, now: nat)
      modifies this, repo
      ensures repo.rows == Released(old(repo.rows), job, now)
      ensures acquiredLocks == old(acquiredLocks) - {job}
    {
      var lastJob := repo.FindLastJob(job);
      if lastJob >= 0 {
        repo.rows := repo.rows[lastJob := repo.rows[lastJob].(end := Some(Rounded(now)))];
      }
      acquiredLocks := acquiredLocks - {job};
    }

    /** Ends the last row of every job this process had acquired, and no other row. */
    method HandleShutdown(now: nat)
      requires UniqueStarts(repo.rows)
      modifies this, repo
      ensures acquiredLocks == {}
      ensures |repo.rows| == |old(repo.rows)|
      ensures forall i | 0 <= i < |repo.rows| ::
                var r := old(repo.rows)[i];
                repo.rows[i] ==
                if r.job in old(acquiredLocks) && i == LastRow(old(repo.rows), r.job)
                  then r.(end := Some(Rounded(now))) else r
    {
      hide LastRow, Rounded;
      ghost var was := repo.rows;
      ghost var done: set<string> := {};
      while acquiredLocks != {}
        invariant done + acquiredLocks == old(acquiredLocks) && done !! acquiredLocks
        invariant |repo.rows| == |was|
        invariant forall i | 0 <= i < |was| ::
                    repo.rows[i] ==
                    if was[i].job in done && i == LastRow(was, was[i].job) then was[i].(end := Some(Rounded(now)))
                    else was[i]
        decreases acquiredLocks
      {
        var taskId :| taskId in acquiredLocks;
        assert forall i | 0 <= i < |was| && was[i].job == taskId :: repo.rows[i] == was[i];
        LastRowOfOther(was, repo.rows, taskId);
        ReleaseLock(taskId, now);
        done := done + {taskId};
      }
    }
  }
}
