/**
 Startup of the service in legacy or durable invocation mode (service/src/invocation-startup.ts):
 a transaction lock serializes mode acquisition, an exclusive probe checks that nobody runs the
 opposite mode, and a shared session lock keeps the mode for the life of the session.

 Any number of service processes start, run and die, interleaved query by query.  Locks belong to
 database sessions: losing the connection, or destroying it after an error, frees them all.
 */
module InvocationMode {

  datatype Mode = Legacy | Durable {
    function Opposite(): Mode { if Legacy? then Durable else Legacy }
  }

  type Process = nat

  /** How far a process has come in `acquireInvocationMode`. */
  datatype Phase =
    | Begun          // transaction open, waiting for the transaction lock
    | Serialized     // holds the transaction lock
    | Probing        // holds the opposite mode's lock exclusively
    | Probed         // has released it again
    | Checked        // schema and leftovers are in order
    | Joined         // holds its own mode's lock in shared mode, still in the transaction
    | Running        // committed
    | Gone           // failed, lost its connection, or released its mode

  datatype Session = Session(mode: Mode, phase: Phase)

  /** Who holds one advisory lock in which way. */
  datatype Lock = Lock(shared: set<Process>, exclusive: set<Process>)

  /** The advisory locks of the database: one per mode, and the transaction lock. */
  datatype Locks = Locks(transaction: set<Process>, legacy: Lock, durable: Lock) {
    function Of(m: Mode): Lock {
      if m == Legacy then legacy else durable
    }

    function With(m: Mode, lock: Lock): Locks {
      if m == Legacy then this.(legacy := lock) else this.(durable := lock)
    }

    /** All locks of a session disappear with it. */
    function Without(p: Process): Locks {
      Locks(transaction - {p},
            Lock(legacy.shared - {p}, legacy.exclusive - {p}),
            Lock(durable.shared - {p}, durable.exclusive - {p}))
    }
  }

  datatype State = State(sessions: map<Process, Session>, locks: Locks)

  const INITIAL := State(map[], Locks({}, Lock({}, {}), Lock({}, {})))

  datatype Step =
    | Start(p: Process, mode: Mode)
    | Serialize(p: Process)
    | Probe(p: Process)
    | Unprobe(p: Process)
    | Check(p: Process)
    | Join(p: Process)
    | Commit(p: Process)
    | Lose(p: Process)      // connection loss, a failing query or check, or release

  predicate At(s: State, p: Process, phase: Phase) {
    p in s.sessions && s.sessions[p].phase == phase
  }

  /** Whether the database would grant `p` an exclusive lock on `mode` at once. */
  predicate ExclusiveFree(s: State, p: Process, mode: Mode) {
    s.locks.Of(mode).shared <= {p} && s.locks.Of(mode).exclusive <= {p}
  }

  predicate SharedFree(s: State, p: Process, mode: Mode) {
    s.locks.Of(mode).exclusive <= {p}
  }

  /** A step that waits is enabled only when its lock can be granted. */
  predicate Enabled(s: State, step: Step) {
    match step
    case Start(p, _) => p !in s.sessions
    case Serialize(p) => At(s, p, Begun) && s.locks.transaction <= {p}
    case Probe(p) => At(s, p, Serialized)
    case Unprobe(p) => At(s, p, Probing)
    case Check(p) => At(s, p, Probed)
    case Join(p) => At(s, p, Checked) && SharedFree(s, p, s.sessions[p].mode)
    case Commit(p) => At(s, p, Joined)
    case Lose(p) => p in s.sessions && s.sessions[p].phase != Gone
  }

  function Move(s: State, p: Process, phase: Phase): State
    requires p in s.sessions
  {
    s.(sessions := s.sessions[p := s.sessions[p].(phase := phase)])
  }

  function Apply(s: State, step: Step): State
    requires Enabled(s, step)
  {
    match step
    case Start(p, mode) => s.(sessions := s.sessions[p := Session(mode, Begun)])
    case Serialize(p) =>
      Move(s, p, Serialized).(locks := s.locks.(transaction := s.locks.transaction + {p}))
    case Probe(p) =>
      var m := s.sessions[p].mode.Opposite();
      if ExclusiveFree(s, p, m) then
        Move(s, p, Probing).(locks := s.locks.With(m, Lock(s.locks.Of(m).shared, s.locks.Of(m).exclusive + {p})))
      else
        Move(s, p, Gone).(locks := s.locks.Without(p))
    case Unprobe(p) =>
      var m := s.sessions[p].mode.Opposite();
      Move(s, p, Probed).(locks := s.locks.With(m, Lock(s.locks.Of(m).shared, s.locks.Of(m).exclusive - {p})))
    case Check(p) => Move(s, p, Checked)
    case Join(p) =>
      var m := s.sessions[p].mode;
      Move(s, p, Joined).(locks := s.locks.With(m, Lock(s.locks.Of(m).shared + {p}, s.locks.Of(m).exclusive)))
    case Commit(p) =>
      Move(s, p, Running).(locks := s.locks.(transaction := s.locks.transaction - {p}))
    case Lose(p) => Move(s, p, Gone).(locks := s.locks.Without(p))
  }

  // ---------------------------------------------------------------------------
  // The invariant
  // ---------------------------------------------------------------------------

  predicate Serial(phase: Phase) {
    phase in {Serialized, Probing, Probed, Checked, Joined}
  }

  predicate Shares(s: State, p: Process, m: Mode) {
    p in s.sessions && s.sessions[p].mode == m && s.sessions[p].phase in {Joined, Running}
  }

  predicate Probes(s: State, p: Process, m: Mode) {
    p in s.sessions && s.sessions[p].mode.Opposite() == m && s.sessions[p].phase == Probing
  }

  predicate Serializes(s: State, p: Process) {
    p in s.sessions && Serial(s.sessions[p].phase)
  }

  /** Each lock is held exactly by the sessions whose phase says so. */
  ghost predicate Faithful(s: State) {
    forall p, m :: FaithfulAt(s, p, m)
  }

  ghost predicate Cleared(s: State, session: Session) {
    session.phase in {Probing, Probed, Checked, Joined} ==> s.locks.Of(session.mode.Opposite()).shared == {}
  }

  ghost predicate Inv(s: State) {
    && Faithful(s)
    // at most one process at a time is past the transaction lock
    && (forall p, q :: p in s.locks.transaction && q in s.locks.transaction ==> p == q)
    // once it has probed, nobody runs the opposite mode
    && (forall p :: p in s.sessions ==> Cleared(s, s.sessions[p]))
    && (s.locks.legacy.shared == {} || s.locks.durable.shared == {})
  }

  ghost predicate FaithfulAt(s: State, p: Process, m: Mode) {
    && (p in s.locks.transaction <==> Serializes(s, p))
    && (p in s.locks.Of(m).shared <==> Shares(s, p, m))
    && (p in s.locks.Of(m).exclusive <==> Probes(s, p, m))
  }

  lemma StepFaithful(s: State, step: Step)
    requires Faithful(s) && Enabled(s, step)
    ensures Faithful(Apply(s, step))
  {
    forall p, m ensures FaithfulAt(Apply(s, step), p, m) {
      assert FaithfulAt(s, p, m);
    }
  }

  lemma StepInv(s: State, step: Step)
    requires Inv(s) && Enabled(s, step)
    ensures Inv(Apply(s, step))
  {
    StepFaithful(s, step);
    var s' := Apply(s, step);
    forall q | q in s'.sessions ensures Cleared(s', s'.sessions[q]) {
      if q in s.sessions {
        assert Cleared(s, s.sessions[q]);
        assert FaithfulAt(s, q, s.sessions[q].mode.Opposite()) && FaithfulAt(s, step.p, s.sessions[q].mode);
      }
    }
  }

  predicate Runs(s: State, steps: seq<Step>)
    decreases steps
  {
    steps == [] || (Enabled(s, steps[0]) && Runs(Apply(s, steps[0]), steps[1..]))
  }

  function After(s: State, steps: seq<Step>): State
    requires Runs(s, steps)
    decreases steps
  {
    if steps == [] then s else After(Apply(s, steps[0]), steps[1..])
  }

  lemma {:induction false} RunInv(s: State, steps: seq<Step>)
    requires Inv(s) && Runs(s, steps)
    ensures Inv(After(s, steps))
    decreases steps
  {
    if steps != [] {
      StepInv(s, steps[0]);
      RunInv(Apply(s, steps[0]), steps[1..]);
    }
  }

  // ---------------------------------------------------------------------------
  // Main results
  // ---------------------------------------------------------------------------

  /** No reachable state has both modes locked. */
  lemma ModesExclusive(steps: seq<Step>)
    requires Runs(INITIAL, steps)
    ensures After(INITIAL, steps).locks.legacy.shared == {} || After(INITIAL, steps).locks.durable.shared == {}
  {
    RunInv(INITIAL, steps);
  }

  /** A process that has got its shared lock, committed or not. */
  predicate Sharing(s: State, p: Process) {
    At(s, p, Joined) || At(s, p, Running)
  }

  /** Any two processes that have got their shared locks, in any reachable state, are in the same mode. */
  lemma SharersAgree(steps: seq<Step>, p: Process, q: Process)
    requires Runs(INITIAL, steps) && Sharing(After(INITIAL, steps), p) && Sharing(After(INITIAL, steps), q)
    ensures After(INITIAL, steps).sessions[p].mode == After(INITIAL, steps).sessions[q].mode
    ensures p in After(INITIAL, steps).locks.Of(After(INITIAL, steps).sessions[p].mode).shared
  {
    RunInv(INITIAL, steps);
    var s := After(INITIAL, steps);
    assert FaithfulAt(s, p, s.sessions[p].mode) && FaithfulAt(s, q, s.sessions[q].mode);
  }

  /** The final shared lock is granted at once whenever it is requested. */
  lemma JoinGranted(steps: seq<Step>, p: Process)
    requires Runs(INITIAL, steps) && At(After(INITIAL, steps), p, Checked)
    ensures Enabled(After(INITIAL, steps), Join(p))
  {
    RunInv(INITIAL, steps);
    var s := After(INITIAL, steps);
    forall q | q in s.locks.Of(s.sessions[p].mode).exclusive ensures q == p {
      assert FaithfulAt(s, q, s.sessions[p].mode) && FaithfulAt(s, p, s.sessions[p].mode);
    }
  }

  /** Somebody has the shared lock of the mode opposite to that of `p`. */
  ghost predicate Opposed(s: State, p: Process)
    requires p in s.sessions
  {
    exists q :: Sharing(s, q) && s.sessions[q].mode != s.sessions[p].mode
  }

  lemma OnlySerial(s: State, p: Process, q: Process, m: Mode)
    requires Inv(s) && q in s.locks.Of(m).exclusive && s.locks.transaction <= {p}
    ensures q == p
  {
    assert FaithfulAt(s, q, m);
  }

  /**
   In every reachable state, the probe turns a process away exactly when a process of the opposite
   mode has its shared lock; processes of the same mode, however many, are no obstacle.
   */
  lemma ProbeTurnsAway(steps: seq<Step>, p: Process)
    requires Runs(INITIAL, steps) && At(After(INITIAL, steps), p, Serialized)
    ensures At(Apply(After(INITIAL, steps), Probe(p)), p,
               if Opposed(After(INITIAL, steps), p) then Gone else Probing)
  {
    RunInv(INITIAL, steps);
    ProbeOutcome(After(INITIAL, steps), p);
  }

  lemma ProbeOutcome(s: State, p: Process)
    requires Inv(s) && At(s, p, Serialized)
    ensures At(Apply(s, Probe(p)), p, if Opposed(s, p) then Gone else Probing)
  {
    var m := s.sessions[p].mode.Opposite();
    assert FaithfulAt(s, p, m);
    if Opposed(s, p) {
      var q :| Sharing(s, q) && s.sessions[q].mode != s.sessions[p].mode;
      assert FaithfulAt(s, q, m);
      assert q in s.locks.Of(m).shared && q != p;
    } else {
      forall q | q in s.locks.Of(m).shared ensures false {
        assert FaithfulAt(s, q, m);
        assert Sharing(s, q);
      }
      forall q | q in s.locks.Of(m).exclusive ensures q == p {
        OnlySerial(s, p, q, m);
      }
      assert ExclusiveFree(s, p, m);
    }
  }

  lemma RunsFirst(s: State, step: Step, steps: seq<Step>)
    requires Enabled(s, step) && Runs(Apply(s, step), steps)
    ensures Runs(s, [step] + steps) && After(s, [step] + steps) == After(Apply(s, step), steps)
  {
    assert ([step] + steps)[1..] == steps;
  }

  /** What a start makes of the sessions: the process runs in its mode, and the others are as they were. */
  ghost predicate Started(s: State, s': State, p: Process)
    requires p in s.sessions
  {
    s'.sessions == s.sessions[p := Session(s.sessions[p].mode, Running)]
  }

  lemma CheckedSucceeds(s: State, p: Process)
    requires Inv(s) && At(s, p, Checked)
    ensures Runs(s, [Join(p), Commit(p)]) && Started(s, After(s, [Join(p), Commit(p)]), p)
  {
    CheckedMayJoin(s, p);
    RunsFirst(Apply(s, Join(p)), Commit(p), []);
    assert [Commit(p)] + [] == [Commit(p)];
    RunsFirst(s, Join(p), [Commit(p)]);
    assert [Join(p)] + [Commit(p)] == [Join(p), Commit(p)];
  }

  lemma ProbingSucceeds(s: State, p: Process)
    requires Inv(s) && At(s, p, Probing)
    ensures Runs(s, [Unprobe(p), Check(p), Join(p), Commit(p)])
    ensures Started(s, After(s, [Unprobe(p), Check(p), Join(p), Commit(p)]), p)
  {
    var s2 := Apply(s, Unprobe(p));
    StepInv(s, Unprobe(p));
    StepInv(s2, Check(p));
    CheckedSucceeds(Apply(s2, Check(p)), p);
    RunsFirst(s2, Check(p), [Join(p), Commit(p)]);
    assert [Check(p)] + [Join(p), Commit(p)] == [Check(p), Join(p), Commit(p)];
    RunsFirst(s, Unprobe(p), [Check(p), Join(p), Commit(p)]);
    assert [Unprobe(p)] + [Check(p), Join(p), Commit(p)] == [Unprobe(p), Check(p), Join(p), Commit(p)];
  }

  /** From the probe on. */
  lemma SerializedSucceeds(s: State, p: Process)
    requires Inv(s) && At(s, p, Serialized) && !Opposed(s, p)
    ensures Runs(s, [Probe(p), Unprobe(p), Check(p), Join(p), Commit(p)])
    ensures Started(s, After(s, [Probe(p), Unprobe(p), Check(p), Join(p), Commit(p)]), p)
  {
    ProbeOutcome(s, p);
    StepInv(s, Probe(p));
    var rest := [Unprobe(p), Check(p), Join(p), Commit(p)];
    ProbingSucceeds(Apply(s, Probe(p)), p);
    RunsFirst(s, Probe(p), rest);
    assert [Probe(p)] + rest == [Probe(p), Unprobe(p), Check(p), Join(p), Commit(p)];
  }

  lemma CheckedMayJoin(s: State, p: Process)
    requires Inv(s) && At(s, p, Checked)
    ensures Enabled(s, Join(p))
  {
    forall q | q in s.locks.Of(s.sessions[p].mode).exclusive ensures q == p {
      assert FaithfulAt(s, q, s.sessions[p].mode) && FaithfulAt(s, p, s.sessions[p].mode);
    }
  }

  lemma BegunSucceeds(s: State, p: Process)
    requires Inv(s) && At(s, p, Begun) && s.locks.transaction == {} && !Opposed(s, p)
    ensures Runs(s, [Serialize(p), Probe(p), Unprobe(p), Check(p), Join(p), Commit(p)])
    ensures Started(s, After(s, [Serialize(p), Probe(p), Unprobe(p), Check(p), Join(p), Commit(p)]), p)
  {
    StepInv(s, Serialize(p));
    var s' := Apply(s, Serialize(p));
    assert forall q :: Sharing(s', q) ==> Sharing(s, q) && s.sessions[q].mode == s'.sessions[q].mode;
    SerializedSucceeds(s', p);
    var rest := [Probe(p), Unprobe(p), Check(p), Join(p), Commit(p)];
    RunsFirst(s, Serialize(p), rest);
    assert [Serialize(p)] + rest == [Serialize(p), Probe(p), Unprobe(p), Check(p), Join(p), Commit(p)];
  }

  /**
   A start succeeds: from every reachable state in which nobody is past the transaction lock and
   nobody shares the opposite mode, the queries of the process alone bring it to running, however
   many processes run in its own mode.
   */
  lemma StartSucceeds(steps: seq<Step>, p: Process)
    requires Runs(INITIAL, steps) && At(After(INITIAL, steps), p, Begun)
    requires After(INITIAL, steps).locks.transaction == {} && !Opposed(After(INITIAL, steps), p)
    ensures Runs(After(INITIAL, steps), [Serialize(p), Probe(p), Unprobe(p), Check(p), Join(p), Commit(p)])
    ensures Started(After(INITIAL, steps),
                    After(After(INITIAL, steps), [Serialize(p), Probe(p), Unprobe(p), Check(p), Join(p), Commit(p)]), p)
  {
    RunInv(INITIAL, steps);
    BegunSucceeds(After(INITIAL, steps), p);
  }

  /** A connection can be lost at any point until then, and takes all its locks with it. */
  lemma LossFrees(steps: seq<Step>, p: Process, m: Mode)
    requires Runs(INITIAL, steps) && p in After(INITIAL, steps).sessions && !At(After(INITIAL, steps), p, Gone)
    ensures Enabled(After(INITIAL, steps), Lose(p))
    ensures var locks := Apply(After(INITIAL, steps), Lose(p)).locks;
      p !in locks.transaction && p !in locks.Of(m).shared && p !in locks.Of(m).exclusive
  {
  }

  lemma {:induction false} ModeKept(s: State, steps: seq<Step>, p: Process)
    requires Runs(s, steps) && p in s.sessions
    ensures p in After(s, steps).sessions && After(s, steps).sessions[p].mode == s.sessions[p].mode
    decreases steps
  {
    if steps != [] {
      ModeKept(Apply(s, steps[0]), steps[1..], p);
    }
  }

  /** In every run, a process is in the mode it was started in, from then on. */
  lemma {:induction false} ModeAsStarted(s: State, steps: seq<Step>, i: nat, p: Process, mode: Mode)
    requires Runs(s, steps) && i < |steps| && steps[i] == Start(p, mode)
    ensures p in After(s, steps).sessions && After(s, steps).sessions[p].mode == mode
    decreases steps
  {
    if i == 0 {
      ModeKept(Apply(s, steps[0]), steps[1..], p);
    } else {
      assert steps[1..][i - 1] == steps[i];
      ModeAsStarted(Apply(s, steps[0]), steps[1..], i - 1, p, mode);
    }
  }

  predicate Starting(phase: Phase) {
    phase == Begun || Serial(phase)
  }

  /** The next query of a process that is not waiting. */
  function NextQuery(p: Process, phase: Phase): Step
    requires Serial(phase)
  {
    match phase
    case Serialized => Probe(p)
    case Probing => Unprobe(p)
    case Probed => Check(p)
    case Checked => Join(p)
    case _ => Commit(p)
  }

  /** Queries a process still has to make before it runs, one more while it waits. */
  function Remaining(phase: Phase): nat {
    match phase
    case Begun => 6
    case Serialized => 5
    case Probing => 4
    case Probed => 3
    case Checked => 2
    case Joined => 1
    case _ => 0
  }

  /**
   The protocol cannot deadlock: while some process is starting, some starting process can make
   its next query at once, and the query brings that process nearer to running or ends it.
   */
  lemma NoDeadlock(steps: seq<Step>, p: Process) returns (step: Step)
    requires Runs(INITIAL, steps)
    requires p in After(INITIAL, steps).sessions && Starting(After(INITIAL, steps).sessions[p].phase)
    ensures !step.Start? && !step.Lose? && Enabled(After(INITIAL, steps), step)
    ensures Remaining(Apply(After(INITIAL, steps), step).sessions[step.p].phase)
          < Remaining(After(INITIAL, steps).sessions[step.p].phase)
  {
    RunInv(INITIAL, steps);
    var s := After(INITIAL, steps);
    if s.locks.transaction == {} {
      assert FaithfulAt(s, p, Legacy);
      step := Serialize(p);
    } else {
      var q :| q in s.locks.transaction;
      assert FaithfulAt(s, q, Legacy);
      if s.sessions[q].phase == Checked {
        JoinGranted(steps, q);
      }
      step := NextQuery(q, s.sessions[q].phase);
    }
  }
}
