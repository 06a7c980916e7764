/**
 The daemon's instance lock (bud/src/instance.rs): one exclusive, nonblocking file lock per state
 root, taken in ascending order of path.

 `Attempt` is one call of `acquire`; any number of attempts, by any number of processes, run
 interleaved.  Files are closed one at a time, in the order they were opened, both when an
 attempt gives up and when a process drops its lock or exits.
 */
module InstanceLock {
  import opened Lexicographic

  type Root = string
  type Attempt = nat

  /** Why an attempt let its files go. */
  datatype Why =
    | Refused(at: nat, holder: Attempt)   // the lock on roots[at] was taken
    | Aborted                         // an I/O error, or the process exited while acquiring
    | Released                        // it had all its roots

  datatype Phase =
    | Acquiring(roots: seq<Root>, held: nat)
    | Locked(roots: seq<Root>)
    | Closing(roots: seq<Root>, from: nat, to: nat, why: Why)
  {
    function Held(): seq<Root>
      requires Valid()
    {
      match this
      case Acquiring(roots, held) => roots[..held]
      case Locked(roots) => roots
      case Closing(roots, from, to, _) => roots[from..to]
    }

    predicate Valid() {
      && Ascending(roots)
      && match this
         case Acquiring(_, held) => held <= |roots|
         case Locked(_) => true
         case Closing(_, from, to, why) =>
           from <= to <= |roots| && (why.Refused? ==> to == why.at < |roots|)
    }

    /** The attempt had all its roots at some time. */
    predicate Succeeded() {
      Locked? || (Closing? && why.Released?)
    }
  }

  datatype State = State(attempts: map<Attempt, Phase>, owner: map<Root, Attempt>)

  datatype Step =
    | Begin(a: Attempt, roots: seq<Root>)
    | TryNext(a: Attempt)
    | Finish(a: Attempt)
    | Abort(a: Attempt)
    | Drop(a: Attempt)
    | CloseOne(a: Attempt)

  const INITIAL := State(map[], map[])

  /** Sorting and removing duplicates. */
  function Sorted(roots: seq<Root>): (r: seq<Root>)
    ensures Ascending(r) && forall x :: x in r <==> x in roots
  {
    SortedKeys(set x | x in roots)
  }

  predicate Enabled(s: State, step: Step) {
    match step
    case Begin(a, _) => a !in s.attempts
    case TryNext(a) => a in s.attempts && s.attempts[a].Acquiring? && s.attempts[a].held < |s.attempts[a].roots|
    case Finish(a) => a in s.attempts && s.attempts[a].Acquiring? && s.attempts[a].held == |s.attempts[a].roots|
    case Abort(a) => a in s.attempts && s.attempts[a].Acquiring?
    case Drop(a) => a in s.attempts && s.attempts[a].Locked?
    case CloseOne(a) =>
      a in s.attempts && s.attempts[a].Closing? && s.attempts[a].from < s.attempts[a].to
      && s.attempts[a].from < |s.attempts[a].roots|
  }

  function Apply(s: State, step: Step): State
    requires Enabled(s, step)
  {
    match step
    case Begin(a, roots) => s.(attempts := s.attempts[a := Acquiring(Sorted(roots), 0)])
    case TryNext(a) =>
      var p := s.attempts[a];
      var root := p.roots[p.held];
      if root in s.owner then
        s.(attempts := s.attempts[a := Closing(p.roots, 0, p.held, Refused(p.held, s.owner[root]))])
      else
        State(s.attempts[a := Acquiring(p.roots, p.held + 1)], s.owner[root := a])
    case Finish(a) => s.(attempts := s.attempts[a := Locked(s.attempts[a].roots)])
    case Abort(a) =>
      var p := s.attempts[a];
      s.(attempts := s.attempts[a := Closing(p.roots, 0, p.held, Aborted)])
    case Drop(a) =>
      var p := s.attempts[a];
      s.(attempts := s.attempts[a := Closing(p.roots, 0, |p.roots|, Released)])
    case CloseOne(a) =>
      var p := s.attempts[a];
      State(s.attempts[a := p.(from := p.from + 1)], s.owner - {p.roots[p.from]})
  }

  // ---------------------------------------------------------------------------
  // Runs
  // ---------------------------------------------------------------------------

  predicate Runs(s: State, steps: seq<Step>)
    decreases steps
  {
    steps == [] || (Enabled(s, steps[0]) && Runs(Apply(s, steps[0]), steps[1..]))
  }

  function After(s: State, steps: seq<Step>): State
    requires Runs(s, steps)
    decreases steps
  {
    if steps == [] then s else After(Apply(s, steps[0]), steps[1..])
  }

  predicate Holds(s: State, a: Attempt, r: Root) {
    a in s.attempts && s.attempts[a].Valid() && r in s.attempts[a].Held()
  }

  /** The lock table and the attempts agree on who holds what. */
  ghost predicate Consistent(s: State) {
    && (forall a :: a in s.attempts ==> s.attempts[a].Valid())
    && (forall a, r :: Holds(s, a, r) ==> Owns(s, a, r))
    && (forall r :: r in s.owner ==> Holds(s, s.owner[r], r))
  }

  ghost predicate Owns(s: State, a: Attempt, r: Root) {
    r in s.owner && s.owner[r] == a
  }

  /**
   What can have become of an attempt that once held `r`: it still holds `r` while acquiring, it
   succeeded, it was aborted, or it was refused a root above `r`.
   */
  ghost predicate Accountable(p: Phase, r: Root)
    requires p.Valid()
  {
    match p
    case Acquiring(roots, held) => r in roots[..held]
    case Locked(_) => true
    case Closing(roots, _, _, why) => why.Refused? ==> Below(r, roots[why.at])
  }

  ghost predicate Blamed(s: State, a: Attempt)
    requires Consistent(s) && a in s.attempts
  {
    var p := s.attempts[a];
    p.Closing? && p.why.Refused? ==>
      p.why.holder in s.attempts && Accountable(s.attempts[p.why.holder], p.roots[p.why.at])
  }

  ghost predicate Inv(s: State) {
    Consistent(s) && forall a :: a in s.attempts ==> Blamed(s, a)
  }

  lemma HeldBelow(roots: seq<Root>, i: nat, r: Root)
    requires Ascending(roots) && i < |roots| && r in roots[..i]
    ensures Below(r, roots[i]) && r in roots[..i + 1]
  {
    var j :| 0 <= j < i && roots[..i][j] == r;
    assert roots[..i + 1][j] == roots[j] == r;
  }

  /** The holder of a lock is accountable for it. */
  lemma HolderAccountable(p: Phase, r: Root)
    requires p.Valid() && r in p.Held()
    ensures Accountable(p, r)
  {
    if p.Closing? && p.why.Refused? {
      var j :| 0 <= j < |p.Held()| && p.Held()[j] == r;
      assert p.roots[p.from + j] == r;
    }
  }

  /** Accountability survives the attempt's next root. */
  lemma AccountableTry(s: State, a: Attempt, r: Root)
    requires Consistent(s) && Enabled(s, TryNext(a)) && Accountable(s.attempts[a], r)
    requires Apply(s, TryNext(a)).attempts[a].Valid()
    ensures Accountable(Apply(s, TryNext(a)).attempts[a], r)
  {
    HeldBelow(s.attempts[a].roots, s.attempts[a].held, r);
  }

  /** Accountability survives every step of the attempt. */
  lemma AccountableKept(s: State, step: Step, a: Attempt, r: Root)
    requires Consistent(s) && Enabled(s, step) && a in s.attempts && Accountable(s.attempts[a], r)
    requires Apply(s, step).attempts[a].Valid()
    ensures Accountable(Apply(s, step).attempts[a], r)
  {
    if a != step.a {
      HeldAfterElsewhere(s, step, a);
    } else if step.TryNext? {
      AccountableTry(s, a, r);
    }
  }

  /** How a step changes what the acting attempt holds. */
  lemma HeldAfter(s: State, step: Step)
    requires Consistent(s) && Enabled(s, step)
    ensures
      var p' := Apply(s, step).attempts[step.a];
      p'.Valid() &&
      (forall r :: r in p'.Held() <==>
         if step.Begin? then false
         else
           var p := s.attempts[step.a];
           (r in p.Held() && !(step.CloseOne? && r == p.roots[p.from]))
           || (step.TryNext? && r == p.roots[p.held] && r !in s.owner))
  {
    if !step.Begin? {
      var p := s.attempts[step.a];
      Trichotomies(p.roots);
      match step
      case TryNext(_) =>
        assert p.roots[..p.held + 1] == p.roots[..p.held] + [p.roots[p.held]];
        assert p.roots[0..p.held] == p.roots[..p.held];
      case CloseOne(_) =>
        assert p.roots[p.from..p.to] == [p.roots[p.from]] + p.roots[p.from + 1..p.to];
        assert forall i :: p.from + 1 <= i < p.to ==> p.roots[i] != p.roots[p.from];
      case Abort(_) => assert p.roots[0..p.held] == p.roots[..p.held];
      case Finish(_) => assert p.roots[..p.held] == p.roots;
      case Drop(_) => assert p.roots[0..|p.roots|] == p.roots;
    }
  }

  lemma Trichotomies(roots: seq<Root>)
    requires Ascending(roots)
    ensures forall i, j :: 0 <= i < j < |roots| ==> roots[i] != roots[j]
  {
    forall i, j | 0 <= i < j < |roots| ensures roots[i] != roots[j] {
      Trichotomy(roots[i], roots[i]);
    }
  }

  lemma HeldAfterElsewhere(s: State, step: Step, a: Attempt)
    requires Consistent(s) && Enabled(s, step) && a in Apply(s, step).attempts && a != step.a
    ensures a in s.attempts && Apply(s, step).attempts[a] == s.attempts[a]
  {
  }

  lemma StepOwns(s: State, step: Step, a: Attempt, r: Root)
    requires Consistent(s) && Enabled(s, step) && Holds(Apply(s, step), a, r)
    ensures Owns(Apply(s, step), a, r)
  {
    if step.CloseOne? {
      var p := s.attempts[step.a];
      assert p.Held()[0] == p.roots[p.from];
      assert Holds(s, step.a, p.roots[p.from]) && Owns(s, step.a, p.roots[p.from]);
    }
    if a == step.a {
      HeldAfter(s, step);
    } else {
      HeldAfterElsewhere(s, step, a);
    }
    if Holds(s, a, r) {
      assert Owns(s, a, r);
    }
  }

  lemma StepHolds(s: State, step: Step, r: Root)
    requires Consistent(s) && Enabled(s, step) && r in Apply(s, step).owner
    ensures Holds(Apply(s, step), Apply(s, step).owner[r], r)
  {
    var a := Apply(s, step).owner[r];
    if r in s.owner {
      assert s.owner[r] == a && Holds(s, a, r);
    }
    if a == step.a {
      HeldAfter(s, step);
    }
  }

  lemma StepConsistent(s: State, step: Step)
    requires Consistent(s) && Enabled(s, step)
    ensures Consistent(Apply(s, step))
  {
    var s' := Apply(s, step);
    forall a | a in s'.attempts ensures s'.attempts[a].Valid() {
      if a == step.a {
        HeldAfter(s, step);
      } else {
        HeldAfterElsewhere(s, step, a);
      }
    }
    forall a, r | Holds(s', a, r) ensures Owns(s', a, r) {
      StepOwns(s, step, a, r);
    }
    forall r | r in s'.owner ensures Holds(s', s'.owner[r], r) {
      StepHolds(s, step, r);
    }
  }

  lemma StepInv(s: State, step: Step)
    requires Inv(s) && Enabled(s, step)
    ensures Inv(Apply(s, step))
  {
    StepConsistent(s, step);
    var s' := Apply(s, step);
    forall a | a in s'.attempts ensures Blamed(s', a) {
      var p := s'.attempts[a];
      if p.Closing? && p.why.Refused? {
        var holder, r := p.why.holder, p.roots[p.why.at];
        if a in s.attempts && s.attempts[a].Closing? {
          assert Blamed(s, a);
          AccountableKept(s, step, holder, r);
        } else {
          assert step == TryNext(a) && holder == s.owner[r];
          HolderAccountable(s.attempts[holder], r);
          AccountableKept(s, step, holder, r);
        }
      }
    }
  }

  lemma {:induction false} RunInv(s: State, steps: seq<Step>)
    requires Inv(s) && Runs(s, steps)
    ensures Inv(After(s, steps))
    decreases steps
  {
    if steps != [] {
      StepInv(s, steps[0]);
      RunInv(Apply(s, steps[0]), steps[1..]);
    }
  }

  // ---------------------------------------------------------------------------
  // Main results
  // ---------------------------------------------------------------------------

  /** In every interleaving, attempts that hold a root in common are the same attempt. */
  lemma Exclusive(steps: seq<Step>, a: Attempt, b: Attempt, r: Root)
    requires Runs(INITIAL, steps)
    requires Holds(After(INITIAL, steps), a, r) && Holds(After(INITIAL, steps), b, r)
    ensures a == b
  {
    RunInv(INITIAL, steps);
    var s := After(INITIAL, steps);
    assert Owns(s, a, r) && Owns(s, b, r);
  }

  lemma StepRoots(s: State, step: Step, a: Attempt)
    requires Enabled(s, step) && a in s.attempts
    ensures a in Apply(s, step).attempts && Apply(s, step).attempts[a].roots == s.attempts[a].roots
  {
  }

  lemma {:induction false} RunRoots(s: State, steps: seq<Step>, a: Attempt)
    requires Runs(s, steps) && a in s.attempts
    ensures a in After(s, steps).attempts && After(s, steps).attempts[a].roots == s.attempts[a].roots
    decreases steps
  {
    if steps != [] {
      StepRoots(s, steps[0], a);
      RunRoots(Apply(s, steps[0]), steps[1..], a);
    }
  }

  /** Whatever happens to an attempt, its roots are the ones it was asked for. */
  lemma {:induction false} GivenRoots(s: State, steps: seq<Step>, i: nat, a: Attempt, given: seq<Root>)
    requires Runs(s, steps) && i < |steps| && steps[i] == Begin(a, given)
    ensures a in After(s, steps).attempts && forall r :: r in After(s, steps).attempts[a].roots <==> r in given
    decreases steps
  {
    if i == 0 {
      RunRoots(Apply(s, steps[0]), steps[1..], a);
    } else {
      assert steps[1..][i - 1] == steps[i];
      GivenRoots(Apply(s, steps[0]), steps[1..], i - 1, a, given);
    }
  }

  /** In every run, an attempt that has succeeded holds exactly the roots it was asked for. */
  lemma LockedHoldsGiven(steps: seq<Step>, i: nat, a: Attempt, given: seq<Root>)
    requires Runs(INITIAL, steps) && i < |steps| && steps[i] == Begin(a, given)
    ensures a in After(INITIAL, steps).attempts
    ensures After(INITIAL, steps).attempts[a].Locked? ==> forall r :: Holds(After(INITIAL, steps), a, r) <==> r in given
  {
    RunInv(INITIAL, steps);
    GivenRoots(INITIAL, steps, i, a, given);
  }

  /** Two attempts that were asked for a common root never both succeed at the same time. */
  lemma NeverBothLocked(
      steps: seq<Step>, i: nat, a: Attempt, given: seq<Root>, j: nat, b: Attempt, other: seq<Root>, r: Root)
    requires Runs(INITIAL, steps) && a != b && r in given && r in other
    requires i < |steps| && steps[i] == Begin(a, given) && j < |steps| && steps[j] == Begin(b, other)
    ensures a in After(INITIAL, steps).attempts && b in After(INITIAL, steps).attempts
    ensures !(After(INITIAL, steps).attempts[a].Locked? && After(INITIAL, steps).attempts[b].Locked?)
  {
    LockedHoldsGiven(steps, i, a, given);
    LockedHoldsGiven(steps, j, b, other);
    var s := After(INITIAL, steps);
    if s.attempts[a].Locked? && s.attempts[b].Locked? {
      assert Holds(s, a, r) && Holds(s, b, r);
      Exclusive(steps, a, b, r);
    }
  }

  /** Trying a root is refused exactly when another attempt holds it; otherwise the root is taken. */
  lemma TryExact(s: State, a: Attempt)
    requires Inv(s) && Enabled(s, TryNext(a))
    ensures var p, s' := s.attempts[a], Apply(s, TryNext(a));
      if exists b :: b != a && Holds(s, b, p.roots[p.held]) then WasRefused(s', a) && s'.owner == s.owner
      else s'.attempts[a] == Acquiring(p.roots, p.held + 1) && Holds(s', a, p.roots[p.held])
  {
    var p := s.attempts[a];
    var root := p.roots[p.held];
    StepConsistent(s, TryNext(a));
    Trichotomies(p.roots);
    if root in s.owner {
      var b := s.owner[root];
      assert Holds(s, b, root);
      assert root !in p.roots[..p.held];
    } else {
      assert Apply(s, TryNext(a)).attempts[a].Held()[p.held] == root;
    }
  }

  lemma RunsFirst(s: State, step: Step, steps: seq<Step>)
    requires Enabled(s, step) && Runs(Apply(s, step), steps)
    ensures Runs(s, [step] + steps) && After(s, [step] + steps) == After(Apply(s, step), steps)
  {
    assert ([step] + steps)[1..] == steps;
  }

  /** An attempt on free roots gets them all, whatever other attempts are doing, by steps of its own. */
  lemma {:induction false} TakesAll(s: State, a: Attempt) returns (steps: seq<Step>)
    requires a in s.attempts && s.attempts[a].Acquiring? && s.attempts[a].Valid()
    requires forall i :: s.attempts[a].held <= i < |s.attempts[a].roots| ==> s.attempts[a].roots[i] !in s.owner
    ensures Runs(s, steps) && forall i :: 0 <= i < |steps| ==> steps[i].a == a && !steps[i].Begin?
    ensures After(s, steps).attempts == s.attempts[a := Locked(s.attempts[a].roots)]
    decreases |s.attempts[a].roots| - s.attempts[a].held
  {
    var p := s.attempts[a];
    if p.held == |p.roots| {
      RunsFirst(s, Finish(a), []);
      steps := [Finish(a)] + [];
    } else {
      Trichotomies(p.roots);
      var s' := Apply(s, TryNext(a));
      assert s'.attempts[a] == Acquiring(p.roots, p.held + 1);
      var rest := TakesAll(s', a);
      RunsFirst(s, TryNext(a), rest);
      steps := [TryNext(a)] + rest;
      assert After(s, steps).attempts == s.attempts[a := Locked(p.roots)];
    }
  }

  lemma FreshSucceeds(s: State, a: Attempt, given: seq<Root>) returns (steps: seq<Step>)
    requires a !in s.attempts && forall r :: r in given ==> r !in s.owner
    ensures Runs(s, steps) && forall i :: 0 <= i < |steps| ==> steps[i].a == a
    ensures a in After(s, steps).attempts && After(s, steps).attempts[a].Locked?
    ensures forall r :: r in After(s, steps).attempts[a].roots <==> r in given
  {
    var s' := Apply(s, Begin(a, given));
    var rest := TakesAll(s', a);
    RunsFirst(s, Begin(a, given), rest);
    steps := [Begin(a, given)] + rest;
  }

  /** The root on which a refused attempt failed. */
  function FailedOn(p: Phase): Root
    requires p.Closing? && p.why.Refused? && p.why.at < |p.roots|
  {
    p.roots[p.why.at]
  }

  predicate WasRefused(s: State, a: Attempt) {
    a in s.attempts && s.attempts[a].Valid() && s.attempts[a].Closing? && s.attempts[a].why.Refused?
  }

  /** Whoever blocks a refused attempt can itself have been refused only a greater root. */
  lemma Blocker(s: State, a: Attempt) returns (holder: Attempt)
    requires Inv(s) && WasRefused(s, a)
    ensures holder == s.attempts[a].why.holder && holder in s.attempts
    ensures Accountable(s.attempts[holder], FailedOn(s.attempts[a]))
  {
    assert Blamed(s, a);
    holder := s.attempts[a].why.holder;
  }

  /** The refused attempts that failed on a root above `r`. */
  ghost function RefusedAbove(s: State, r: Root): set<Attempt> {
    set a | a in s.attempts && WasRefused(s, a) && Below(r, FailedOn(s.attempts[a]))
  }

  lemma FewerAbove(s: State, r: Root, a: Attempt)
    requires WasRefused(s, a) && Below(r, FailedOn(s.attempts[a]))
    ensures RefusedAbove(s, FailedOn(s.attempts[a])) < RefusedAbove(s, r)
  {
    var r' := FailedOn(s.attempts[a]);
    forall b | b in RefusedAbove(s, r') ensures b in RefusedAbove(s, r) {
      Transitive(r, r', FailedOn(s.attempts[b]));
    }
    Trichotomy(r', r');
    assert a in RefusedAbove(s, r) && a !in RefusedAbove(s, r');
  }

  /** Each attempt was refused a root that the next one held, and each root is above the one before. */
  ghost predicate Chain(s: State, chain: seq<Attempt>) {
    && chain != []
    && (forall i :: 0 <= i < |chain| ==> chain[i] in s.attempts)
    && (forall i :: 0 <= i < |chain| - 1 ==> Link(s, chain[i], chain[i + 1]))
  }

  ghost predicate Link(s: State, a: Attempt, b: Attempt) {
    && WasRefused(s, a) && s.attempts[a].why.holder == b
    && (WasRefused(s, b) ==> Below(FailedOn(s.attempts[a]), FailedOn(s.attempts[b])))
  }

  /**
   From every refused attempt, the chain of those who blocked each other, on ever greater roots, ends
   at an attempt that was not refused: it is still acquiring, has succeeded, or was aborted.
   */
  lemma {:induction false} BlockerChain(s: State, a: Attempt) returns (chain: seq<Attempt>)
    requires Inv(s) && WasRefused(s, a)
    ensures Chain(s, chain) && |chain| >= 2 && chain[0] == a && !WasRefused(s, chain[|chain| - 1])
    decreases RefusedAbove(s, FailedOn(s.attempts[a]))
  {
    var holder := Blocker(s, a);
    if WasRefused(s, holder) {
      FewerAbove(s, FailedOn(s.attempts[a]), holder);
      var rest := BlockerChain(s, holder);
      chain := [a] + rest;
      assert Link(s, a, holder) && chain[1] == rest[0] == holder;
      assert forall i :: 0 < i < |chain| ==> chain[i] == rest[i - 1];
    } else {
      chain := [a, holder];
      assert Link(s, a, holder);
    }
  }

  /** An attempt that got all its roots, whether or not it still has them, or that an error aborted. */
  predicate NotRefused(p: Phase) {
    p.Succeeded() || (p.Closing? && p.why.Aborted?)
  }

  /**
   In every run, from every refused attempt: once the attempts of its chain are settled, the last of
   them got all its roots or was aborted.
   */
  lemma RefusedForAWinner(steps: seq<Step>, a: Attempt) returns (chain: seq<Attempt>)
    requires Runs(INITIAL, steps) && WasRefused(After(INITIAL, steps), a)
    ensures Chain(After(INITIAL, steps), chain) && |chain| >= 2 && chain[0] == a
    ensures var last := After(INITIAL, steps).attempts[chain[|chain| - 1]]; last.Acquiring? || NotRefused(last)
  {
    RunInv(INITIAL, steps);
    chain := BlockerChain(After(INITIAL, steps), a);
  }

  ghost predicate WonOrAborted(s: State) {
    exists a :: a in s.attempts && NotRefused(s.attempts[a])
  }

  /**
   Contention never defeats everybody: once every attempt of a run is settled, some attempt got
   all its roots, unless one was aborted.
   */
  lemma SomeoneWins(steps: seq<Step>)
    requires Runs(INITIAL, steps) && After(INITIAL, steps).attempts != map[]
    requires forall a :: a in After(INITIAL, steps).attempts ==> !After(INITIAL, steps).attempts[a].Acquiring?
    ensures WonOrAborted(After(INITIAL, steps))
  {
    var s := After(INITIAL, steps);
    RunInv(INITIAL, steps);
    assert s.attempts.Keys != {};
    var a :| a in s.attempts;
    if WasRefused(s, a) {
      var chain := RefusedForAWinner(steps, a);
      assert NotRefused(s.attempts[chain[|chain| - 1]]);
    } else {
      assert NotRefused(s.attempts[a]);
    }
  }

  // ---------------------------------------------------------------------------
  // One attempt on its own
  // ---------------------------------------------------------------------------

  /** The locks held on the lock files, as the kernel keeps them. */
  class FileLocks {
    var owner: map<Root, Attempt>

    constructor ()
      ensures owner == map[]
    {
      owner := map[];
    }

    /** `acquire` without interference: all roots or none. */
    method Acquire(a: Attempt, given: seq<Root>) returns (ok: bool)
      modifies this
      ensures ok <==> forall r :: r in given ==> r !in old(owner)
      ensures ok ==> owner == Adding(old(owner), a, given)
      ensures !ok ==> owner == old(owner)
    {
      var roots := Sorted(given);
      var files: seq<Root> := [];
      Trichotomies(roots);
      for i := 0 to |roots|
        invariant files == roots[..i]
        invariant forall r :: r in files ==> r !in old(owner)
        invariant owner == Adding(old(owner), a, files)
      {
        var root := roots[i];
        assert root in given && root !in files;
        if root in owner {
          assert root in old(owner);
          AddingUndone(old(owner), a, files);
          owner := owner - (set r | r in files);
          return false;
        }
        AddingOne(old(owner), a, files, root);
        files := files + [root];
        owner := owner[root := a];
      }
      assert files == roots;
      AddingSame(old(owner), a, roots, given);
      return true;
    }
  }

  function Adding(owner: map<Root, Attempt>, a: Attempt, roots: seq<Root>): map<Root, Attempt> {
    owner + map r | r in roots :: a
  }

  lemma AddingOne(owner: map<Root, Attempt>, a: Attempt, roots: seq<Root>, r: Root)
    ensures Adding(owner, a, roots + [r]) == Adding(owner, a, roots)[r := a]
  {
  }

  lemma AddingSame(owner: map<Root, Attempt>, a: Attempt, x: seq<Root>, y: seq<Root>)
    requires forall r :: r in x <==> r in y
    ensures Adding(owner, a, x) == Adding(owner, a, y)
  {
  }

  lemma AddingUndone(owner: map<Root, Attempt>, a: Attempt, roots: seq<Root>)
    requires forall r :: r in roots ==> r !in owner
    ensures Adding(owner, a, roots) - (set r | r in roots) == owner
  {
  }
}
