/**
 Switching the kernel's runtime-security profile
 (internal/agent/runtime_security.go): a journal of the old policy, the new
 policy, a restart, a confirmation by the running kernel, and rollback. Writes
 are atomic but a failed write may already be in place, and the Agent may die
 after any step.
 */
module SecuritySwitch {
  import opened AtomicWrite
  import opened Wrappers

  datatype Mode = Standard | Enhanced | Unrecognised

  /** The content of runtime-security.json and of its journal. */
  datatype Policy = Policy(mode: Mode, revision: int)

  /** What the kernel reports about itself. */
  datatype Kernel = Kernel(supported: bool, mode: Mode, noNewPrivileges: bool, dumpable: bool, coreDumpsDisabled: bool)

  /** The steps of a switch that can go wrong; each is come to at most once. */
  datatype Phase = Recovery | Check | Forward | Back

  datatype Task =
    | Lock | ReadPolicy | SaveJournal | SavePolicy | Restart | Survive | ReadState | Verify | VerifyAgain | Unlink

  datatype Step = Step(phase: Phase, task: Task)

  /** Nothing goes wrong but that the new profile is not confirmed. */
  predicate Unconfirmed(weak: set<Step>) {
    weak != {} && weak <= {Step(Forward, ReadState), Step(Forward, Verify)}
  }

  datatype Outcome = Applied | RolledBack | Refused | Unresolved | Crashed

  /** An absent policy file means the standard profile. */
  const DEFAULT := Policy(Standard, 0)

  predicate Known(mode: Mode) {
    mode == Standard || mode == Enhanced
  }

  function Effective(policy: Option<Policy>): Policy {
    if policy.Some? then policy.value else DEFAULT
  }

  predicate ProfileMatches(kernel: Option<Kernel>, mode: Mode) {
    && kernel.Some? && kernel.value.supported && kernel.value.mode == mode
    && (mode == Standard || (kernel.value.noNewPrivileges && !kernel.value.dumpable && kernel.value.coreDumpsDisabled))
  }

  /** A policy that took effect, and the kernel report that confirmed it. */
  datatype Commit = Commit(policy: Policy, seen: Option<Kernel>)

  function Committed(initial: Policy, commits: seq<Commit>): Policy {
    if commits == [] then initial else commits[|commits| - 1].policy
  }

  /**
   With a journal the old policy is safe in it; without one the policy on disk
   is the last one a running kernel confirmed.
   */
  ghost predicate Consistent(policy: Option<Policy>, journal: Option<Policy>, initial: Policy, commits: seq<Commit>) {
    && Committed(initial, commits) == (if journal.Some? then journal.value else Effective(policy))
    && forall i :: 0 <= i < |commits| ==> ProfileMatches(commits[i].seen, commits[i].policy.mode)
  }

  /**
   A policy only ever took effect on the report of a kernel that supports the
   switch and runs its mode; for the enhanced profile that kernel can gain no
   privileges, cannot be dumped and writes no core files. For the standard one
   its mode is enough.
   */
  lemma CommitWasSeen(policy: Option<Policy>, journal: Option<Policy>, initial: Policy, commits: seq<Commit>, i: nat)
    requires Consistent(policy, journal, initial, commits) && i < |commits|
    ensures var c := commits[i];
            && c.seen.Some? && c.seen.value.supported && c.seen.value.mode == c.policy.mode
            && (c.policy.mode == Enhanced ==>
                  c.seen.value.noNewPrivileges && !c.seen.value.dumpable && c.seen.value.coreDumpsDisabled)
  {
    assert ProfileMatches(commits[i].seen, commits[i].policy.mode);
  }

  /** The other direction: a kernel with these properties passes. */
  lemma HardenedKernelPasses(kernel: Kernel, mode: Mode)
    requires kernel.supported && kernel.mode == mode
    requires mode != Standard ==> kernel.noNewPrivileges && !kernel.dumpable && kernel.coreDumpsDisabled
    ensures ProfileMatches(Some(kernel), mode)
  {
  }

  class Switch {
    var policy: Option<Policy>
    var journal: Option<Policy>
    var kernel: Kernel
    ghost var initial: Policy
    ghost var commits: seq<Commit>
    ghost var setbacks: nat  // writes, restarts, checks and replies that went wrong

    ghost predicate Valid()
      reads this
    {
      Consistent(policy, journal, initial, commits)
    }

    constructor (policy: Option<Policy>, kernel: Kernel)
      ensures Valid() && this.policy == policy && this.kernel == kernel && journal.None? && commits == []
      ensures setbacks == 0
    {
      this.policy, journal, this.kernel := policy, None, kernel;
      initial, commits, setbacks := Effective(policy), [], 0;
    }

    // --- the steps the host performs -----------------------------------------

    /** Whether a step goes wrong: a lock is busy, a file unreadable, a check fails or the Agent dies. */
    method Setback(step: Step, weak: set<Step>) returns (struck: bool)
      modifies this`setbacks
      ensures struck <==> step in weak
      ensures setbacks == old(setbacks) + if struck then 1 else 0
    {
      struck := step in weak;
      if struck {
        setbacks := setbacks + 1;
      }
    }

    method TryWrite(step: Step, weak: set<Step>) returns (w: Written)
      modifies this`setbacks
      ensures w.Synced? <==> step !in weak
      ensures setbacks == old(setbacks) + if w.Synced? then 0 else 1
    {
      var struck := Setback(step, weak);
      if !struck {
        return Synced;
      }
      var crashed: bool := *;
      return if crashed then WriteCrashed else WriteFailed;
    }

    method WriteJournal(p: Policy, step: Step, weak: set<Step>) returns (w: Written)
      modifies this`journal, this`setbacks
      ensures setbacks == old(setbacks) + if w.Synced? then 0 else 1
      ensures journal == old(journal) || journal == Some(p)
      ensures w.Synced? <==> step !in weak
      ensures w.Synced? ==> journal == Some(p)
    {
      w := TryWrite(step, weak);
      var published: bool := *;
      if w.Synced? || published {
        journal := Some(p);
      }
    }

    method WritePolicy(p: Policy, step: Step, weak: set<Step>) returns (w: Written)
      modifies this`policy, this`setbacks
      ensures setbacks == old(setbacks) + if w.Synced? then 0 else 1
      ensures policy == old(policy) || policy == Some(p)
      ensures w.Synced? <==> step !in weak
      ensures w.Synced? ==> policy == Some(p)
    {
      w := TryWrite(step, weak);
      var published: bool := *;
      if w.Synced? || published {
        policy := Some(p);
      }
    }

    /** Removing the journal ends the transaction; what is on disk then stands. */
    method RemoveJournal(ghost seen: Option<Kernel>, step: Step, weak: set<Step>) returns (w: Written)
      requires Valid() && policy.Some?
      requires Effective(policy) == Committed(initial, commits) || ProfileMatches(seen, Effective(policy).mode)
      modifies this`journal, this`commits, this`setbacks
      ensures Valid() && setbacks == old(setbacks) + if w.Synced? then 0 else 1
      ensures (w.Synced? <==> step !in weak) && (w.Synced? ==> journal.None?)
      ensures commits == old(commits) || (journal.None? && commits == old(commits) + [Commit(policy.value, seen)])
      ensures old(Effective(policy) == Committed(initial, commits)) ==> commits == old(commits)
    {
      w := TryWrite(step, weak);
      var published: bool := *;
      if w.Synced? || published {
        if policy.value != Committed(initial, commits) {
          commits := commits + [Commit(policy.value, seen)];
        }
        journal := None;
      }
    }

    /** The kernel comes back with whatever profile it manages to apply, at best the one on disk. */
    method RestartKernel(step: Step, weak: set<Step>) returns (ok: bool)
      modifies this`kernel, this`setbacks
      ensures old(setbacks) <= setbacks
      ensures setbacks == old(setbacks) <==> step !in weak
      ensures step !in weak ==> ok && ProfileMatches(Some(kernel), Effective(policy).mode)
    {
      var struck := Setback(step, weak);
      ok, kernel := *, *;
      if !struck {
        ok := true;
        if !ProfileMatches(Some(kernel), Effective(policy).mode) {
          kernel := Kernel(true, Effective(policy).mode, true, false, true);
        }
      }
    }

    /** The local API may not answer. */
    method ReadKernel(step: Step, weak: set<Step>) returns (seen: Option<Kernel>)
      modifies this`setbacks
      ensures setbacks == old(setbacks) + if seen.None? then 1 else 0
      ensures seen == if step in weak then None else Some(kernel)
    {
      var struck := Setback(step, weak);
      return if struck then None else Some(kernel);
    }

    // --- recovery and the switch ---------------------------------------------

    /** A pending profile is rolled back: journalled policy on disk, kernel confirmed, journal gone. */
    method Recover(weak: set<Step>) returns (outcome: Outcome)
      requires Valid()
      modifies this
      ensures Valid() && commits == old(commits) && !outcome.RolledBack? && old(setbacks) <= setbacks
      ensures setbacks == old(setbacks) ==> (outcome.Applied? <==> old(journal).None? || Known(old(journal).value.mode))
      ensures weak == {} || old(journal).None? ==> setbacks == old(setbacks)
      ensures old(journal).None? ==> outcome.Applied? && policy == old(policy) && journal.None? && kernel == old(kernel)
      ensures old(journal).Some? && outcome.Applied? ==>
                policy == old(journal) && journal.None? && ProfileMatches(Some(kernel), policy.value.mode)
    {
      if journal.None? {
        return Applied;
      }
      var saved := journal.value;
      var struck := Setback(Step(Recovery, Lock), weak);
      if struck {
        return Refused;  // unreadable journal, or a lock was busy
      }
      if !Known(saved.mode) {
        return Refused;
      }
      var w := WritePolicy(saved, Step(Recovery, SavePolicy), weak);
      if !w.Synced? {
        return if w.WriteCrashed? then Crashed else Unresolved;
      }
      var ok := RestartKernel(Step(Recovery, Restart), weak);
      struck := Setback(Step(Recovery, Survive), weak);
      if struck {
        return Crashed;
      }
      if !ok {
        return Unresolved;
      }
      var seen := ReadKernel(Step(Recovery, ReadState), weak);
      struck := Setback(Step(Recovery, Verify), weak);
      if !ProfileMatches(seen, saved.mode) || struck {
        return Unresolved;
      }
      w := RemoveJournal(seen, Step(Recovery, Unlink), weak);
      if !w.Synced? {
        return if w.WriteCrashed? then Crashed else Unresolved;
      }
      return Applied;
    }

    /**
     The switch. On `Applied` the new policy stands and the running kernel has
     it; on `RolledBack` the old policy stands, the journal is gone and the
     kernel is back on the profile it ran before, which is the policy's own
     exactly if the kernel was on it to begin with. Without a setback the switch
     is applied exactly if the kernel can switch and any journal is legible.
     */
    method Apply(request: Policy, weak: set<Step>) returns (outcome: Outcome)
      requires Valid() && Known(request.mode)
      modifies this
      ensures Valid() && old(setbacks) <= setbacks
      ensures setbacks == old(setbacks) ==>
                (outcome.Applied? <==>
                 if old(journal).None? then old(kernel).supported else Known(old(journal).value.mode))
      ensures weak == {} ==> setbacks == old(setbacks)
      ensures Unconfirmed(weak) && old(journal).None? && old(kernel).supported
              && !ProfileMatches(Some(old(kernel)), request.mode) ==>
                RestoredTo(old(Effective(policy)), old(kernel).mode, outcome)
      ensures outcome.Applied? ==>
                policy == Some(request) && journal.None? && ProfileMatches(Some(kernel), request.mode)
      ensures outcome.Applied? ==> kernel.supported && kernel.mode == request.mode
      ensures outcome.Applied? && request.mode == Enhanced ==>
                kernel.noNewPrivileges && !kernel.dumpable && kernel.coreDumpsDisabled
      ensures outcome.RolledBack? ==>
                journal.None? && commits == old(commits) && Effective(policy) == Committed(initial, commits)
      ensures outcome.RolledBack? && old(journal).None? ==>
                && Effective(policy) == old(Effective(policy)) && ProfileMatches(Some(kernel), old(kernel).mode)
                && var mode := Effective(policy).mode; ProfileMatches(Some(kernel), mode) <==> old(kernel).mode == mode
      ensures commits == old(commits) || (exists seen :: commits == old(commits) + [Commit(request, seen)])
    {
      outcome := Recover(weak);
      if !outcome.Applied? {
        return;
      }
      var current := ReadKernel(Step(Check, ReadState), weak);
      var blocked := Setback(Step(Check, Lock), weak);
      if current.None? || !current.value.supported || blocked {
        return Refused;  // preflight, locks, binary check, storage
      }
      if ProfileMatches(current, request.mode) {
        outcome := ApplyInPlace(request, current, weak);
      } else {
        outcome := ApplyWithRestart(request, current.value.mode, weak);
      }
    }

    /** The kernel already runs the profile: no journal, no restart. */
    method ApplyInPlace(request: Policy, current: Option<Kernel>, weak: set<Step>) returns (outcome: Outcome)
      requires Valid() && journal.None? && current == Some(kernel) && ProfileMatches(current, request.mode)
      modifies this
      ensures Valid() && !outcome.RolledBack? && old(setbacks) <= setbacks
      ensures (setbacks == old(setbacks) ==> outcome.Applied?) && (weak == {} ==> setbacks == old(setbacks))
      ensures outcome.Applied? ==>
                policy == Some(request) && journal.None? && ProfileMatches(Some(kernel), request.mode)
      ensures commits == old(commits) || (exists seen :: commits == old(commits) + [Commit(request, seen)])
    {
      var w := WritePolicy(request, Step(Forward, SavePolicy), weak);
      if policy == Some(request) {
        commits := commits + [Commit(request, current)];
      }
      if !w.Synced? {
        return if w.WriteCrashed? then Crashed else Unresolved;
      }
      var struck := Setback(Step(Forward, Verify), weak);
      if struck {
        return Unresolved;  // configuration not verified
      }
      return Applied;
    }

    method ApplyWithRestart(request: Policy, currentMode: Mode, weak: set<Step>) returns (outcome: Outcome)
      requires Valid() && journal.None?
      modifies this
      ensures Valid() && old(setbacks) <= setbacks
      ensures (setbacks == old(setbacks) ==> outcome.Applied?) && (weak == {} ==> setbacks == old(setbacks))
      ensures Unconfirmed(weak) ==> RestoredTo(old(Effective(policy)), currentMode, outcome)
      ensures outcome.Applied? ==>
                policy == Some(request) && journal.None? && ProfileMatches(Some(kernel), request.mode)
      ensures outcome.RolledBack? ==> journal.None? && commits == old(commits) && policy == Some(Effective(old(policy)))
                                      && ProfileMatches(Some(kernel), currentMode)
      ensures commits == old(commits) || (exists seen :: commits == old(commits) + [Commit(request, seen)])
    {
      var struck := Setback(Step(Forward, ReadPolicy), weak);
      if struck {
        return Refused;  // the policy file could not be read
      }
      var saved := Effective(policy);
      var w := WriteJournal(saved, Step(Forward, SaveJournal), weak);
      if !w.Synced? {
        return if w.WriteCrashed? then Crashed else Unresolved;
      }
      w := WritePolicy(request, Step(Forward, SavePolicy), weak);
      if !w.Synced? {
        return if w.WriteCrashed? then Crashed else Unresolved;
      }
      var ok := RestartKernel(Step(Forward, Restart), weak);
      struck := Setback(Step(Forward, Survive), weak);
      if struck {
        return Crashed;
      }
      var seen := ReadKernel(Step(Forward, ReadState), weak);
      struck := Setback(Step(Forward, Verify), weak);
      if !ok || !ProfileMatches(seen, request.mode) || struck {
        outcome := RollBack(saved, currentMode, weak);
        return;
      }
      struck := Setback(Step(Forward, VerifyAgain), weak);
      if struck {
        return Unresolved;  // configuration not verified; the journal stays
      }
      w := RemoveJournal(seen, Step(Forward, Unlink), weak);
      if !w.Synced? {
        return if w.WriteCrashed? then Crashed else Unresolved;
      }
      return Applied;
    }

    /** The old policy and its profile are back; that counts as a rollback exactly if the kernel ran it before. */
    ghost predicate RestoredTo(saved: Policy, currentMode: Mode, outcome: Outcome)
      reads this
    {
      && outcome == (if saved.mode == currentMode then RolledBack else Unresolved)
      && policy == Some(saved) && ProfileMatches(Some(kernel), saved.mode)
      && journal == if outcome.RolledBack? then None else Some(saved)
    }

    /** Without a further setback a rollback is verified exactly if the kernel ran the policy's own profile. */
    method RollBack(saved: Policy, currentMode: Mode, weak: set<Step>) returns (outcome: Outcome)
      requires Valid() && journal == Some(saved)
      modifies this
      ensures Valid() && commits == old(commits) && !outcome.Applied? && old(setbacks) <= setbacks
      ensures setbacks == old(setbacks) ==> RestoredTo(saved, currentMode, outcome)
      ensures (forall step :: step in weak ==> !step.phase.Back?) ==> setbacks == old(setbacks)
      ensures outcome.RolledBack? ==>
                policy == Some(saved) && journal.None? && ProfileMatches(Some(kernel), currentMode)
    {
      var w := WritePolicy(saved, Step(Back, SavePolicy), weak);
      if !w.Synced? {
        return if w.WriteCrashed? then Crashed else Unresolved;
      }
      var ok := RestartKernel(Step(Back, Restart), weak);
      var struck := Setback(Step(Back, Survive), weak);
      if struck {
        return Crashed;
      }
      if !ok {
        return Unresolved;
      }
      var seen := ReadKernel(Step(Back, ReadState), weak);
      struck := Setback(Step(Back, Verify), weak);
      if !ProfileMatches(seen, currentMode) || struck {
        return Unresolved;
      }
      w := RemoveJournal(seen, Step(Back, Unlink), weak);
      if !w.Synced? {
        return if w.WriteCrashed? then Crashed else Unresolved;
      }
      return RolledBack;
    }
  }

  /**
   A kernel found on the enhanced profile under a standard policy: a switch whose
   new profile is not confirmed restores policy and kernel, and still does not
   end.
   */
  method DriftedKernelCannotRollBack() returns (s: Switch, outcome: Outcome)
    ensures outcome.Unresolved? && s.journal == Some(Policy(Standard, 1))
    ensures s.policy == s.journal && ProfileMatches(Some(s.kernel), Standard)
  {
    s := new Switch(Some(Policy(Standard, 1)), Kernel(true, Enhanced, true, false, true));
    outcome := s.Apply(Policy(Standard, 2), {Step(Forward, Verify)});
  }
}
