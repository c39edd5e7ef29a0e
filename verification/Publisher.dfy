/** The methods of `Publication` (src/publication.rs) with their loops. Every durable
    operation goes through `Perform`, which may meet an I/O error or the death of the process;
    the object keeps the whole run, so each method is proved to make only legal steps. */
module Publisher {
  import opened Basics
  import opened Publication
  import opened PublicationSafety
  import opened PublicationTheorems

  datatype Fault = NoFault | IoError | Death
  datatype Status = Done | Error | Dead

  /** What is left of `before` after moving journals aside from the last on. */
  ghost predicate LeftOf(before: seq<Option<Journal>>, now: seq<Option<Journal>>) {
    |now| == |before| && exists k | 0 <= k <= |now| :: now[..k] == before[..k] && NoJournals(now[k..])
  }

  predicate PrimaryFirst(journals: seq<Option<Journal>>) {
    forall i | 0 < i < |journals| :: journals[i].Some? ==> journals[0].Some?
  }

  ghost predicate KeepsUpTo(before: seq<Option<Journal>>, now: seq<Option<Journal>>, k: nat) {
    k <= |now| == |before| && now[..k] == before[..k] && forall m | k <= m < |now| :: now[m].None?
  }

  lemma KeptIsLeft(before: seq<Option<Journal>>, now: seq<Option<Journal>>, k: nat)
    requires KeepsUpTo(before, now, k)
    ensures LeftOf(before, now)
  {
    assert NoJournals(now[k..]);
  }

  lemma RunIsPrimaryFirst(run: seq<State>, actions: seq<Action>)
    requires IsRun(run, actions)
    ensures forall m | 0 <= m < |run| :: PrimaryFirst(run[m].journals)
  {
    hide IsRun;
    forall m | 0 <= m < |run| ensures PrimaryFirst(run[m].journals) {
      SecondaryNeedsPrimaryAndReadyHasBackups(run, actions, m);
    }
  }

  /** A journal as `begin` leaves it: four empty directories and the identity. */
  function NewJournal(plan: Plan): Journal {
    EMPTY_JOURNAL.(directories := JOURNAL_DIRECTORIES, identity := Whole(plan.firsts))
  }

  predicate BegunTo(plan: Plan, journals: seq<Option<Journal>>, i: nat) {
    forall m | 0 <= m < |journals| ::
      && journals[m].Some?
      && journals[m].value == if m < i then NewJournal(plan)
                              else if m == i then EMPTY_JOURNAL.(directories := journals[m].value.directories)
                              else EMPTY_JOURNAL
  }

  // ---------------------------------------------------------------- when a publication succeeds

  /** What `prepare` asks of destination `k` of set `i`. */
  predicate Admitted(plan: Plan, files: Files, i: nat, k: nat)
    requires i < |plan.firsts| && i < |plan.destinations| && k < |plan.destinations[i]|
  {
    var name := plan.destinations[i][k];
    plan.accepts(plan.firsts[i], name) && (plan.allowReplace || plan.Target(i, name) !in files)
  }

  /** Every file of the set to be written is staged, and no destination is refused. */
  predicate SetIsReady(plan: Plan, files: Files, i: nat, staged: map<Name, Bytes>)
    requires plan.Valid() && i < |plan.firsts|
  {
    StagedComplete(plan, i, staged) && forall k | 0 <= k < |plan.destinations[i]| :: Admitted(plan, files, i, k)
  }

  predicate ReadyTo(plan: Plan, files: Files, i: nat, k: nat, staged: map<Name, Bytes>)
    requires plan.Valid() && i < |plan.firsts| && k <= |plan.destinations[i]|
  {
    (k > 0 ==> StagedComplete(plan, i, staged)) && forall m | 0 <= m < k :: Admitted(plan, files, i, m)
  }

  lemma ReadyStep(plan: Plan, files: Files, i: nat, k: nat, staged: map<Name, Bytes>)
    requires plan.Valid() && i < |plan.firsts| && k <= |plan.destinations[i]|
    ensures ReadyTo(plan, files, i, 0, staged)
    ensures k < |plan.destinations[i]| ==>
              (ReadyTo(plan, files, i, k + 1, staged)
               <==> ReadyTo(plan, files, i, k, staged) && (k == 0 ==> StagedComplete(plan, i, staged))
                    && Admitted(plan, files, i, k))
    ensures SetIsReady(plan, files, i, staged) ==> ReadyTo(plan, files, i, k, staged)
    ensures k == |plan.destinations[i]| && ReadyTo(plan, files, i, k, staged) ==> SetIsReady(plan, files, i, staged)
  {
  }

  predicate IsReadyAt(s: State, i: nat)
    requires s.plan.Valid() && |s.journals| == |s.plan.firsts| && i < |s.plan.firsts|
  {
    s.journals[i].Some? && SetIsReady(s.plan, s.files, i, s.journals[i].value.staged)
  }

  predicate AllReady(s: State)
    requires s.plan.Valid() && |s.journals| == |s.plan.firsts|
  {
    forall i | 0 <= i < |s.plan.firsts| :: IsReadyAt(s, i)
  }

  predicate AllStaged(s: State)
    requires s.plan.Valid() && |s.journals| == |s.plan.firsts|
  {
    forall i | 0 <= i < |s.plan.firsts| ::
      s.journals[i].Some? && StagedComplete(s.plan, i, s.journals[i].value.staged)
  }

  /** None of the first `n` names of set `i` is written twice. */
  predicate WrittenOnceTo(plan: Plan, i: nat, n: nat)
    requires i < |plan.destinations| && n <= |plan.destinations[i]|
  {
    var names := plan.destinations[i];
    forall m, k | 0 <= m < k < n && k < plan.written :: names[m] != names[k]
  }

  /** A staged file can be renamed away only once. */
  predicate WrittenOnce(plan: Plan, i: nat)
    requires i < |plan.destinations|
  {
    WrittenOnceTo(plan, i, |plan.destinations[i]|)
  }

  /** Read off the plan, the output and the staged files before the call. */
  predicate CanPublish(s: State)
    requires s.plan.Valid() && |s.journals| == |s.plan.firsts|
  {
    AllReady(s) && forall i | 0 <= i < |s.plan.firsts| :: WrittenOnce(s.plan, i)
  }

  ghost predicate SameHistory(s: State, t: State) {
    t.plan == s.plan && t.original == s.original && t.committed == s.committed && |t.journals| == |s.journals|
  }

  predicate SameStaged(before: seq<Option<Journal>>, now: seq<Option<Journal>>) {
    && |now| == |before|
    && forall i | 0 <= i < |now| :: before[i].Some? && now[i].Some? && now[i].value.staged == before[i].value.staged
  }

  lemma SameStagedIsCurrent(s: State, t: State)
    requires SameStaged(s.journals, t.journals)
    ensures CurrentStaged(t) == CurrentStaged(s)
  {
  }

  lemma BackingUpMeans(s: State)
    requires Inv(s) && (s.process.BackingUp? || s.process.Staging?)
    ensures s.plan.Valid() && |s.journals| == |s.plan.firsts|
    ensures Present(s.journals) && SameStaged(s.journals, s.journals)
  {
  }

  /** Backups may have been taken, and nothing that decides the publication has changed. */
  ghost predicate SameInputs(s: State, t: State) {
    SameHistory(s, t) && t.files == s.files && SameStaged(s.journals, t.journals)
  }

  /** The bytes of an existing destination are copied, a missing one is noted as absent. */
  function WithBackup(s: State, i: nat, k: nat, j: Journal): Journal
    requires i < |s.plan.firsts| && i < |s.plan.destinations| && k < |s.plan.destinations[i]|
  {
    var name := s.plan.destinations[i][k];
    var path := s.plan.Target(i, name);
    if path in s.files then j.(backups := j.backups[name := s.files[path]]) else j.(absent := j.absent + {name})
  }

  lemma BackUpStepIsLegal(s: State, i: nat, k: nat)
    requires Inv(s) && s.process == BackingUp(i, k, false)
    requires i < |s.plan.firsts| && k < |s.plan.destinations[i]|
    ensures s.plan.Valid() && |s.journals| == |s.plan.firsts|
    ensures Present(s.journals) && SameStaged(s.journals, s.journals)
    ensures if (k == 0 && !StagedComplete(s.plan, i, s.journals[i].value.staged)) || !Admitted(s.plan, s.files, i, k)
            then Next(s, Advance, OnFailure(s))
            else Next(s, Advance,
                      SetJournal(s, i, WithBackup(s, i, k, s.journals[i].value))
                        .(process := BackingUp(i, k + 1, false)))
  {
    hide StagedComplete, BackedUpTo, Output, Recorded;
  }

  function Taken(plan: Plan, i: nat, k: nat): set<Name>
    requires i < |plan.destinations| && k <= |plan.destinations[i]|
  {
    set m | 0 <= m < k && m < plan.written :: plan.destinations[i][m]
  }

  /** The journals once the first `k` destinations of set `i` are installed. */
  function TakenFrom(plan: Plan, i: nat, k: nat, journals: seq<Option<Journal>>): seq<Option<Journal>>
    requires i < |plan.destinations| && k <= |plan.destinations[i]| && i < |journals| && journals[i].Some?
  {
    journals[i := Some(journals[i].value.(staged := journals[i].value.staged - Taken(plan, i, k)))]
  }

  /** What installing destination `k` of set `i` does when nothing goes wrong. */
  ghost predicate InstallsFile(s: State, i: nat, k: nat, status: Status, t: State)
    requires i < |s.plan.destinations| && k < |s.plan.destinations[i]| && i < |s.journals| && s.journals[i].Some?
  {
    var name, j := s.plan.destinations[i][k], s.journals[i].value;
    if k >= s.plan.written then status.Done? && t.journals == s.journals
    else if name !in j.staged then status.Error?
    else status.Done? && t.journals == s.journals[i := Some(j.(staged := j.staged - {name}))]
  }

  lemma NothingPublishedYet(s: State)
    requires Inv(s) && s.process.Staging?
    ensures !s.committed && s.files == s.original
  {
  }

  lemma SameReady(s: State, t: State)
    requires s.plan.Valid() && |s.journals| == |s.plan.firsts| && t == s.(process := t.process)
    ensures AllReady(t) <==> AllReady(s)
  {
    assert forall i | 0 <= i < |s.plan.firsts| :: IsReadyAt(t, i) <==> IsReadyAt(s, i);
  }

  lemma SameInputsTwice(s: State, t: State, u: State)
    requires SameInputs(s, t) && SameInputs(t, u)
    ensures SameInputs(s, u)
  {
  }

  lemma ReadyIsStaged(s: State, t: State)
    requires s.plan.Valid() && |s.journals| == |s.plan.firsts| && AllReady(s) && SameInputs(s, t)
    ensures AllStaged(t)
  {
    forall i | 0 <= i < |t.plan.firsts|
      ensures t.journals[i].Some? && StagedComplete(t.plan, i, t.journals[i].value.staged)
    {
      assert IsReadyAt(s, i) && s.journals[i].value.staged == t.journals[i].value.staged;
    }
  }

  lemma NothingTaken(plan: Plan, i: nat, journals: seq<Option<Journal>>)
    requires i < |plan.destinations| && i < |journals| && journals[i].Some?
    ensures TakenFrom(plan, i, 0, journals) == journals && WrittenOnceTo(plan, i, 0)
  {
    var j := journals[i].value;
    assert Taken(plan, i, 0) == {};
    assert j.staged - {} == j.staged;
  }

  /** The next staged file is there exactly when it was not installed already. */
  lemma NextIsTaken(before: seq<Option<Journal>>, s: State, i: nat, k: nat, status: Status, t: State)
    requires s.plan.Valid() && i < |s.plan.firsts| == |before| && k < |s.plan.destinations[i]| && before[i].Some?
    requires StagedComplete(s.plan, i, before[i].value.staged)
    requires s.journals == TakenFrom(s.plan, i, k, before) && WrittenOnceTo(s.plan, i, k)
    requires InstallsFile(s, i, k, status, t)
    ensures !status.Dead? && (status.Done? <==> WrittenOnceTo(s.plan, i, k + 1))
    ensures status.Done? ==> t.journals == TakenFrom(s.plan, i, k + 1, before)
  {
    var staged, names := before[i].value.staged, s.plan.destinations[i];
    var taken, after := Taken(s.plan, i, k), Taken(s.plan, i, k + 1);
    if k < s.plan.written {
      assert after == taken + {names[k]};
      assert staged - after == staged - taken - {names[k]};
    } else {
      assert after == taken;
    }
  }

  lemma FewerWrittenOnce(plan: Plan, i: nat, k: nat)
    requires i < |plan.destinations| && k <= |plan.destinations[i]|
    ensures WrittenOnce(plan, i) ==> WrittenOnceTo(plan, i, k)
    ensures k == |plan.destinations[i]| && WrittenOnceTo(plan, i, k) ==> WrittenOnce(plan, i)
  {
  }

  lemma OneSetIsTaken(plan: Plan, i: nat, k: nat, journals: seq<Option<Journal>>)
    requires i < |plan.destinations| && k <= |plan.destinations[i]| && i < |journals| && journals[i].Some?
    ensures forall m | i < m < |journals| :: TakenFrom(plan, i, k, journals)[m] == journals[m]
  {
  }

  class Publisher {
    var state: State
    var faults: seq<Fault>
    ghost var run: seq<State>
    ghost var actions: seq<Action>

    ghost predicate Valid()
      reads this
    {
      IsRun(run, actions) && run[|run| - 1] == state && Inv(state)
    }

    constructor (firsts: seq<Path>, files: Files, accepts: (Path, Name) -> bool, faults: seq<Fault>)
      requires 1 <= |firsts| <= 2 && (|firsts| == 2 ==> firsts[0] != firsts[1])
      ensures Valid() && state.files == files && state.process == Ended(Fresh) && this.faults == faults
    {
      var plan := Plan(firsts, seq(|firsts|, _ => []), 0, false, accepts);
      state := State(plan, files, seq(|firsts|, _ => None), Ended(Fresh), files, [], false);
      this.faults := faults;
      run := [State(plan, files, seq(|firsts|, _ => None), Ended(Fresh), files, [], false)];
      actions := [];
    }

    /** Appends one legal step to the run. */
    ghost method Record(action: Action, next: State)
      requires Valid() && Next(state, action, next)
      modifies this`run, this`actions
      ensures IsRun(run, actions) && run == old(run) + [next] && Inv(next)
    {
      StepPreserves(state, action, next);
      run, actions := run + [next], actions + [action];
    }

    /** One durable operation: it takes effect, fails without effect, or never happens. */
    method Perform(action: Action, next: State) returns (status: Status)
      requires Valid() && Next(state, action, next) && !state.process.Ended?
      requires state.process.Installing? ==> state.journals[0].Some?
      modifies this
      ensures Valid() && run == old(run) + [state]
      ensures faults == if old(faults) == [] then [] else old(faults)[1..]
      ensures old(faults) == [] ==> status.Done?
      ensures match status
              case Done => state == next
              case Error => state == OnFailure(old(state))
              case Dead => state == old(state).(process := Ended(Crashed))
    {
      var fault := if faults == [] then NoFault else faults[0];
      faults := if faults == [] then [] else faults[1..];
      match fault {
        case NoFault =>
          Record(action, next);
          state := next;
          status := Done;
        case IoError =>
          var failed := OnFailure(state);
          Record(Fail, failed);
          state := failed;
          status := Error;
        case Death =>
          var crashed := state.(process := Ended(Crashed));
          Record(Crash, crashed);
          state := crashed;
          status := Dead;
      }
    }

    /** Moves the journals aside, the secondary first. */
    method CleanUp() returns (status: Status)
      requires Valid() && state.process.Cleaning?
      modifies this
      ensures Valid() && state.process.Ended?
      ensures status.Done? ==> state.process.outcome == old(state.process.after) && NoJournals(state.journals)
      ensures old(faults) == [] ==> status.Done? && faults == []
      ensures state == old(state).(journals := state.journals, process := state.process)
      ensures old(run) <= run
      ensures forall m | |old(run)| <= m < |run| :: LeftOf(old(state.journals), run[m].journals)
    {
      hide BackedUp, RestoredBut, PreparedTo, IsRun, Installed, InstalledTo, StagedFromSources, LeftOf;
      status := Done;
      ghost var before := state.journals;
      while !state.process.Ended?
        invariant Valid() && (state.process.Cleaning? || state.process.Ended?)
        invariant state.process.Cleaning? ==> status.Done? && state.process.after == old(state.process.after)
        invariant state.process.Ended? && status.Done? ==>
                    state.process.outcome == old(state.process.after) && NoJournals(state.journals)
        invariant old(faults) == [] ==> status.Done? && faults == []
        invariant state == old(state).(journals := state.journals, process := state.process)
        invariant old(run) <= run && |state.journals| == |before|
        invariant forall m | |old(run)| <= m < |run| :: LeftOf(before, run[m].journals)
        invariant state.process.Cleaning? ==> KeepsUpTo(before, state.journals, state.process.left)
        decreases if state.process.Cleaning? then state.process.left + 1 else 0
      {
        var left := state.process.left;
        var next := if left == 0 then state.(process := Ended(state.process.after))
                    else state.(journals := state.journals[left - 1 := None],
                                process := Cleaning(left - 1, state.process.after));
        KeptIsLeft(before, state.journals, left);
        if left > 0 { KeptIsLeft(before, next.journals, left - 1); }
        status := Perform(Advance, next);
      }
    }

    /** Restores every backup of the current set: copy beside the target, then rename. */
    method RestoreBackups() returns (status: Status)
      requires Valid() && state.process.RestoringOld? && state.process.copied.None?
      modifies this
      ensures Valid()
      ensures status.Done? ==>
                && state.process == RestoringOld(old(state.process.which), {}, None, old(state.process.after))
      ensures !status.Done? ==> state.process.Ended?
      ensures old(faults) == [] ==> status.Done? && faults == []
      ensures state.original == old(state.original) && state.committed == old(state.committed)
              && state.plan == old(state.plan)
    {
      status := Done;
      var i, after := state.process.which, state.process.after;
      while status.Done? && state.process.todo != {}
        invariant Valid()
        invariant status.Done? ==> state.process.RestoringOld? && state.process.which == i
                                   && state.process.copied.None? && state.process.after == after
        invariant !status.Done? ==> state.process.Ended?
        invariant old(faults) == [] ==> status.Done? && faults == []
        invariant state.original == old(state.original) && state.committed == old(state.committed)
                && state.plan == old(state.plan)
        decreases if status.Done? then |state.process.todo| + 1 else 0
      {
        var name :| name in state.process.todo;
        status := RestoreBackup(name);
      }
    }

    /** Copies one backup beside its target and renames the copy over it. */
    method RestoreBackup(name: Name) returns (status: Status)
      requires Valid() && state.process.RestoringOld? && state.process.copied.None? && name in state.process.todo
      modifies this
      ensures Valid()
      ensures status.Done? ==>
                var p := old(state.process);
                state.process == RestoringOld(p.which, p.todo - {name}, None, p.after)
      ensures status.Done? ==>
                && old(state.process.which) < |state.plan.firsts|
                && var path := state.plan.Target(old(state.process.which), name);
                   path in state.original && state.files == old(state.files)[path := state.original[path]]
      ensures !status.Done? ==> state.process.Ended?
      ensures old(faults) == [] ==> status.Done? && faults == []
      ensures state.original == old(state.original) && state.committed == old(state.committed)
              && state.plan == old(state.plan)
    {
      var i, todo, after := state.process.which, state.process.todo, state.process.after;
      var j := state.journals[i].value;
      assert BackedUp(state.plan, state.original, i, j.backups, j.absent);
      status := Perform(Pick(name),
        SetJournal(state, i, j.(restore := j.restore[name := j.backups[name]]))
          .(process := RestoringOld(i, todo, Some(name), after)));
      if status.Done? {
        j := state.journals[i].value;
        status := Perform(Advance,
          SetJournal(state, i, j.(restore := j.restore - {name}))
            .(files := state.files[state.plan.Target(i, name) := j.restore[name]],
              process := RestoringOld(i, todo - {name}, None, after)));
      }
    }

    /** Removes the destinations of the current set that did not exist before. */
    method RemoveInstalled() returns (status: Status)
      requires Valid() && state.process.RemovingNew?
      modifies this
      ensures Valid()
      ensures status.Done? ==> state.process == RemovingNew(old(state.process.which), {}, old(state.process.after))
      ensures !status.Done? ==> state.process.Ended?
      ensures old(faults) == [] ==> status.Done? && faults == []
      ensures state.original == old(state.original) && state.committed == old(state.committed)
              && state.plan == old(state.plan)
    {
      status := Done;
      var i, after := state.process.which, state.process.after;
      while status.Done? && state.process.todo != {}
        invariant Valid()
        invariant status.Done? ==>
                state.process.RemovingNew? && state.process.which == i && state.process.after == after
        invariant !status.Done? ==> state.process.Ended?
        invariant old(faults) == [] ==> status.Done? && faults == []
        invariant state.original == old(state.original) && state.committed == old(state.committed)
                && state.plan == old(state.plan)
        decreases if status.Done? then |state.process.todo| + 1 else 0
      {
        var name :| name in state.process.todo;
        status := Perform(Pick(name),
          state.(files := state.files - {state.plan.Target(i, name)},
                 process := RemovingNew(i, state.process.todo - {name}, after)));
      }
    }

    /** Undoes set `i` and goes on to the next set, or to recording the decision. */
    method RollBackSet() returns (status: Status)
      requires Valid() && state.process.RestoringOld? && state.process.copied.None?
      modifies this
      ensures Valid()
      ensures status.Done? ==>
                var i := old(state.process.which);
                if i + 1 < |state.plan.firsts| then
                  && state.process.RestoringOld? && state.process.which == i + 1
                  && state.process.copied.None? && state.process.after == old(state.process.after)
                else i + 1 == |state.plan.firsts| && state.process == MarkingRolledBack(old(state.process.after))
      ensures !status.Done? ==> state.process.Ended?
      ensures old(faults) == [] ==> status.Done? && faults == []
      ensures state.original == old(state.original) && state.committed == old(state.committed)
              && state.plan == old(state.plan)
    {
      var i, after := state.process.which, state.process.after;
      status := RestoreBackups();
      if status.Done? {
        status := Perform(Advance, state.(process := RemovingNew(i, state.journals[i].value.absent, after)));
      }
      if status.Done? { status := RemoveInstalled(); }
      if status.Done? { status := NextRollBack(); }
    }

    method NextRollBack() returns (status: Status)
      requires Valid() && state.process.RemovingNew? && state.process.todo == {}
      modifies this
      ensures Valid()
      ensures status.Done? ==>
                var i := old(state.process.which);
                if i + 1 < |state.plan.firsts| then
                  && state.process.RestoringOld? && state.process.which == i + 1
                  && state.process.copied.None? && state.process.after == old(state.process.after)
                else i + 1 == |state.plan.firsts| && state.process == MarkingRolledBack(old(state.process.after))
      ensures !status.Done? ==> state.process.Ended?
      ensures old(faults) == [] ==> status.Done? && faults == []
      ensures state.original == old(state.original) && state.committed == old(state.committed)
              && state.plan == old(state.plan)
    {
      var i, after := state.process.which, state.process.after;
      var next := if i + 1 < |state.plan.firsts| then
          RestoringOld(i + 1, state.journals[i + 1].value.backups.Keys, None, after)
                  else MarkingRolledBack(after);
      status := Perform(Advance, state.(process := next));
    }

    /** Undoes an undecided publication set by set, records the decision and cleans up. */
    method RollBack() returns (status: Status)
      requires Valid() && state.process.RestoringOld? && state.process.which == 0 && state.process.copied.None?
      modifies this
      ensures Valid() && state.process.Ended?
      ensures status.Done? ==> state.process.outcome == old(state.process.after) && NoJournals(state.journals)
      ensures status.Done? ==> state.files == old(state.original)
      ensures old(faults) == [] ==> status.Done? && faults == []
    {
      status := Done;
      ghost var after, original := state.process.after, state.original;
      while status.Done? && state.process.RestoringOld?
        invariant Valid()
        invariant status.Done? ==>
                    || (state.process.RestoringOld? && state.process.copied.None? && state.process.after == after)
                    || state.process == MarkingRolledBack(after)
        invariant !status.Done? ==> state.process.Ended?
        invariant old(faults) == [] ==> status.Done? && faults == []
        invariant state.original == original
        decreases if status.Done? && state.process.RestoringOld? then |state.plan.firsts| - state.process.which + 1
                else 0
      {
        status := RollBackSet();
      }
      if status.Done? { status := Decide(); }
    }

    /** Records that the output is rolled back, then cleans up. */
    method Decide() returns (status: Status)
      requires Valid() && state.process.MarkingRolledBack?
      modifies this
      ensures Valid() && state.process.Ended?
      ensures status.Done? ==> state.process.outcome == old(state.process.after) && NoJournals(state.journals)
      ensures state.files == old(state.original)
      ensures old(faults) == [] ==> status.Done? && faults == []
    {
      status := Perform(Advance,
        SetJournal(state, 0, state.journals[0].value.(rolledBack := true))
          .(process := Cleaning(|state.plan.firsts|, state.process.after)));
      if status.Done? { status := CleanUp(); }
    }

    ghost predicate RollingBack(after: Outcome)
      reads this
    {
      state.process.RestoringOld? && state.process.which == 0 && state.process.copied.None?
          && state.process.after == after
    }

    /** Renames one staged file over its destination, or removes one stale destination. */
    method InstallFile(i: nat, k: nat) returns (status: Status)
      requires Valid() && state.process == Installing(i, k)
      requires i < |state.plan.firsts| && k < |state.plan.destinations[i]|
      modifies this
      ensures Valid() && SameHistory(old(state), state) && state.sources == old(state.sources)
      ensures match status
              case Done => state.process == Installing(i, k + 1)
              case Error => RollingBack(Failed)
              case Dead => state.process.Ended?
      ensures i < |old(state.journals)| && old(state.journals)[i].Some?
      ensures old(faults) == [] ==> faults == [] && InstallsFile(old(state), i, k, status, state)
    {
      hide Inv, IsRun;
      InstallingMeans(state);
      var names := state.plan.destinations[i];
      var path := state.plan.Target(i, names[k]);
      var j := state.journals[i].value;
      if k >= state.plan.written {
        status := Perform(Advance, state.(files := state.files - {path}, process := Installing(i, k + 1)));
      } else if names[k] !in j.staged {
        status := Perform(Advance, OnFailure(state));
        status := if status.Done? then Error else status;
      } else {
        status := Perform(Advance,
          SetJournal(state, i, j.(staged := j.staged - {names[k]}))
            .(files := state.files[path := j.staged[names[k]]], process := Installing(i, k + 1)));
      }
    }

    /** Goes on after the last destination of a set, or after the last set. */
    method FinishInstalling(next: Process) returns (status: Status)
      requires Valid() && state.process.Installing?
      requires var i, k := state.process.which, state.process.index;
               if next == Committing then i == |state.plan.firsts|
               else i < |state.plan.firsts| && k == |state.plan.destinations[i]| && next == Installing(i + 1, 0)
      modifies this
      ensures Valid() && SameHistory(old(state), state) && state.sources == old(state.sources)
      ensures status.Done? ==> state == old(state).(process := next)
      ensures match status
              case Done => true
              case Error => RollingBack(Failed)
              case Dead => state.process.Ended?
      ensures old(faults) == [] ==> faults == [] && status.Done?
    {
      hide Inv, IsRun;
      InstallingMeans(state);
      status := Perform(Advance, state.(process := next));
    }

    /** Renames staged files over the written destinations and removes the stale ones. */
    method Install() returns (status: Status)
      requires Valid() && state.process == Installing(0, 0)
      modifies this
      ensures Valid() && SameHistory(old(state), state) && state.sources == old(state.sources)
      ensures match status
              case Done => state.process == Committing
              case Error => RollingBack(Failed)
              case Dead => state.process.Ended?
      ensures old(faults) == [] && AllStaged(old(state)) ==>
                && faults == [] && !status.Dead?
                && (status.Done? <==> forall i | 0 <= i < |state.plan.firsts| :: WrittenOnce(state.plan, i))
    {
      hide Inv, IsRun, Next, WrittenOnce, StagedComplete;
      InstallingMeans(state);
      status := Done;
      var i := 0;
      ghost var before := state.journals;
      ghost var smooth := faults == [] && AllStaged(state);
      while status.Done? && i < |state.plan.firsts|
        invariant 0 <= i <= |state.plan.firsts| && Valid()
        invariant SameHistory(old(state), state) && state.sources == old(state.sources)
        invariant status.Done? ==> state.process == Installing(i, 0)
        invariant status.Error? ==> RollingBack(Failed)
        invariant status.Dead? ==> state.process.Ended?
        invariant smooth ==> faults == [] && !status.Dead?
        invariant smooth && status.Done? ==>
                    && (forall m | 0 <= m < i :: WrittenOnce(state.plan, m))
                    && forall m | i <= m < |before| :: state.journals[m] == before[m]
        invariant smooth && status.Error? ==> i < |state.plan.firsts| && !WrittenOnce(state.plan, i)
        decreases |state.plan.firsts| - i, status.Done?
      {
        status := InstallOneSet(i);
        if status.Done? { i := i + 1; }
      }
      if status.Done? { status := FinishInstalling(Committing); }
    }

    method InstallOneSet(i: nat) returns (status: Status)
      requires Valid() && state.process == Installing(i, 0) && i < |state.plan.firsts|
      modifies this
      ensures Valid() && SameHistory(old(state), state) && state.sources == old(state.sources)
      ensures match status
              case Done => state.process == Installing(i + 1, 0)
              case Error => RollingBack(Failed)
              case Dead => state.process.Ended?
      ensures i < |old(state.journals)| && old(state.journals)[i].Some?
      ensures old(faults) == [] && StagedComplete(state.plan, i, old(state.journals)[i].value.staged) ==>
                && faults == [] && !status.Dead?
                && (status.Done? <==> WrittenOnce(state.plan, i))
                && (status.Done? ==> forall m | i < m < |state.journals| :: state.journals[m] == old(state.journals)[m])
    {
      hide Inv, IsRun, Next, TakenFrom, InstallsFile, WrittenOnce, WrittenOnceTo, StagedComplete;
      InstallingMeans(state);
      status := Done;
      var k, names := 0, state.plan.destinations[i];
      ghost var before := state.journals;
      ghost var smooth := faults == [] && StagedComplete(state.plan, i, before[i].value.staged);
      NothingTaken(state.plan, i, before);
      while status.Done? && k < |names|
        invariant 0 <= k <= |names| && Valid() && SameHistory(old(state), state) && state.sources == old(state.sources)
        invariant status.Done? ==> state.process == Installing(i, k)
        invariant status.Error? ==> RollingBack(Failed)
        invariant status.Dead? ==> state.process.Ended?
        invariant smooth ==> faults == [] && !status.Dead? && (status.Done? <==> WrittenOnceTo(state.plan, i, k))
        invariant smooth && status.Done? ==> state.journals == TakenFrom(state.plan, i, k, before)
        decreases |names| - k, status.Done?
      {
        ghost var s := state;
        status := InstallFile(i, k);
        if smooth { NextIsTaken(before, s, i, k, status, state); }
        k := k + 1;
      }
      FewerWrittenOnce(state.plan, i, k);
      OneSetIsTaken(state.plan, i, k, before);
      if status.Done? { status := FinishInstalling(Installing(i + 1, 0)); }
    }

    /** Backs up every destination of set `i`, after checking that its staged files exist. */
    method BackUpSet(i: nat) returns (status: Status)
      requires Valid() && state.process == BackingUp(i, 0, false) && i < |state.plan.firsts|
      modifies this
      ensures Valid() && SameInputs(old(state), state)
      ensures match status
              case Done => state.process == BackingUp(i + 1, 0, false)
              case Error => state.process == Cleaning(|state.plan.firsts|, Failed)
              case Dead => state.process.Ended?
      ensures i < |state.journals|
      ensures old(faults) == [] ==> faults == [] && !status.Dead? && (status.Done? <==> IsReadyAt(state, i))
    {
      hide Inv, IsRun, Next, StagedComplete, ReadyTo, Admitted, SetIsReady;
      BackingUpMeans(state);
      status := Done;
      var k, names := 0, state.plan.destinations[i];
      ghost var smooth, plan, files, staged := faults == [], state.plan, state.files, state.journals[i].value.staged;
      ReadyStep(plan, files, i, 0, staged);
      while status.Done? && k < |names|
        invariant 0 <= k <= |names| && Valid() && SameInputs(old(state), state)
        invariant status.Done? ==> state.process == BackingUp(i, k, false)
        invariant status.Error? ==> state.process == Cleaning(|state.plan.firsts|, Failed)
        invariant status.Dead? ==> state.process.Ended?
        invariant smooth ==> faults == [] && !status.Dead? && (status.Done? <==> ReadyTo(plan, files, i, k, staged))
        decreases |names| - k, status.Done?
      {
        ReadyStep(plan, files, i, k, staged);
        status := BackUpFile(i, k);
        k := k + 1;
      }
      ReadyStep(plan, files, i, k, staged);
      if status.Done? { status := FinishSet(i, k); }
    }

    method FinishSet(i: nat, k: nat) returns (status: Status)
      requires Valid() && state.process == BackingUp(i, k, false)
      requires i < |state.plan.firsts| && k == |state.plan.destinations[i]|
      modifies this
      ensures Valid() && SameInputs(old(state), state)
      ensures match status
              case Done => state.process == BackingUp(i + 1, 0, false)
              case Error => state.process == Cleaning(|state.plan.firsts|, Failed)
              case Dead => state.process.Ended?
      ensures old(faults) == [] ==> faults == [] && status.Done?
    {
      hide Inv, IsRun;
      BackingUpMeans(state);
      status := Perform(Advance, state.(process := BackingUp(i + 1, 0, false)));
    }

    /** Copies one existing destination into the journal, or notes that it does not exist. */
    method BackUpFile(i: nat, k: nat) returns (status: Status)
      requires Valid() && state.process == BackingUp(i, k, false)
      requires i < |state.plan.firsts| && k < |state.plan.destinations[i]|
      modifies this
      ensures Valid() && SameInputs(old(state), state)
      ensures match status
              case Done =>
                && state.process == BackingUp(i, k + 1, false)
                && i < |old(state.journals)| && old(state.journals)[i].Some?
                && state.journals
                   == old(state.journals)[i := Some(WithBackup(old(state), i, k, old(state.journals)[i].value))]
              case Error => state.process == Cleaning(|state.plan.firsts|, Failed)
              case Dead => state.process.Ended?
      ensures i < |state.journals| && state.journals[i].Some?
      ensures old(faults) == [] ==>
                && faults == [] && !status.Dead?
                && (status.Done? <==>
                      && (k == 0 ==> StagedComplete(state.plan, i, state.journals[i].value.staged))
                      && Admitted(state.plan, state.files, i, k))
    {
      hide Inv, IsRun, Next, StagedComplete;
      BackUpStepIsLegal(state, i, k);
      var j, name := state.journals[i].value, state.plan.destinations[i][k];
      var path := state.plan.Target(i, name);
      var complete := StagedComplete(state.plan, i, j.staged);
      var refused := (k == 0 && !complete)
                     || !state.plan.accepts(state.plan.firsts[i], name)
                     || (path in state.files && !state.plan.allowReplace);
      if refused {
        status := Perform(Advance, OnFailure(state));
        status := if status.Done? then Error else status;
      } else {
        status := Perform(Advance,
          SetJournal(state, i, WithBackup(state, i, k, j)).(process := BackingUp(i, k + 1, false)));
      }
    }

    /** Creates the journals, primary first; an existing journal refuses the publication and
        leaves it alone. */
    method Begin(plan: Plan) returns (status: Status)
      requires Valid() && state.process.Ended?
      requires plan.Valid() && plan.firsts == state.plan.firsts && plan.accepts == state.plan.accepts
      modifies this
      ensures Valid() && state.files == old(state.files)
      ensures status.Done? ==> state.process.Staging? && state.plan == plan && state.original == old(state.files)
      ensures status.Done? ==> forall i | 0 <= i < |state.journals| :: state.journals[i] == Some(NewJournal(plan))
      ensures !status.Done? ==> state.process.Ended?
      ensures |old(state.journals)| > 0
      ensures old(faults) == [] ==>
                faults == [] && if old(state.journals)[0].None? then status.Done? else status.Error?
      ensures old(state.journals)[0].Some? ==> status.Error? && state == old(state).(process := Ended(Failed))
      ensures forall m | 0 <= m < |run| :: PrimaryFirst(run[m].journals)
    {
      hide BackedUp, RestoredBut, PreparedTo, IsRun, Installed, InstalledTo, StagedFromSources;
      if state.journals[0].Some? {
        var refused := state.(process := Ended(Failed));
        Record(StartPublish(plan), refused);
        state := refused;
        RunIsPrimaryFirst(run, actions);
        return Error;
      }
      var next := State(plan, state.files, state.journals, MakingJournals(0), state.files, [], false);
      Record(StartPublish(plan), next);
      state := next;
      status := MakeJournals();
      if status.Done? { status := Initialise(); }
      if state.process.Cleaning? { var _ := CleanUp(); }
      RunIsPrimaryFirst(run, actions);
    }

    method MakeJournals() returns (status: Status)
      requires Valid() && state.process == MakingJournals(0)
      modifies this
      ensures Valid() && state == old(state).(journals := state.journals, process := state.process)
      ensures status.Done? ==> state.process == Initialising(0) && BegunTo(state.plan, state.journals, 0)
      ensures !status.Done? ==> state.process.Ended? || state.process.Cleaning?
      ensures old(faults) == [] ==> faults == [] && status.Done?
    {
      hide BackedUp, RestoredBut, PreparedTo, IsRun, Installed, InstalledTo, StagedFromSources, Next;
      status := Done;
      while status.Done? && state.process.MakingJournals?
        invariant Valid() && state == old(state).(journals := state.journals, process := state.process)
        invariant status.Done? ==>
                    || state.process.MakingJournals?
                    || (state.process == Initialising(0) && BegunTo(state.plan, state.journals, 0))
        invariant !status.Done? ==> state.process.Ended? || state.process.Cleaning?
        invariant old(faults) == [] ==> faults == [] && status.Done?
        decreases if status.Done? && state.process.MakingJournals?
                  then |state.plan.firsts| - state.process.which + 1 else 0
      {
        status := MakeJournal();
      }
    }

    method Initialise() returns (status: Status)
      requires Valid() && state.process == Initialising(0) && BegunTo(state.plan, state.journals, 0)
      modifies this
      ensures Valid() && state == old(state).(journals := state.journals, process := state.process)
      ensures status.Done? ==>
                state.process.Staging? && BegunTo(state.plan, state.journals, |state.plan.firsts|)
      ensures !status.Done? ==> state.process.Ended? || state.process.Cleaning?
      ensures old(faults) == [] ==> faults == [] && status.Done?
    {
      hide BackedUp, RestoredBut, PreparedTo, IsRun, Installed, InstalledTo, StagedFromSources, Next;
      status := Done;
      while status.Done? && state.process.Initialising?
        invariant Valid() && state == old(state).(journals := state.journals, process := state.process)
        invariant status.Done? ==>
                    || (state.process.Initialising? && BegunTo(state.plan, state.journals, state.process.which))
                    || (state.process.Staging? && BegunTo(state.plan, state.journals, |state.plan.firsts|))
        invariant !status.Done? ==> state.process.Ended? || state.process.Cleaning?
        invariant old(faults) == [] ==> faults == [] && status.Done?
        decreases if status.Done? && state.process.Initialising?
                  then |state.plan.firsts| - state.process.which + 1 else 0,
                  if status.Done? && state.process.Initialising?
                  then JOURNAL_DIRECTORIES - state.journals[state.process.which].value.directories else 0
      {
        status := InitialiseOnce();
      }
    }

    /** Writes one complete staged file into the journal of set `i`. */
    method Stage(i: nat, name: Name, bytes: Bytes)
      requires Valid() && state.process.Staging? && i < |state.plan.firsts|
      requires state.plan.accepts(state.plan.firsts[i], name)
      modifies this
      ensures Valid() && i < |old(state.journals)| && old(state.journals)[i].Some?
      ensures var j := old(state.journals)[i].value;
              state == old(state).(journals := old(state.journals)[i := Some(j.(staged := j.staged[name := bytes]))])
    {
      var j := state.journals[i].value;
      var next := SetJournal(state, i, j.(staged := j.staged[name := bytes]));
      Record(Action.Stage(i, name, bytes), next);
      state := next;
    }

    /** Dropping a publication that was never prepared removes its journals and nothing else;
        dropping one that ended, prepared, leaves them to recovery. */
    method Drop() returns (status: Status)
      requires Valid() && (state.process.Staging? || state.process.Ended?)
      modifies this
      ensures Valid() && state.process.Ended? && state.files == old(state.files)
      ensures old(state.process.Staging?) && status.Done? ==> NoJournals(state.journals)
      ensures old(faults) == [] ==> faults == [] && status.Done?
      ensures old(state.process.Ended?) ==> state == old(state)
    {
      if state.process.Ended? { return Done; }
      var dropped := OnFailure(state);
      Record(Fail, dropped);
      state := dropped;
      status := CleanUp();
    }

    method MakeJournal() returns (status: Status)
      requires Valid() && state.process.MakingJournals?
      modifies this
      ensures Valid() && state == old(state).(journals := state.journals, process := state.process)
      ensures status.Done? ==>
                if old(state.process.which) + 1 < |state.plan.firsts|
                then state.process == MakingJournals(old(state.process.which) + 1)
                else state.process == Initialising(0) && BegunTo(state.plan, state.journals, 0)
      ensures !status.Done? ==> state.process.Ended? || state.process.Cleaning?
      ensures old(faults) == [] ==> faults == [] && status.Done?
    {
      var i, n := state.process.which, |state.plan.firsts|;
      status := Perform(Advance,
        SetJournal(state, i, EMPTY_JOURNAL).(process := if i + 1 < n then MakingJournals(i + 1) else Initialising(0)));
    }

    /** Creates one journal directory, or writes the identity when all exist. */
    method InitialiseOnce() returns (status: Status)
      requires Valid() && state.process.Initialising?
      requires BegunTo(state.plan, state.journals, state.process.which)
      modifies this
      ensures Valid() && state == old(state).(journals := state.journals, process := state.process)
      ensures status.Done? ==>
                var i := old(state.process.which);
                var before := old(state.journals[i].value.directories);
                if before < JOURNAL_DIRECTORIES then
                  && state.process == Initialising(i)
                  && state.journals[i].value.directories == before + 1
                  && BegunTo(state.plan, state.journals, i)
                else
                  && state.process == (if i + 1 < |state.plan.firsts| then Initialising(i + 1) else Staging)
                  && BegunTo(state.plan, state.journals, i + 1)
      ensures !status.Done? ==> state.process.Ended? || state.process.Cleaning?
      ensures old(faults) == [] ==> faults == [] && status.Done?
    {
      var i, n := state.process.which, |state.plan.firsts|;
      var j := state.journals[i].value;
      var next := if j.directories < JOURNAL_DIRECTORIES then SetJournal(state, i, j.(directories := j.directories + 1))
                  else SetJournal(state, i, j.(identity := Whole(state.plan.firsts)))
                       .(process := if i + 1 < n then Initialising(i + 1) else Staging);
      status := Perform(Advance, next);
    }

    /** Backs up both sets, then writes `ready`: the point after which recovery rolls back. */
    method Prepare() returns (status: Status)
      requires Valid() && state.process.Staging?
      modifies this
      ensures Valid() && SameInputs(old(state), state)
      ensures match status
              case Done => state.process == Installing(0, 0)
              case Error => state.process == Cleaning(|state.plan.firsts|, Failed)
              case Dead => state.process.Ended?
      ensures status.Done? ==> state.sources == CurrentStaged(old(state))
      ensures |old(state.journals)| == |old(state.plan).firsts|
      ensures old(faults) == [] ==> faults == [] && !status.Dead? && (status.Done? <==> AllReady(old(state)))
    {
      hide Inv, IsRun, IsReadyAt, AdvanceStep, CurrentStaged, SameStaged;
      BackingUpMeans(state);
      var started := state.(process := BackingUp(0, 0, false));
      SameReady(state, started);
      Record(FinishStaging, started);
      state := started;
      status := BackUpSets();
      if status.Done? {
        SameStagedIsCurrent(old(state), state);
        ghost var before := state;
        status := MarkReady();
        SameInputsTwice(old(state), before, state);
      }
    }

    /** Backs up the sets in order. */
    method BackUpSets() returns (status: Status)
      requires Valid() && state.process == BackingUp(0, 0, false)
      modifies this
      ensures Valid() && SameInputs(old(state), state)
      ensures match status
              case Done => state.process == BackingUp(|state.plan.firsts|, 0, false)
              case Error => state.process == Cleaning(|state.plan.firsts|, Failed)
              case Dead => state.process.Ended?
      ensures |old(state.journals)| == |old(state.plan).firsts|
      ensures old(faults) == [] ==>
                && faults == [] && !status.Dead?
                && (status.Done? <==> AllReady(old(state)))
    {
      hide Inv, IsRun, Next, SetIsReady;
      BackingUpMeans(state);
      status := Done;
      var i := 0;
      while status.Done? && i < |state.plan.firsts|
        invariant 0 <= i <= |state.plan.firsts| && Valid() && SameInputs(old(state), state)
        invariant status.Done? ==> state.process == BackingUp(i, 0, false)
        invariant status.Error? ==> state.process == Cleaning(|state.plan.firsts|, Failed)
        invariant status.Dead? ==> state.process.Ended?
        invariant old(faults) == [] ==> faults == [] && !status.Dead?
        invariant old(faults) == [] && status.Done? ==> forall m | 0 <= m < i :: IsReadyAt(old(state), m)
        invariant old(faults) == [] && status.Error? ==> i < |state.plan.firsts| && !IsReadyAt(old(state), i)
        decreases |state.plan.firsts| - i, status.Done?
      {
        status := BackUpSet(i);
        if status.Done? { i := i + 1; }
      }
    }

    method MarkReady() returns (status: Status)
      requires Valid() && state.process == BackingUp(|state.plan.firsts|, 0, false)
      modifies this
      ensures Valid() && SameInputs(old(state), state)
      ensures match status
              case Done => state.process == Installing(0, 0)
              case Error => state.process == Cleaning(|state.plan.firsts|, Failed)
              case Dead => state.process.Ended?
      ensures status.Done? ==> state.sources == CurrentStaged(old(state))
      ensures old(faults) == [] ==> faults == [] && status.Done?
    {
      hide Inv, IsRun;
      BackingUpMeans(state);
      status := Perform(Advance,
        SetJournal(state, 0, state.journals[0].value.(ready := true)).(process := SyncingReady,
                sources := CurrentStaged(state)));
      if status.Done? { status := Perform(Advance, state.(process := Installing(0, 0))); }
    }

    /** Prepares, installs, commits and cleans up; a failed installation is rolled back, and
        whatever happens the output is all-old or all-new when no journal is left. */
    method Publish() returns (status: Status)
      requires Valid() && state.process.Staging?
      modifies this
      ensures Valid() && state.process.Ended?
      ensures status.Done? ==>
                && state.process.outcome.Published? && NoJournals(state.journals)
                && state.plan == old(state.plan) && state.original == old(state.files)
                && state.sources == CurrentStaged(old(state)) && SourcesComplete(state.plan, state.sources)
                && state.files == Installed(state.plan, state.original, state.sources)
      ensures NoJournals(state.journals) && !state.committed ==> state.files == state.original
      ensures old(faults) == [] ==> faults == [] && !status.Dead? && (status.Done? <==> old(CanPublish(state)))
      ensures old(faults) == [] && status.Error? ==> NoJournals(state.journals) && state.files == old(state.files)
    {
      hide IsRun, Next, IsReadyAt, WrittenOnce, Recorded, OnlyDestinationsDiffer;
      NothingPublishedYet(state);
      status := Prepare();
      if status.Error? {
        var _ := CleanUp();
      } else if status.Done? {
        if old(faults) == [] { ReadyIsStaged(old(state), state); }
        status := Install();
        if status.Error? {
          var _ := RollBack();
        } else if status.Done? {
          status := Commit();
        }
      }
    }

    method Commit() returns (status: Status)
      requires Valid() && state.process.Committing?
      modifies this
      ensures Valid() && state.process.Ended?
      ensures status.Done? ==> state.process.outcome.Published?
      ensures state.plan == old(state.plan) && state.files == old(state.files)
      ensures state.original == old(state.original) && state.sources == old(state.sources)
      ensures old(faults) == [] ==> faults == [] && status.Done?
    {
      status := Perform(Advance,
        SetJournal(state, 0, state.journals[0].value.(committed := true))
          .(process := Cleaning(|state.plan.firsts|, Published), committed := true));
      if status.Done? { status := CleanUp(); }
    }

    /** Finishes or undoes what an earlier process left, and reports whether there was any. */
    method Recover() returns (status: Status)
      requires Valid() && state.process.Ended?
      modifies this
      ensures Valid() && state.process.Ended?
      ensures status.Done? ==>
                && state.process.outcome == Recovered(old(Judge(state.plan, state.journals)) != Nothing)
                && NoJournals(state.journals)
      ensures old(Judge(state.plan, state.journals)) == Verdict.RollBack && status.Done? ==>
              state.files == old(state.original)
      ensures old(Judge(state.plan, state.journals)) != Verdict.RollBack ==> state.files == old(state.files)
      ensures old(faults) == [] ==> (status.Done? <==> old(Judge(state.plan, state.journals)) != Refuse)
    {
      var verdict := Judge(state.plan, state.journals);
      var next := match verdict
                  case Nothing => state.(process := Ended(Recovered(false)))
                  case Refuse => state.(process := Ended(Failed))
                  case CleanOnly => state.(process := Cleaning(|state.journals|, Recovered(true)))
                  case RollBack => state.(process := RestoringOld(0, state.journals[0].value.backups.Keys, None,
                                                                  Recovered(true)));
      Record(StartRecover, next);
      state := next;
      match verdict {
        case Nothing => status := Done;
        case Refuse => status := Error;
        case CleanOnly => status := CleanUp();
        case RollBack => status := RollBack();
      }
    }
  }
}
