/** The promises of publication and recovery, stated over runs and over what is on disk. */
module PublicationTheorems {
  import opened Basics
  import opened Publication
  import opened PublicationSafety

  lemma {:induction false} RunKeepsInvariant(run: seq<State>, actions: seq<Action>, k: nat)
    requires IsRun(run, actions) && k < |run|
    ensures Inv(run[k])
  {
    if k > 0 {
      RunKeepsInvariant(run, actions, k - 1);
      StepPreserves(run[k - 1], actions[k - 1], run[k]);
    }
  }

  // ---------------------------------------------------------------- atomicity

  /** Action `b` begins a publication and no later action begins another. */
  ghost predicate LastPublication(run: seq<State>, actions: seq<Action>, b: nat) {
    && |run| == |actions| + 1 && b < |actions|
    && actions[b].StartPublish? && run[b + 1].process.MakingJournals?
    && forall k | b < k < |actions| :: actions[k].StartPublish? ==> !run[k + 1].process.MakingJournals?
  }

  predicate CommitMarker(s: State) {
    |s.journals| > 0 && s.journals[0].Some? && s.journals[0].value.committed
  }

  /** `sources` is what `new` held when `prepare` wrote `ready`. */
  ghost predicate StagedAt(run: seq<State>, b: nat, k: nat, sources: seq<map<Name, Bytes>>)
    requires k < |run|
  {
    exists r | b < r < k :: run[r].process.BackingUp? && run[r + 1].process.SyncingReady?
        && sources == CurrentStaged(run[r])
  }

  /** The primary journal's commit marker tells the truth. */
  predicate Honest(s: State) {
    |s.journals| > 0 && (s.journals[0].Some? ==> s.journals[0].value.committed == s.committed)
  }

  predicate Held(s: State) {
    s.committed || (|s.journals| > 0 && s.journals[0].Some? && s.journals[0].value.ready)
  }

  ghost predicate SourcesTaken(s: State, t: State) {
    s.process.BackingUp? && t.process.SyncingReady? && t.sources == CurrentStaged(s)
  }

  /** Between two begins the plan and the original never change, `committed` is the marker
      ever having been written, and the sources are fixed by the step that writes `ready`. */
  ghost predicate HistoryStep(s: State, t: State) {
    && t.plan == s.plan && t.original == s.original
    && t.committed == (s.committed || CommitMarker(t))
    && (Held(t) ==> (Held(s) && t.sources == s.sources) || SourcesTaken(s, t))
  }

  lemma StepHistory(s: State, a: Action, t: State)
    requires Next(s, a, t) && Honest(s) && Honest(t) && !(a.StartPublish? && t.process.MakingJournals?)
    requires s.process.BackingUp? ==> !Held(s)
    requires s.process.Committing? ==> Held(s)
    ensures HistoryStep(s, t)
  {
    if a.Advance? { AdvanceHistory(s, t); }
  }

  lemma AdvanceHistory(s: State, t: State)
    requires s.plan.Valid() && |s.journals| == |s.plan.firsts| && AdvanceStep(s, t) && Honest(s) && Honest(t)
    requires s.process.BackingUp? ==> !Held(s)
    requires s.process.Committing? ==> Held(s)
    ensures HistoryStep(s, t)
  {
    if s.process.BackingUp? { BackUpHistory(s, t); }
    else if s.process.Installing? { InstallHistory(s, t); }
    else if s.process.MakingJournals? || s.process.Initialising? { BeginHistory(s, t); }
    else if s.process.RestoringOld? || s.process.RemovingNew? { RollBackHistory(s, t); }
  }

  lemma BackUpHistory(s: State, t: State)
    requires s.plan.Valid() && |s.journals| == |s.plan.firsts| && s.process.BackingUp?
    requires BackUpStep(s, t) && Honest(s) && Honest(t) && !Held(s)
    ensures HistoryStep(s, t)
  {}

  lemma InstallHistory(s: State, t: State)
    requires s.plan.Valid() && |s.journals| == |s.plan.firsts| && s.process.Installing?
    requires InstallStep(s, t) && Honest(s) && Honest(t)
    ensures HistoryStep(s, t)
  {}

  lemma BeginHistory(s: State, t: State)
    requires s.plan.Valid() && |s.journals| == |s.plan.firsts| && (s.process.MakingJournals? || s.process.Initialising?)
    requires BeginStep(s, t) && Honest(s) && Honest(t)
    ensures HistoryStep(s, t)
  {}

  lemma RollBackHistory(s: State, t: State)
    requires s.plan.Valid() && |s.journals| == |s.plan.firsts| && (s.process.RestoringOld? || s.process.RemovingNew?)
    requires RollBackStep(s, t) && Honest(s) && Honest(t)
    ensures HistoryStep(s, t)
  {}

  /** What the invariant says about the history fields. */
  lemma InvariantIsHonest(s: State)
    requires Inv(s)
    ensures Honest(s) && (s.process.BackingUp? ==> !Held(s)) && (s.process.Committing? ==> Held(s))
  {}

  lemma {:induction false} HistoryAccumulates(run: seq<State>, b: nat, k: nat)
    requires b < k < |run| && forall m | b < m < k :: HistoryStep(run[m], run[m + 1])
    requires !run[b + 1].committed && !CommitMarker(run[b + 1]) && !Held(run[b + 1])
    ensures run[k].plan == run[b + 1].plan && run[k].original == run[b + 1].original
    ensures run[k].committed <==> exists m | b < m <= k :: CommitMarker(run[m])
    ensures Held(run[k]) ==> StagedAt(run, b, k, run[k].sources)
    decreases k
  {
    if k > b + 1 {
      HistoryAccumulates(run, b, k - 1);
      assert HistoryStep(run[k - 1], run[k - 1 + 1]);
    }
  }

  lemma HistoryIsFaithful(run: seq<State>, actions: seq<Action>, b: nat, k: nat)
    requires IsRun(run, actions) && LastPublication(run, actions, b) && b < k < |run|
    ensures run[k].plan == run[b + 1].plan && run[k].original == run[b].files
    ensures run[k].committed <==> exists m | b < m <= k :: CommitMarker(run[m])
    ensures Held(run[k]) ==> StagedAt(run, b, k, run[k].sources)
  {
    BeginResetsHistory(run, actions, b);
    forall m | b < m < k ensures HistoryStep(run[m], run[m + 1]) {
      StepIsHistoryStep(run, actions, m);
    }
    HistoryAccumulates(run, b, k);
  }

  lemma BeginResetsHistory(run: seq<State>, actions: seq<Action>, b: nat)
    requires IsRun(run, actions) && LastPublication(run, actions, b)
    ensures run[b + 1].original == run[b].files && !run[b + 1].committed
    ensures !CommitMarker(run[b + 1]) && !Held(run[b + 1])
  {
    assert Next(run[b], actions[b], run[b + 1]);
    RunKeepsInvariant(run, actions, b + 1);
  }

  lemma StepIsHistoryStep(run: seq<State>, actions: seq<Action>, k: nat)
    requires IsRun(run, actions) && k < |actions| && !(actions[k].StartPublish? && run[k + 1].process.MakingJournals?)
    ensures HistoryStep(run[k], run[k + 1])
  {
    RunKeepsInvariant(run, actions, k);
    RunKeepsInvariant(run, actions, k + 1);
    InvariantIsHonest(run[k]);
    InvariantIsHonest(run[k + 1]);
    StepHistory(run[k], actions[k], run[k + 1]);
  }

  /** All or nothing: once a publication or a recovery reports completion, no journal is left,
      and the whole output equals the output at the last begin unless `committed` was written
      since, in which case it is that output with the staged files installed. */
  lemma PublicationIsAtomic(run: seq<State>, actions: seq<Action>, b: nat)
    requires IsRun(run, actions) && LastPublication(run, actions, b)
    requires run[|run| - 1].process.Ended?
    requires run[|run| - 1].process.outcome.Recovered? || run[|run| - 1].process.outcome.Published?
    ensures var s, plan := run[|run| - 1], run[b + 1].plan;
            && NoJournals(s.journals)
            && (s.process.outcome.Published? ==> exists m | b < m < |run| :: CommitMarker(run[m]))
            && if exists m | b < m < |run| :: CommitMarker(run[m]) then
                 && SourcesComplete(plan, s.sources) && StagedAt(run, b, |run| - 1, s.sources)
                 && s.files == Installed(plan, run[b].files, s.sources)
               else s.files == run[b].files
  {
    RunKeepsInvariant(run, actions, |run| - 1);
    HistoryIsFaithful(run, actions, b, |run| - 1);
  }

  // ---------------------------------------------------------------- what all-new means

  predicate Shows(plan: Plan, files: Files, sources: seq<map<Name, Bytes>>, i: nat, k: nat)
    requires plan.Valid() && SourcesComplete(plan, sources) && i < |plan.firsts| && k < |plan.destinations[i]|
  {
    var name := plan.destinations[i][k];
    var path := plan.Target(i, name);
    if k < plan.written then path in files && files[path] == sources[i][name] else path !in files
  }

  /** Every destination is new (or removed) and nothing else changed. */
  ghost predicate AllNew(plan: Plan, files: Files, original: Files, sources: seq<map<Name, Bytes>>)
    requires plan.Valid() && SourcesComplete(plan, sources)
  {
    && (forall i: nat, k: nat | i < |plan.firsts| && k < |plan.destinations[i]| :: Shows(plan, files, sources, i, k))
    && OnlyDestinationsDiffer(plan, files, original)
  }

  /** Destinations that coincide want the same thing: a check on the two lists alone. */
  ghost predicate NoClobber(plan: Plan, sources: seq<map<Name, Bytes>>)
    requires plan.Valid() && SourcesComplete(plan, sources)
  {
    forall i: nat, k: nat, i': nat, k': nat |
      && i < |plan.firsts| && k < |plan.destinations[i]| && i' < |plan.firsts| && k' < |plan.destinations[i']|
      && plan.Target(i, plan.destinations[i][k]) == plan.Target(i', plan.destinations[i'][k']) ::
      Compatible(plan, sources, i, k, i', k')
  }

  predicate Compatible(plan: Plan, sources: seq<map<Name, Bytes>>, i: nat, k: nat, i': nat, k': nat)
    requires plan.Valid() && SourcesComplete(plan, sources)
    requires i < |plan.firsts| && k < |plan.destinations[i]| && i' < |plan.firsts| && k' < |plan.destinations[i']|
  {
    && (k < plan.written <==> k' < plan.written)
    && (k < plan.written ==> sources[i][plan.destinations[i][k]] == sources[i'][plan.destinations[i'][k']])
  }

  /** What an installation shows stays shown by every later compatible one. */
  lemma ShownStaysShown(plan: Plan, files: Files, sources: seq<map<Name, Bytes>>, i: nat, k: nat, i': nat, k': nat)
    requires plan.Valid() && SourcesComplete(plan, sources) && NoClobber(plan, sources)
    requires i < |plan.firsts| && k < |plan.destinations[i]| && i' < |plan.firsts| && k' <= |plan.destinations[i']|
    requires Shows(plan, files, sources, i, k) || (i == i' && k < k')
    ensures Shows(plan, InstallSet(files, plan, i', k', sources[i']), sources, i, k)
    decreases k'
  {
    if k' > 0 {
      if Shows(plan, files, sources, i, k) || (i == i' && k < k' - 1) {
        ShownStaysShown(plan, files, sources, i, k, i', k' - 1);
      }
      assert plan.Target(i, plan.destinations[i][k]) == plan.Target(i', plan.destinations[i'][k' - 1])
             ==> Compatible(plan, sources, i, k, i', k' - 1);
    }
  }

  lemma InstalledSetsShow(plan: Plan, files: Files, sources: seq<map<Name, Bytes>>, sets: nat, i: nat, k: nat)
    requires plan.Valid() && SourcesComplete(plan, sources) && NoClobber(plan, sources)
    requires i < sets <= |plan.firsts| && k < |plan.destinations[i]|
    ensures Shows(plan, InstallSets(files, plan, sets, sources), sources, i, k)
    decreases sets
  {
    var base := InstallSets(files, plan, sets - 1, sources);
    if i < sets - 1 {
      InstalledSetsShow(plan, files, sources, sets - 1, i, k);
    }
    ShownStaysShown(plan, base, sources, i, k, sets - 1, |plan.destinations[sets - 1]|);
  }

  /** A commit makes every destination new exactly when coinciding destinations are compatible. */
  lemma InstalledIsAllNewExactlyWithoutClobber(plan: Plan, original: Files, sources: seq<map<Name, Bytes>>)
    requires plan.Valid() && SourcesComplete(plan, sources)
    ensures AllNew(plan, Installed(plan, original, sources), original, sources) <==> NoClobber(plan, sources)
  {
    var files := Installed(plan, original, sources);
    if NoClobber(plan, sources) {
      forall i: nat, k: nat | i < |plan.firsts|
          && k < |plan.destinations[i]| ensures Shows(plan, files, sources, i, k) {
        InstalledSetsShow(plan, original, sources, |plan.firsts|, i, k);
      }
      forall p ensures Agrees(files, original, p) || IsDestination(plan, p) {
        InstallSetsTouch(original, plan, |plan.firsts|, sources, p);
      }
    }
    if AllNew(plan, files, original, sources) {
      forall i: nat, k: nat, i': nat, k': nat |
        && i < |plan.firsts| && k < |plan.destinations[i]| && i' < |plan.firsts| && k' < |plan.destinations[i']|
        && plan.Target(i, plan.destinations[i][k]) == plan.Target(i', plan.destinations[i'][k'])
        ensures Compatible(plan, sources, i, k, i', k')
      {
        assert Shows(plan, files, sources, i, k) && Shows(plan, files, sources, i', k');
      }
    }
  }

  predicate IsDigit(c: char) { '0' <= c <= '9' }
  predicate IsUpper(c: char) { 'A' <= c <= 'Z' }
  predicate IsLetter(c: char) { IsUpper(c) || 'a' <= c <= 'z' }
  function Upper(c: char): char { if 'a' <= c <= 'z' then 'A' + (c - 'a') else c }

  /** `Set::target` for three-character extensions: the stem of the first name, and a prefix
      letter followed by two digits or two letters, or a later letter followed by two letters. */
  predicate AcceptsSegment(first: Path, name: Name) {
    var n := |first.name|;
    && n >= 4 && first.name[n - 4] == '.'
    && |name| == n && name[..n - 3] == first.name[..n - 3]
    && var digits, letters := IsDigit(name[n - 2]) && IsDigit(name[n - 1]), IsLetter(name[n - 2])
        && IsLetter(name[n - 1]);
       var prefix, candidate := Upper(first.name[n - 3]), Upper(name[n - 3]);
       if candidate == prefix then digits || letters
       else IsUpper(prefix) && prefix < candidate <= 'Z' && letters
  }

  /** `publication_segment_paths`: after the written names, set `i` lists the other segments of
      its stem that are on disk. */
  ghost predicate ListsStale(plan: Plan, files: Files, i: nat)
    requires plan.Valid() && i < |plan.firsts|
  {
    && plan.written <= |plan.destinations[i]|
    && var written, stale := plan.destinations[i][..plan.written], plan.destinations[i][plan.written..];
       forall name ::
         name in stale <==> name !in written && plan.Target(i, name) in files && plan.accepts(plan.firsts[i], name)
  }

  /** `a.E01` is on disk. Publishing to it and to `a.E02` passes `begin`'s overlap check, yet the
      secondary's stale list removes the primary segment that was just installed. */
  lemma OverlappingSetsClobber(before: Bytes, staged: Bytes)
    ensures var plan := Plan([Path("d", "a.E01"), Path("d", "a.E02")], [["a.E01"], ["a.E02", "a.E01"]], 1, true,
                             AcceptsSegment);
            var original, sources := map[Path("d", "a.E01") := before],
                [map["a.E01" := staged], map["a.E02" := staged]];
            && plan.Valid() && SourcesComplete(plan, sources)
            && ListsStale(plan, original, 0) && ListsStale(plan, original, 1)
            && Path("d", "a.E01") !in Installed(plan, original, sources)
            && !AllNew(plan, Installed(plan, original, sources), original, sources)
  {
    var plan := Plan([Path("d", "a.E01"), Path("d", "a.E02")], [["a.E01"], ["a.E02", "a.E01"]], 1, true,
                     AcceptsSegment);
    var original, sources := map[Path("d", "a.E01") := before], [map["a.E01" := staged], map["a.E02" := staged]];
    NamesDiffer();
    assert SourcesComplete(plan, sources);
    assert "a.E01"[..2] == "a.E02"[..2];
    assert AcceptsSegment(plan.firsts[1], "a.E01");
    InstalledIsAllNewExactlyWithoutClobber(plan, original, sources);
    var base := InstallSets(original, plan, 1, sources);
    assert InstallSet(base, plan, 1, 2, sources[1])
        == InstallSet(base, plan, 1, 1, sources[1]) - {plan.Target(1, "a.E01")};
    assert !Compatible(plan, sources, 0, 0, 1, 1);
  }

  lemma NamesDiffer()
    ensures "a.E01" != "a.E02"
  {
    assert "a.E01"[4] != "a.E02"[4];
  }

  // ---------------------------------------------------------------- recovery

  /** A journal whose identity file was cut short. */
  predicate TornIdentity(journals: seq<Option<Journal>>) {
    exists i | 0 <= i < |journals| :: journals[i].Some? && journals[i].value.identity.Torn?
  }

  /** The two disk states recovery refuses, each with the output still all-old. */
  lemma RecoveryIsRefusedExactlyWhen(s: State)
    requires Inv(s) && s.process.Ended?
    ensures Judge(s.plan, s.journals) == Refuse
            <==> TornIdentity(s.journals) || (Undecided(s.journals[0]) && !Present(s.journals))
    ensures Judge(s.plan, s.journals) == Refuse ==> s.files == s.original && !s.committed
  {
  }

  /** A journal left with `ready` and no decision still lets rollback restore every destination. */
  lemma SecondaryNeedsPrimaryAndReadyHasBackups(run: seq<State>, actions: seq<Action>, k: nat)
    requires IsRun(run, actions) && k < |run|
    ensures var s := run[k];
            && s.plan.Valid() && |s.journals| == |s.plan.firsts|
            && (forall i | 0 < i < |s.journals| :: s.journals[i].Some? ==> s.journals[0].Some?)
            && (Undecided(s.journals[0]) ==>
                  forall i | 0 <= i < |s.journals| && s.journals[i].Some? ::
                    BackedUp(s.plan, s.original, i, s.journals[i].value.backups, s.journals[i].value.absent))
  {
    RunKeepsInvariant(run, actions, k);
  }

  /** Recovering again after a completed recovery reports false and changes nothing on disk. */
  lemma SecondRecoveryIsIdle(run: seq<State>, actions: seq<Action>, t: State)
    requires IsRun(run, actions)
    requires run[|run| - 1].process.Ended? && run[|run| - 1].process.outcome.Recovered?
    requires Next(run[|run| - 1], StartRecover, t)
    ensures t == run[|run| - 1].(process := Ended(Recovered(false)))
  {
    RunKeepsInvariant(run, actions, |run| - 1);
  }

  /** Neither refusal can arise unless an identity write was torn, or the directory sync after
      `ready` failed while the publication did not yet count as prepared. */
  ghost predicate Trouble(run: seq<State>, actions: seq<Action>) {
    && |run| == |actions| + 1
    && exists k | 0 <= k < |actions| :: actions[k].TearIdentity? || (actions[k].Fail? && run[k].process.SyncingReady?)
  }

  ghost predicate Clean(s: State) {
    && |s.journals| > 0
    && !TornIdentity(s.journals)
    && (Undecided(s.journals[0]) ==> Present(s.journals) && !s.process.Cleaning?)
  }

  /** Before `ready` is written nothing is undecided, and when it is written all journals exist. */
  ghost predicate Orderly(s: State) {
    && s.plan.Valid() && |s.journals| == |s.plan.firsts|
    && (s.process.MakingJournals? || s.process.Initialising? || s.process.Staging? || s.process.BackingUp? ==>
          !Undecided(s.journals[0]))
    && (s.process.BackingUp? ==> Present(s.journals))
  }

  lemma InvariantIsOrderly(s: State)
    requires Inv(s)
    ensures Orderly(s)
  {}

  /** Journals other than `i` are as before, and journal `i` did not become torn. */
  lemma UpdateKeepsClean(s: State, t: State, i: nat, j: Journal)
    requires Clean(s) && i < |s.journals| && t.journals == s.journals[i := Some(j)] && !j.identity.Torn?
    requires i == 0 && Undecided(Some(j)) ==> Undecided(s.journals[0]) || Present(s.journals)
    requires !t.process.Cleaning? || !Undecided(t.journals[0])
    ensures Clean(t)
  {
    assert forall m | 0 <= m < |t.journals| && m != i :: t.journals[m] == s.journals[m];
    assert Present(s.journals) ==> Present(t.journals);
  }

  lemma StepKeepsClean(s: State, a: Action, t: State)
    requires Orderly(s) && Clean(s) && Next(s, a, t) && !a.TearIdentity? && !(a.Fail? && s.process.SyncingReady?)
    ensures Clean(t)
  {
    if a.Advance? { AdvanceKeepsClean(s, t); }
    else if t.journals != s.journals {
      var i := if a.Stage? then a.which else s.process.which;
      UpdateKeepsClean(s, t, i, t.journals[i].value);
    }
  }

  lemma AdvanceKeepsClean(s: State, t: State)
    requires Orderly(s) && Clean(s) && AdvanceStep(s, t)
    ensures Clean(t)
  {
    if s.process.MakingJournals? || s.process.Initialising? { BeginKeepsClean(s, t); }
    else if s.process.BackingUp? { BackUpKeepsClean(s, t); }
    else if s.process.Installing? { InstallKeepsClean(s, t); }
    else if s.process.RestoringOld? || s.process.RemovingNew? { RollBackKeepsClean(s, t); }
  }

  lemma BeginKeepsClean(s: State, t: State)
    requires Orderly(s) && Clean(s) && (s.process.MakingJournals? || s.process.Initialising?) && BeginStep(s, t)
    ensures Clean(t)
  {
    if t.journals != s.journals {
      UpdateKeepsClean(s, t, s.process.which, t.journals[s.process.which].value);
    }
  }

  lemma BackUpKeepsClean(s: State, t: State)
    requires Orderly(s) && Clean(s) && s.process.BackingUp? && BackUpStep(s, t)
    ensures Clean(t)
  {
    if t.journals != s.journals {
      var i := if t.process.SyncingReady? then 0 else s.process.which;
      UpdateKeepsClean(s, t, i, t.journals[i].value);
    }
  }

  lemma InstallKeepsClean(s: State, t: State)
    requires Orderly(s) && Clean(s) && s.process.Installing? && InstallStep(s, t)
    ensures Clean(t)
  {
    if t.journals != s.journals {
      UpdateKeepsClean(s, t, s.process.which, t.journals[s.process.which].value);
    }
  }

  lemma RollBackKeepsClean(s: State, t: State)
    requires Orderly(s) && Clean(s) && (s.process.RestoringOld? || s.process.RemovingNew?) && RollBackStep(s, t)
    ensures Clean(t)
  {
    if t.journals != s.journals {
      UpdateKeepsClean(s, t, s.process.which, t.journals[s.process.which].value);
    }
  }

  lemma {:induction false} RecoveryIsNeverRefused(run: seq<State>, actions: seq<Action>, k: nat)
    requires IsRun(run, actions) && !Trouble(run, actions) && k < |run|
    ensures Clean(run[k])
    ensures Inv(run[k]) && (run[k].process.Ended? ==> Judge(run[k].plan, run[k].journals) != Refuse)
  {
    RunKeepsInvariant(run, actions, k);
    if k > 0 {
      RecoveryIsNeverRefused(run, actions, k - 1);
      RunKeepsInvariant(run, actions, k - 1);
      InvariantIsOrderly(run[k - 1]);
      StepKeepsClean(run[k - 1], actions[k - 1], run[k]);
    }
    if run[k].process.Ended? { RecoveryIsRefusedExactlyWhen(run[k]); }
  }

  /** Recovery insists on the original first paths once the identity is written. */
  lemma WrongPathsAreRefused(plan: Plan, other: Plan, journals: seq<Option<Journal>>)
    requires 1 <= |other.firsts| == |journals| && other.firsts != plan.firsts
    requires journals[0].Some? && Initialised(journals[0].value, plan)
    ensures Judge(other, journals) == Refuse
  {
    assert !JournalAccepted(journals[0], other, 0, journals[0].value.committed || journals[0].value.rolledBack,
                            journals[0].value.ready);
  }
}
