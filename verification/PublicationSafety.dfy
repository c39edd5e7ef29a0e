/** Safety of publication over every run: the output is all-old or all-new whenever a
    publication or a recovery completes, at whatever points earlier processes died. */
module PublicationSafety {
  import opened Basics
  import opened Publication

  // ---------------------------------------------------------------- what a commit installs

  /** Output after installing the first `k` destinations of set `i`. */
  function InstallSet(files: Files, plan: Plan, i: nat, k: nat, staged: map<Name, Bytes>): Files
    requires plan.Valid() && i < |plan.firsts| && k <= |plan.destinations[i]|
    requires StagedComplete(plan, i, staged)
    decreases k
  {
    if k == 0 then files
    else
      var before := InstallSet(files, plan, i, k - 1, staged);
      var name := plan.destinations[i][k - 1];
      if k - 1 < plan.written then before[plan.Target(i, name) := staged[name]]
      else before - {plan.Target(i, name)}
  }

  ghost predicate SourcesComplete(plan: Plan, sources: seq<map<Name, Bytes>>)
    requires plan.Valid()
  {
    && |sources| == |plan.firsts|
    && forall i | 0 <= i < |sources| :: StagedComplete(plan, i, sources[i])
  }

  function InstallSets(files: Files, plan: Plan, i: nat, sources: seq<map<Name, Bytes>>): Files
    requires plan.Valid() && SourcesComplete(plan, sources) && i <= |plan.firsts|
  {
    if i == 0 then files
    else InstallSet(InstallSets(files, plan, i - 1, sources), plan, i - 1, |plan.destinations[i - 1]|, sources[i - 1])
  }

  ghost function Installed(plan: Plan, original: Files, sources: seq<map<Name, Bytes>>): Files
    requires plan.Valid() && SourcesComplete(plan, sources)
  {
    InstallSets(original, plan, |plan.firsts|, sources)
  }

  /** Output when the first `i` sets and `k` destinations of the next are installed. */
  ghost function InstalledTo(plan: Plan, original: Files, sources: seq<map<Name, Bytes>>, i: nat, k: nat): Files
    requires plan.Valid() && SourcesComplete(plan, sources) && i < |plan.firsts| && k <= |plan.destinations[i]|
  {
    InstallSet(InstallSets(original, plan, i, sources), plan, i, k, sources[i])
  }

  // ---------------------------------------------------------------- the invariant

  predicate Initialised(j: Journal, plan: Plan) {
    j.directories == JOURNAL_DIRECTORIES && j.identity == Whole(plan.firsts)
  }

  predicate Unmarked(j: Journal) { !j.ready && !j.committed && !j.rolledBack }

  predicate NoBackups(j: Journal) { j.backups == map[] && j.absent == {} }

  /** Set `i` records the original state of its first `k` destinations; while a copy is in
      progress the backup of destination `k` may hold anything. */
  ghost predicate BackedUpTo(plan: Plan, original: Files, i: nat, backups: map<Name, Bytes>, absent: set<Name>, k: nat,
                             copying: bool)
    requires plan.Valid() && i < |plan.firsts| && k <= |plan.destinations[i]|
    requires copying ==> k < |plan.destinations[i]|
  {
    var names := plan.destinations[i];
    && (forall name <- backups ::
          && (name in names[..k] || (copying && name == names[k]))
          && plan.accepts(plan.firsts[i], name)
          && plan.Target(i, name) in original
          && ((copying && name == names[k]) || backups[name] == original[plan.Target(i, name)]))
    && (forall name <- absent ::
          && name in names[..k]
          && plan.accepts(plan.firsts[i], name)
          && plan.Target(i, name) !in original)
    && (forall m | 0 <= m < k :: names[m] in backups.Keys + absent)
  }

  ghost predicate BackedUp(plan: Plan, original: Files, i: nat, backups: map<Name, Bytes>, absent: set<Name>)
    requires plan.Valid() && i < |plan.firsts|
  {
    BackedUpTo(plan, original, i, backups, absent, |plan.destinations[i]|, false)
  }

  predicate Present(journals: seq<Option<Journal>>) {
    forall i | 0 <= i < |journals| :: journals[i].Some?
  }

  predicate NoJournals(journals: seq<Option<Journal>>) {
    forall i | 0 <= i < |journals| :: journals[i].None?
  }

  /** `ready` has been written and no decision has. */
  predicate Undecided(primary: Option<Journal>) {
    primary.Some? && primary.value.ready && !primary.value.committed && !primary.value.rolledBack
  }

  predicate Agrees(files: Files, original: Files, p: Path) {
    && (p in files <==> p in original)
    && (p in files ==> files[p] == original[p])
  }

  ghost predicate InSet(plan: Plan, i: nat, p: Path)
    requires plan.Valid() && i < |plan.firsts|
  {
    exists name <- plan.destinations[i] :: p == plan.Target(i, name)
  }

  ghost predicate IsDestination(plan: Plan, p: Path)
    requires plan.Valid()
  {
    exists i: nat :: i < |plan.firsts| && InSet(plan, i, p)
  }

  ghost predicate InLaterSet(plan: Plan, i: nat, p: Path)
    requires plan.Valid()
  {
    exists m: nat :: i < m < |plan.firsts| && InSet(plan, m, p)
  }

  ghost predicate Markers(plan: Plan, sources: seq<map<Name, Bytes>>, committed: bool, journals: seq<Option<Journal>>)
    requires plan.Valid() && |journals| == |plan.firsts|
  {
    && (|journals| == 2 && journals[1].Some? ==> journals[0].Some? && Unmarked(journals[1].value))
    && (forall i | 0 <= i < |journals| && journals[i].Some? ::
          journals[i].value.identity.Whole? ==> journals[i].value.identity.firsts == plan.firsts)
    && (committed ==> SourcesComplete(plan, sources))
    && (journals[0].Some? ==>
          var p := journals[0].value;
          && p.committed == committed
          && (p.committed || p.rolledBack ==> p.ready)
          && !(p.committed && p.rolledBack))
  }

  /** Once `ready` is on disk every journal still there holds a complete backup. */
  ghost predicate Recorded(plan: Plan, original: Files, sources: seq<map<Name, Bytes>>, journals: seq<Option<Journal>>)
    requires plan.Valid() && |journals| == |plan.firsts|
  {
    journals[0].Some? && journals[0].value.ready ==>
      && SourcesComplete(plan, sources)
      && forall i | 0 <= i < |journals| && journals[i].Some? ::
           && Initialised(journals[i].value, plan)
           && BackedUp(plan, original, i, journals[i].value.backups, journals[i].value.absent)
  }

  ghost predicate OnlyDestinationsDiffer(plan: Plan, files: Files, original: Files)
    requires plan.Valid()
  {
    forall p :: Agrees(files, original, p) || IsDestination(plan, p)
  }

  ghost predicate Output(s: State)
    requires s.plan.Valid() && |s.journals| == |s.plan.firsts|
    requires s.committed ==> SourcesComplete(s.plan, s.sources)
  {
    if s.committed then s.files == Installed(s.plan, s.original, s.sources)
    else if Undecided(s.journals[0]) && Present(s.journals) then OnlyDestinationsDiffer(s.plan, s.files, s.original)
    else s.files == s.original
  }

  /** Nothing has been backed up and no marker is written. */
  ghost predicate Unprepared(journals: seq<Option<Journal>>) {
    forall i | 0 <= i < |journals| ::
      && journals[i].Some? && Unmarked(journals[i].value) && NoBackups(journals[i].value)
      && journals[i].value.directories <= JOURNAL_DIRECTORIES
  }

  ghost predicate InitialisedTo(plan: Plan, journals: seq<Option<Journal>>, i: nat)
    requires Present(journals) && i <= |journals|
  {
    forall m | 0 <= m < i :: Initialised(journals[m].value, plan)
  }

  ghost predicate PreparedTo(plan: Plan, original: Files, journals: seq<Option<Journal>>, i: nat, k: nat, copying: bool)
    requires plan.Valid() && |journals| == |plan.firsts|
  {
    var n := |plan.firsts|;
    && i <= n
    && (forall m | 0 <= m < n ::
          journals[m].Some? && Unmarked(journals[m].value) && Initialised(journals[m].value, plan))
    && (forall m | 0 <= m < i ::
          && BackedUp(plan, original, m, journals[m].value.backups, journals[m].value.absent)
          && StagedComplete(plan, m, journals[m].value.staged))
    && (forall m | i < m < n :: NoBackups(journals[m].value))
    && (i == n ==> k == 0 && !copying)
    && (i < n ==>
          && k <= |plan.destinations[i]|
          && (copying ==> k < |plan.destinations[i]|)
          && BackedUpTo(plan, original, i, journals[i].value.backups, journals[i].value.absent, k, copying)
          && (k > 0 || copying ==> StagedComplete(plan, i, journals[i].value.staged)))
  }

  ghost predicate SubMap(m: map<Name, Bytes>, n: map<Name, Bytes>) {
    forall name <- m :: name in n && n[name] == m[name]
  }

  ghost predicate StagedFromSources(journals: seq<Option<Journal>>, sources: seq<map<Name, Bytes>>) {
    && |journals| == |sources|
    && forall m | 0 <= m < |journals| && journals[m].Some? :: SubMap(journals[m].value.staged, sources[m])
  }

  /** Outside the sets after `i` and the names still to do in set `i`, the output is restored. */
  ghost predicate RestoredBut(plan: Plan, files: Files, original: Files, i: nat, todo: set<Name>)
    requires plan.Valid() && i < |plan.firsts|
  {
    forall p :: Agrees(files, original, p) || InLaterSet(plan, i, p) || (p.dir == plan.firsts[i].dir && p.name in todo)
  }

  ghost predicate Control(s: State)
    requires s.plan.Valid() && |s.journals| == |s.plan.firsts|
    requires Recorded(s.plan, s.original, s.sources, s.journals)
  {
    var n := |s.plan.firsts|;
    match s.process
    case Ended(outcome) =>
      && (outcome.Published? || outcome.Recovered? ==> NoJournals(s.journals))
      && (outcome.Published? ==> s.committed)
    case MakingJournals(i) =>
      && i < n && !s.committed
      && (forall m | 0 <= m < n :: s.journals[m] == if m < i then Some(EMPTY_JOURNAL) else None)
    case Initialising(i) =>
      && i < n && !s.committed && Unprepared(s.journals) && InitialisedTo(s.plan, s.journals, i)
    case Staging =>
      && !s.committed && Unprepared(s.journals) && InitialisedTo(s.plan, s.journals, n)
    case BackingUp(i, k, copying) => !s.committed && PreparedTo(s.plan, s.original, s.journals, i, k, copying)
    case SyncingReady =>
      && Undecided(s.journals[0]) && Present(s.journals)
      && s.files == s.original && StagedFromSources(s.journals, s.sources)
    case Installing(i, k) =>
      && Undecided(s.journals[0]) && Present(s.journals) && StagedFromSources(s.journals, s.sources)
      && i <= n && (i < n ==> k <= |s.plan.destinations[i]|)
      && s.files == (if i == n then Installed(s.plan, s.original, s.sources)
                     else InstalledTo(s.plan, s.original, s.sources, i, k))
    case Committing =>
      Undecided(s.journals[0]) && Present(s.journals) && s.files == Installed(s.plan, s.original, s.sources)
    case RestoringOld(i, todo, copied, after) =>
      && Undecided(s.journals[0]) && Present(s.journals) && i < n && !after.Published?
      && var j := s.journals[i].value;
         && todo <= j.backups.Keys
         && (copied.Some? ==>
               copied.value in todo && copied.value in j.restore && j.restore[copied.value] == j.backups[copied.value])
         && RestoredBut(s.plan, s.files, s.original, i, todo + j.absent)
    case RemovingNew(i, todo, after) =>
      && Undecided(s.journals[0]) && Present(s.journals) && i < n && !after.Published?
      && todo <= s.journals[i].value.absent
      && RestoredBut(s.plan, s.files, s.original, i, todo)
    case MarkingRolledBack(after) =>
      Undecided(s.journals[0]) && Present(s.journals) && s.files == s.original && !after.Published?
    case Cleaning(k, after) =>
      && k <= n
      && (forall m | k <= m < n :: s.journals[m].None?)
      && (!s.committed ==> s.files == s.original)
      && (after.Published? ==> s.committed)
  }

  ghost predicate Inv(s: State) {
    && s.plan.Valid() && |s.journals| == |s.plan.firsts|
    && Markers(s.plan, s.sources, s.committed, s.journals)
    && Recorded(s.plan, s.original, s.sources, s.journals)
    && Output(s) && Control(s)
  }

  // ---------------------------------------------------------------- preservation

  lemma InstallSetTouches(files: Files, plan: Plan, i: nat, k: nat, staged: map<Name, Bytes>, p: Path)
    requires plan.Valid() && i < |plan.firsts| && k <= |plan.destinations[i]|
    requires StagedComplete(plan, i, staged)
    ensures Agrees(InstallSet(files, plan, i, k, staged), files, p) || InSet(plan, i, p)
  {
    if k > 0 {
      InstallSetTouches(files, plan, i, k - 1, staged, p);
      assert plan.destinations[i][k - 1] in plan.destinations[i];
    }
  }

  lemma InstallSetsTouch(files: Files, plan: Plan, i: nat, sources: seq<map<Name, Bytes>>, p: Path)
    requires plan.Valid() && SourcesComplete(plan, sources) && i <= |plan.firsts|
    ensures Agrees(InstallSets(files, plan, i, sources), files, p) || IsDestination(plan, p)
  {
    if i > 0 {
      InstallSetsTouch(files, plan, i - 1, sources, p);
      InstallSetTouches(InstallSets(files, plan, i - 1, sources), plan, i - 1, |plan.destinations[i - 1]|,
                        sources[i - 1], p);
    }
  }

  /** Wherever an installation has got to, only destinations differ from the original. */
  lemma InstallTouchesDestinations(plan: Plan, original: Files, sources: seq<map<Name, Bytes>>, i: nat, k: nat)
    requires plan.Valid() && SourcesComplete(plan, sources) && i < |plan.firsts| && k <= |plan.destinations[i]|
    ensures OnlyDestinationsDiffer(plan, InstalledTo(plan, original, sources, i, k), original)
  {
    var base := InstallSets(original, plan, i, sources);
    forall p
      ensures Agrees(InstallSet(base, plan, i, k, sources[i]), original, p) || IsDestination(plan, p)
    {
      InstallSetsTouch(original, plan, i, sources, p);
      InstallSetTouches(base, plan, i, k, sources[i], p);
    }
  }

  lemma RestoredEqualsOriginal(files: Files, original: Files)
    requires forall p :: Agrees(files, original, p)
    ensures files == original
  {
    assert forall p <- files :: Agrees(files, original, p);
    assert forall p <- original :: Agrees(files, original, p);
  }

  lemma DestinationIsRecorded(plan: Plan, original: Files, i: nat, backups: map<Name, Bytes>, absent: set<Name>,
                              p: Path)
    requires plan.Valid() && i < |plan.firsts| && BackedUp(plan, original, i, backups, absent) && InSet(plan, i, p)
    ensures p.dir == plan.firsts[i].dir && p.name in backups.Keys + absent
  {
    var k :| 0 <= k < |plan.destinations[i]| && p == plan.Target(i, plan.destinations[i][k]);
  }

  /** A rollback of set `i` has everything its journal records still to do. */
  lemma RollbackReaches(plan: Plan, files: Files, original: Files, i: nat, backups: map<Name, Bytes>, absent: set<Name>)
    requires plan.Valid() && i < |plan.firsts| && BackedUp(plan, original, i, backups, absent)
    requires forall p :: Agrees(files, original, p) || InSet(plan, i, p) || InLaterSet(plan, i, p)
    ensures RestoredBut(plan, files, original, i, backups.Keys + absent)
  {
    forall p | InSet(plan, i, p) ensures p.dir == plan.firsts[i].dir && p.name in backups.Keys + absent {
      DestinationIsRecorded(plan, original, i, backups, absent, p);
    }
  }

  lemma RollbackStarts(s: State, t: State, after: Outcome)
    requires Inv(s) && !s.committed && Undecided(s.journals[0]) && Present(s.journals) && !after.Published?
    requires t == s.(process := RestoringOld(0, s.journals[0].value.backups.Keys, None, after))
    ensures Inv(t)
  {
    forall p ensures Agrees(s.files, s.original, p) || InSet(s.plan, 0, p) || InLaterSet(s.plan, 0, p) {
      if i: nat :| i < |s.plan.firsts| && InSet(s.plan, i, p) {
        assert i == 0 || InLaterSet(s.plan, 0, p);
      }
    }
    RollbackReaches(s.plan, s.files, s.original, 0, s.journals[0].value.backups, s.journals[0].value.absent);
  }

  lemma FailPreserves(s: State, t: State)
    requires Inv(s) && (s.process.Installing? ==> s.journals[0].Some?) && t == OnFailure(s)
    ensures Inv(t)
  {
    hide BackedUp, Installed, InstalledTo, RestoredBut, OnlyDestinationsDiffer, StagedFromSources, Initialised;
    if s.process.Installing? {
      RollbackStarts(s, t, Failed);
    }
  }

  lemma StartPublishPreserves(s: State, plan: Plan, t: State)
    requires Inv(s) && StartPublishStep(s, plan, t)
    ensures Inv(t)
  {}

  lemma StartRecoverPreserves(s: State, t: State)
    requires Inv(s) && StartRecoverStep(s, t)
    ensures Inv(t)
  {
    if Judge(s.plan, s.journals) == RollBack {
      assert forall i | 0 <= i < |s.journals| :: JournalAccepted(s.journals[i], s.plan, i, false, true);
      RollbackStarts(s, t, Recovered(true));
    }
  }

  lemma MakeJournalsPreserves(s: State, t: State)
    requires Inv(s) && s.process.MakingJournals? && AdvanceStep(s, t)
    ensures Inv(t)
  {}

  lemma InitialisePreserves(s: State, a: Action, t: State)
    requires Inv(s) && s.process.Initialising? && Next(s, a, t) && (a.Advance? || a.TearIdentity?)
    ensures Inv(t)
  {
    hide Installed, InstalledTo, RestoredBut, OnlyDestinationsDiffer, StagedFromSources, PreparedTo;
    var i := s.process.which;
    assert forall m | 0 <= m < |s.journals| && m != i :: t.journals[m] == s.journals[m];
    assert Unprepared(t.journals);
  }

  lemma StagePreserves(s: State, a: Action, t: State)
    requires Inv(s) && s.process.Staging? && Next(s, a, t) && (a.Stage? || a.FinishStaging?)
    ensures Inv(t)
  {}

  /** Backing up destination `k` extends the backup, whatever a cut-short copy left there. */
  lemma BackUpExtends(plan: Plan, original: Files, i: nat, backups: map<Name, Bytes>, absent: set<Name>, k: nat,
                      copying: bool)
    requires plan.Valid() && i < |plan.firsts| && k < |plan.destinations[i]|
    requires BackedUpTo(plan, original, i, backups, absent, k, copying)
    requires plan.accepts(plan.firsts[i], plan.destinations[i][k])
    ensures var name := plan.destinations[i][k];
            var path := plan.Target(i, name);
            if path in original then BackedUpTo(plan, original, i, backups[name := original[path]], absent, k + 1,
                                                false)
            else BackedUpTo(plan, original, i, backups, absent + {name}, k + 1, false)
  {
    var names := plan.destinations[i];
    assert names[..k + 1] == names[..k] + [names[k]];
  }

  lemma PreparedOneMore(plan: Plan, original: Files, journals: seq<Option<Journal>>, i: nat, k: nat, copying: bool,
                        j: Journal)
    requires plan.Valid() && |journals| == |plan.firsts|
    requires PreparedTo(plan, original, journals, i, k, copying) && i < |plan.firsts| && k < |plan.destinations[i]|
    requires BackedUpTo(plan, original, i, j.backups, j.absent, k + 1, false)
    requires j == journals[i].value.(backups := j.backups, absent := j.absent) && StagedComplete(plan, i, j.staged)
    ensures PreparedTo(plan, original, journals[i := Some(j)], i, k + 1, false)
  {}

  lemma BackUpOnePreserves(s: State, t: State)
    requires Inv(s) && s.process.BackingUp? && s.process.which < |s.plan.firsts| && AdvanceStep(s, t)
    requires t.process.BackingUp? && s.process.index < |s.plan.destinations[s.process.which]|
    ensures Inv(t)
  {
    hide Installed, InstalledTo, RestoredBut, OnlyDestinationsDiffer, StagedFromSources;
    var i, k := s.process.which, s.process.index;
    var j := s.journals[i].value;
    BackUpExtends(s.plan, s.original, i, j.backups, j.absent, k, s.process.copying);
    PreparedOneMore(s.plan, s.original, s.journals, i, k, s.process.copying, t.journals[i].value);
  }

  lemma BackUpSetPreserves(s: State, t: State)
    requires Inv(s) && s.process.BackingUp? && s.process.which < |s.plan.firsts| && AdvanceStep(s, t)
    ensures Inv(t)
  {
    hide Installed, InstalledTo, RestoredBut, OnlyDestinationsDiffer, StagedFromSources;
    if t.process.Cleaning? {
      FailPreserves(s, t);
    } else if s.process.index < |s.plan.destinations[s.process.which]| {
      BackUpOnePreserves(s, t);
    }
  }

  lemma WriteReadyPreserves(s: State, t: State)
    requires Inv(s) && s.process.BackingUp? && s.process.which == |s.plan.firsts| && AdvanceStep(s, t)
    ensures Inv(t)
  {
    assert forall i | 0 <= i < |s.journals| :: t.sources[i] == s.journals[i].value.staged;
    assert forall i | 0 <= i < |s.journals| ::
        && t.journals[i].value.staged == s.journals[i].value.staged
        && t.journals[i].value.backups == s.journals[i].value.backups
        && t.journals[i].value.absent == s.journals[i].value.absent;
  }

  /** Recorded backups and markers do not depend on what `new` and `restore` hold. */
  lemma ScratchIsIrrelevant(s: State, i: nat, staged: map<Name, Bytes>, restore: map<Name, Bytes>)
    requires Inv(s) && i < |s.journals| && s.journals[i].Some?
    ensures var journals := s.journals[i := Some(s.journals[i].value.(staged := staged, restore := restore))];
            && Markers(s.plan, s.sources, s.committed, journals)
            && Recorded(s.plan, s.original, s.sources, journals)
            && Undecided(journals[0]) == Undecided(s.journals[0])
            && Present(journals) == Present(s.journals)
  {
    var journals := s.journals[i := Some(s.journals[i].value.(staged := staged, restore := restore))];
    assert forall m | 0 <= m < |journals| && m != i :: journals[m] == s.journals[m];
    assert Present(s.journals) ==> Present(journals);
    assert Present(journals) ==> Present(s.journals) by {
      assert forall m | 0 <= m < |journals| && journals[m].Some? :: s.journals[m].Some?;
    }
  }

  lemma TearPreserves(s: State, bytes: Bytes, t: State)
    requires Inv(s) && TearStep(s, bytes, t)
    ensures Inv(t)
  {
    var i := s.process.which;
    var j := s.journals[i].value;
    if s.process.BackingUp? {
      assert BackedUpTo(t.plan, t.original, i, t.journals[i].value.backups, j.absent, s.process.index, true);
    } else {
      ScratchIsIrrelevant(s, i, j.staged, t.journals[i].value.restore);
    }
  }

  lemma SyncReadyPreserves(s: State, t: State)
    requires Inv(s) && s.process.SyncingReady? && AdvanceStep(s, t)
    ensures Inv(t)
  {}

  lemma InstallOne(s: State, t: State)
    requires Inv(s) && s.process.Installing? && s.process.which < |s.plan.firsts|
    requires s.process.index < |s.plan.destinations[s.process.which]| && s.process.index < s.plan.written
    requires InstallStep(s, t) && t.process.Installing?
    ensures Inv(t)
  {
    hide BackedUp, Initialised, Installed, RestoredBut, PreparedTo, OnlyDestinationsDiffer;
    var i, k := s.process.which, s.process.index;
    InstallTouchesDestinations(s.plan, s.original, s.sources, i, k + 1);
    ScratchIsIrrelevant(s, i, t.journals[i].value.staged, s.journals[i].value.restore);
    assert t.files == InstalledTo(s.plan, s.original, s.sources, i, k + 1);
    assert StagedFromSources(t.journals, t.sources);
  }

  lemma InstallingMeans(s: State)
    requires Inv(s) && s.process.Installing?
    ensures s.plan.Valid() && |s.journals| == |s.plan.firsts| && Present(s.journals)
            && s.process.which <= |s.plan.firsts|
  {}

  lemma RemoveStaleOne(s: State, t: State)
    requires Inv(s) && s.process.Installing? && s.process.which < |s.plan.firsts|
    requires s.plan.written <= s.process.index < |s.plan.destinations[s.process.which]|
    requires InstallStep(s, t)
    ensures Inv(t)
  {
    var i, k := s.process.which, s.process.index;
    InstallTouchesDestinations(s.plan, s.original, s.sources, i, k + 1);
    assert t.files == InstalledTo(s.plan, s.original, s.sources, i, k + 1);
  }

  lemma InstallPreserves(s: State, t: State)
    requires Inv(s) && s.process.Installing? && AdvanceStep(s, t)
    ensures Inv(t)
  {
    hide BackedUp, Initialised, RestoredBut, PreparedTo, OnlyDestinationsDiffer;
    var i, k := s.process.which, s.process.index;
    if i < |s.plan.firsts| && t.process.RestoringOld? {
      FailPreserves(s, t);
    } else if i < |s.plan.firsts| && k < |s.plan.destinations[i]| {
      if k < s.plan.written { InstallOne(s, t); } else { RemoveStaleOne(s, t); }
    }
  }

  lemma CommitPreserves(s: State, t: State)
    requires Inv(s) && s.process.Committing? && AdvanceStep(s, t)
    ensures Inv(t)
  {}

  lemma RestoredLess(plan: Plan, files: Files, original: Files, i: nat, todo: set<Name>, name: Name, files': Files)
    requires plan.Valid() && i < |plan.firsts| && RestoredBut(plan, files, original, i, todo)
    requires var path := plan.Target(i, name);
             files' == if path in original then files[path := original[path]] else files - {path}
    ensures RestoredBut(plan, files', original, i, todo - {name})
    ensures OnlyDestinationsDiffer(plan, files, original) ==> OnlyDestinationsDiffer(plan, files', original)
  {
    var path := plan.Target(i, name);
    assert Agrees(files', original, path);
    assert forall p | p != path :: Agrees(files', original, p) == Agrees(files, original, p);
    assert forall p: Path | p.dir == plan.firsts[i].dir && p.name == name :: p == path;
  }

  lemma PickPreserves(s: State, name: Name, t: State)
    requires Inv(s) && PickStep(s, name, t)
    ensures Inv(t)
  {
    var i := s.process.which;
    var j := s.journals[i].value;
    if s.process.RestoringOld? {
      ScratchIsIrrelevant(s, i, j.staged, t.journals[i].value.restore);
    } else {
      assert BackedUp(s.plan, s.original, i, j.backups, j.absent);
      RestoredLess(s.plan, s.files, s.original, i, s.process.todo, name, t.files);
    }
  }

  lemma RestorePreserves(s: State, t: State)
    requires Inv(s) && s.process.RestoringOld? && AdvanceStep(s, t)
    ensures Inv(t)
  {
    var i, todo := s.process.which, s.process.todo;
    var j := s.journals[i].value;
    if s.process.copied.Some? {
      var name := s.process.copied.value;
      assert BackedUp(s.plan, s.original, i, j.backups, j.absent);
      RestoredLess(s.plan, s.files, s.original, i, todo + j.absent, name, t.files);
      assert todo + j.absent - {name} == todo - {name} + j.absent;
      ScratchIsIrrelevant(s, i, j.staged, t.journals[i].value.restore);
    } else {
      assert todo + j.absent == j.absent;
    }
  }

  lemma LaterSetIsNext(plan: Plan, files: Files, original: Files, i: nat)
    requires plan.Valid() && i < |plan.firsts| && RestoredBut(plan, files, original, i, {})
    ensures forall p :: Agrees(files, original, p) || (i + 1 < |plan.firsts| && InSet(plan, i + 1, p))
  {
    forall p ensures Agrees(files, original, p) || (i + 1 < |plan.firsts| && InSet(plan, i + 1, p)) {
      if InLaterSet(plan, i, p) {
        var m: nat :| i < m < |plan.firsts| && InSet(plan, m, p);
        assert m == i + 1;
      }
    }
  }

  lemma RemovePreserves(s: State, t: State)
    requires Inv(s) && s.process.RemovingNew? && AdvanceStep(s, t)
    ensures Inv(t)
  {
    var i := s.process.which;
    LaterSetIsNext(s.plan, s.files, s.original, i);
    if i + 1 < |s.plan.firsts| {
      var j := s.journals[i + 1].value;
      RollbackReaches(s.plan, s.files, s.original, i + 1, j.backups, j.absent);
    } else {
      RestoredEqualsOriginal(s.files, s.original);
    }
  }

  lemma DecideAndCleanPreserves(s: State, t: State)
    requires Inv(s) && (s.process.MarkingRolledBack? || s.process.Cleaning?) && AdvanceStep(s, t)
    ensures Inv(t)
  {}

  /** Every durable step, crash, error and torn write keeps the invariant. */
  lemma StepPreserves(s: State, a: Action, t: State)
    requires Inv(s) && Next(s, a, t)
    ensures Inv(t)
  {
    hide Installed, InstalledTo, RestoredBut, StagedFromSources, PreparedTo;
    match a
    case Crash =>
    case Fail => FailPreserves(s, t);
    case StartPublish(plan) => StartPublishPreserves(s, plan, t);
    case StartRecover => StartRecoverPreserves(s, t);
    case TearIdentity => InitialisePreserves(s, a, t);
    case Stage(_, _, _) => StagePreserves(s, a, t);
    case FinishStaging => StagePreserves(s, a, t);
    case TearCopy(bytes) => TearPreserves(s, bytes, t);
    case Pick(name) => PickPreserves(s, name, t);
    case Advance => AdvancePreserves(s, t);
  }

  lemma AdvancePreserves(s: State, t: State)
    requires Inv(s) && AdvanceStep(s, t)
    ensures Inv(t)
  {
    match s.process
    case MakingJournals(_) => MakeJournalsPreserves(s, t);
    case Initialising(_) => InitialisePreserves(s, Advance, t);
    case BackingUp(i, _, _) =>
      if i == |s.plan.firsts| { WriteReadyPreserves(s, t); } else { BackUpSetPreserves(s, t); }
    case SyncingReady => SyncReadyPreserves(s, t);
    case Installing(_, _) => InstallPreserves(s, t);
    case Committing => CommitPreserves(s, t);
    case RestoringOld(_, _, _, _) => RestorePreserves(s, t);
    case RemovingNew(_, _, _) => RemovePreserves(s, t);
    case MarkingRolledBack(_) => DecideAndCleanPreserves(s, t);
    case Cleaning(_, _) => DecideAndCleanPreserves(s, t);
  }
}
