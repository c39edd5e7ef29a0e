/** Recoverable publication of one or two segment sets (src/publication.rs).

    The file system is a map from paths to bytes plus one optional journal directory per set.
    A run interleaves durable steps of a publishing or recovering process with crashes and
    I/O errors; an error strikes before the failing step takes effect, and a copy or a
    multi-byte write may be cut short. */
module Publication {
  import opened Basics

  type Name = string
  datatype Path = Path(dir: string, name: Name)
  type Files = map<Path, Bytes>

  /** SHA-256 over the normalized first paths, represented by its preimage. */
  datatype IdentityFile = Missing | Torn | Whole(firsts: seq<Path>)

  datatype Journal = Journal(
    directories: nat,
    identity: IdentityFile,
    staged: map<Name, Bytes>,
    backups: map<Name, Bytes>,
    absent: set<Name>,
    restore: map<Name, Bytes>,
    ready: bool,
    committed: bool,
    rolledBack: bool)

  const EMPTY_JOURNAL := Journal(0, Missing, map[], map[], {}, map[], false, false, false)
  const JOURNAL_DIRECTORIES := 4

  /** `accepts(first, name)` is the rule of `Set::target`: `name` names a segment of the set
      that starts at `first`. */
  datatype Plan = Plan(
    firsts: seq<Path>,
    destinations: seq<seq<Name>>,
    written: nat,
    allowReplace: bool,
    accepts: (Path, Name) -> bool)
  {
    predicate Valid() {
      && 1 <= |firsts| <= 2
      && |destinations| == |firsts|
      && (|firsts| == 2 ==> firsts[0] != firsts[1])
    }

    function Target(i: nat, name: Name): Path
      requires i < |firsts|
    {
      Path(firsts[i].dir, name)
    }
  }

  datatype Outcome = Fresh | Crashed | Failed | Published | Recovered(found: bool)

  /** Where the process holding the output locks is; `Ended` when no process does. */
  datatype Process =
    | Ended(outcome: Outcome)
    | MakingJournals(which: nat)
    | Initialising(which: nat)
    | Staging
    | BackingUp(which: nat, index: nat, copying: bool)
    | SyncingReady
    | Installing(which: nat, index: nat)
    | Committing
    | RestoringOld(which: nat, todo: set<Name>, copied: Option<Name>, after: Outcome)
    | RemovingNew(which: nat, todo: set<Name>, after: Outcome)
    | MarkingRolledBack(after: Outcome)
    | Cleaning(left: nat, after: Outcome)

  /** `original`, `sources` and `committed` are history: the output at the start of the
      publication, the staged bytes when `ready` was written, and whether `committed` was. */
  datatype State = State(
    plan: Plan,
    files: Files,
    journals: seq<Option<Journal>>,
    process: Process,
    original: Files,
    sources: seq<map<Name, Bytes>>,
    committed: bool)

  // ---------------------------------------------------------------- recovery's decision

  datatype Verdict = Nothing | Refuse | CleanOnly | RollBack

  predicate JournalAccepted(journal: Option<Journal>, plan: Plan, i: nat, decided: bool, ready: bool)
    requires i < |plan.firsts|
  {
    match journal
    case None => decided || !ready
    case Some(j) =>
      || (j.identity.Missing? && !ready)
      || (&& j.identity == Whole(plan.firsts)
          && (ready && !decided ==>
                && j.directories == JOURNAL_DIRECTORIES
                && (forall name <- j.backups.Keys + j.absent :: plan.accepts(plan.firsts[i], name))))
  }

  function Judge(plan: Plan, journals: seq<Option<Journal>>): Verdict
    requires 1 <= |plan.firsts| == |journals|
  {
    match journals[0]
    case None => if exists i | 0 < i < |journals| :: journals[i].Some? then Refuse else Nothing
    case Some(primary) =>
      var decided := primary.committed || primary.rolledBack;
      if !(forall i | 0 <= i < |journals| ::
             JournalAccepted(journals[i], plan, i, decided, primary.ready)) then Refuse
      else if decided || !primary.ready then CleanOnly
      else RollBack
  }

  // ---------------------------------------------------------------- durable steps

  datatype Action =
    | Crash
    | Fail
    | StartPublish(plan: Plan)
    | StartRecover
    | TearIdentity
    | Stage(which: nat, name: Name, bytes: Bytes)
    | FinishStaging
    | TearCopy(bytes: Bytes)
    | Pick(name: Name)
    | Advance

  function SetJournal(s: State, i: nat, j: Journal): State
    requires i < |s.journals|
  {
    s.(journals := s.journals[i := Some(j)])
  }

  /** What an error return does from each point: `Drop` cleans up an unprepared publication,
      `publish` rolls back a failed installation, everything else keeps its journals. */
  function OnFailure(s: State): State
    requires s.process.Installing? ==> |s.journals| > 0 && s.journals[0].Some?
  {
    match s.process
    case Ended(_) => s
    case MakingJournals(i) => s.(process := Cleaning(i, Failed))
    case Initialising(_) => s.(process := Cleaning(|s.plan.firsts|, Failed))
    case Staging => s.(process := Cleaning(|s.plan.firsts|, Failed))
    case BackingUp(_, _, _) => s.(process := Cleaning(|s.plan.firsts|, Failed))
    case SyncingReady => s.(process := Cleaning(|s.plan.firsts|, Failed))
    case Installing(_, _) => s.(process := RestoringOld(0, s.journals[0].value.backups.Keys, None, Failed))
    case Committing => s.(process := Ended(Failed))
    case RestoringOld(_, _, _, _) => s.(process := Ended(Failed))
    case RemovingNew(_, _, _) => s.(process := Ended(Failed))
    case MarkingRolledBack(_) => s.(process := Ended(Failed))
    case Cleaning(_, _) => s.(process := Ended(Failed))
  }

  predicate StagedComplete(plan: Plan, i: nat, staged: map<Name, Bytes>)
    requires plan.Valid() && i < |plan.firsts|
  {
    forall j | 0 <= j < |plan.destinations[i]| && j < plan.written :: plan.destinations[i][j] in staged
  }

  /** Creating journals, their directories and identities (`begin`). */
  ghost predicate BeginStep(s: State, t: State)
    requires s.plan.Valid() && |s.journals| == |s.plan.firsts|
    requires s.process.MakingJournals? || s.process.Initialising?
  {
    var i, n := s.process.which, |s.plan.firsts|;
    && i < n
    && if s.process.MakingJournals? then
         if s.journals[i].Some? then t == OnFailure(s)
         else t == SetJournal(s, i, EMPTY_JOURNAL)
                   .(process := if i + 1 < n then MakingJournals(i + 1) else Initialising(0))
       else
         && s.journals[i].Some?
         && var j := s.journals[i].value;
            if j.directories < JOURNAL_DIRECTORIES then
              t == SetJournal(s, i, j.(directories := j.directories + 1))
            else
              t == SetJournal(s, i, j.(identity := Whole(s.plan.firsts)))
                   .(process := if i + 1 < n then Initialising(i + 1) else Staging)
  }

  /** Backing up one destination, moving to the next set, or writing `ready` (`prepare`). */
  ghost predicate BackUpStep(s: State, t: State)
    requires s.plan.Valid() && |s.journals| == |s.plan.firsts|
    requires s.process.BackingUp?
  {
    var i, k, n := s.process.which, s.process.index, |s.plan.firsts|;
    if i == n then
      && s.journals[0].Some?
      && t == SetJournal(s, 0, s.journals[0].value.(ready := true))
              .(process := SyncingReady, sources := CurrentStaged(s))
    else
      && i < n && s.journals[i].Some?
      && var j := s.journals[i].value;
         var names := s.plan.destinations[i];
         if k == 0 && !StagedComplete(s.plan, i, j.staged) then t == OnFailure(s)
         else if k < |names| then
           var path := s.plan.Target(i, names[k]);
           if !s.plan.accepts(s.plan.firsts[i], names[k])
               || (path in s.files && !s.plan.allowReplace) then t == OnFailure(s)
           else if path in s.files then
             t == SetJournal(s, i, j.(backups := j.backups[names[k] := s.files[path]])).(process := BackingUp(i, k + 1,
                     false))
           else
             t == SetJournal(s, i, j.(absent := j.absent + {names[k]})).(process := BackingUp(i, k + 1, false))
         else t == s.(process := BackingUp(i + 1, 0, false))
  }

  /** Renaming one staged file over its destination or removing a stale one (`install`). */
  ghost predicate InstallStep(s: State, t: State)
    requires s.plan.Valid() && |s.journals| == |s.plan.firsts|
    requires s.process.Installing?
  {
    var i, k, n := s.process.which, s.process.index, |s.plan.firsts|;
    if i == n then t == s.(process := Committing)
    else
      && i < n && s.journals[i].Some? && s.journals[0].Some?
      && var j := s.journals[i].value;
         var names := s.plan.destinations[i];
         if k < |names| then
           var path := s.plan.Target(i, names[k]);
           if k >= s.plan.written then
             t == s.(files := s.files - {path}, process := Installing(i, k + 1))
           else if names[k] !in j.staged then t == OnFailure(s)
           else
             t == SetJournal(s, i, j.(staged := j.staged - {names[k]}))
                  .(files := s.files[path := j.staged[names[k]]], process := Installing(i, k + 1))
         else t == s.(process := Installing(i + 1, 0))
  }

  /** Renaming a restored copy into place, or moving on to the next list (`rollback`). */
  ghost predicate RollBackStep(s: State, t: State)
    requires s.plan.Valid() && |s.journals| == |s.plan.firsts|
    requires s.process.RestoringOld? || s.process.RemovingNew?
  {
    var i, n := s.process.which, |s.plan.firsts|;
    && i < n && s.journals[i].Some?
    && var j := s.journals[i].value;
       match s.process
       case RestoringOld(_, todo, Some(name), after) =>
         && name in j.restore
         && t == SetJournal(s, i, j.(restore := j.restore - {name}))
                 .(files := s.files[s.plan.Target(i, name) := j.restore[name]],
                   process := RestoringOld(i, todo - {name}, None, after))
       case RestoringOld(_, todo, None, after) =>
         todo == {} && t == s.(process := RemovingNew(i, j.absent, after))
       case RemovingNew(_, todo, after) =>
         && todo == {}
         && if i + 1 < n then
              && s.journals[i + 1].Some?
              && t == s.(process := RestoringOld(i + 1, s.journals[i + 1].value.backups.Keys, None, after))
            else t == s.(process := MarkingRolledBack(after))
  }

  /** Writing a decision, or moving one journal aside (`publish`, `rollback`, `cleanup`). */
  ghost predicate DecideOrCleanStep(s: State, t: State)
    requires s.plan.Valid() && |s.journals| == |s.plan.firsts|
    requires s.process.Committing? || s.process.MarkingRolledBack? || s.process.Cleaning?
  {
    var n := |s.plan.firsts|;
    match s.process
    case Committing =>
      && s.journals[0].Some?
      && t == SetJournal(s, 0, s.journals[0].value.(committed := true))
              .(process := Cleaning(n, Published), committed := true)
    case MarkingRolledBack(after) =>
      && s.journals[0].Some?
      && t == SetJournal(s, 0, s.journals[0].value.(rolledBack := true)).(process := Cleaning(n, after))
    case Cleaning(k, after) =>
      if k == 0 then t == s.(process := Ended(after))
      else k <= n && t == s.(journals := s.journals[k - 1 := None], process := Cleaning(k - 1, after))
  }

  ghost predicate AdvanceStep(s: State, t: State)
    requires s.plan.Valid() && |s.journals| == |s.plan.firsts|
  {
    match s.process
    case Ended(_) => false
    case Staging => false
    case MakingJournals(_) => BeginStep(s, t)
    case Initialising(_) => BeginStep(s, t)
    case BackingUp(_, _, _) => BackUpStep(s, t)
    case SyncingReady => t == s.(process := Installing(0, 0))
    case Installing(_, _) => InstallStep(s, t)
    case RestoringOld(_, _, _, _) => RollBackStep(s, t)
    case RemovingNew(_, _, _) => RollBackStep(s, t)
    case Committing => DecideOrCleanStep(s, t)
    case MarkingRolledBack(_) => DecideOrCleanStep(s, t)
    case Cleaning(_, _) => DecideOrCleanStep(s, t)
  }

  function CurrentStaged(s: State): seq<map<Name, Bytes>> {
    seq(|s.journals|, i requires 0 <= i < |s.journals| =>
      if s.journals[i].Some? then s.journals[i].value.staged else map[])
  }

  /** Listing `old` and `absent` yields the names in an arbitrary order, so rollback picks any. */
  ghost predicate PickStep(s: State, name: Name, t: State)
    requires s.plan.Valid() && |s.journals| == |s.plan.firsts|
  {
    match s.process
    case RestoringOld(i, todo, copied, next) =>
      && i < |s.journals| && s.journals[i].Some? && copied.None? && name in todo
      && var j := s.journals[i].value;
         && name in j.backups
         && t == SetJournal(s, i, j.(restore := j.restore[name := j.backups[name]]))
                 .(process := RestoringOld(i, todo, Some(name), next))
    case RemovingNew(i, todo, next) =>
      && i < |s.journals| && name in todo
      && t == s.(files := s.files - {s.plan.Target(i, name)}, process := RemovingNew(i, todo - {name}, next))
    case _ => false
  }

  /** A copy cut short leaves arbitrary bytes at its destination inside the journal. */
  ghost predicate TearStep(s: State, bytes: Bytes, t: State)
    requires s.plan.Valid() && |s.journals| == |s.plan.firsts|
  {
    match s.process
    case BackingUp(i, k, _) =>
      && i < |s.journals| && s.journals[i].Some? && k < |s.plan.destinations[i]|
      && var j := s.journals[i].value;
         var name := s.plan.destinations[i][k];
         && StagedComplete(s.plan, i, j.staged)
         && s.plan.accepts(s.plan.firsts[i], name) && s.plan.allowReplace && s.plan.Target(i, name) in s.files
         && t == SetJournal(s, i, j.(backups := j.backups[name := bytes])).(process := BackingUp(i, k, true))
    case RestoringOld(i, todo, copied, next) =>
      && i < |s.journals| && s.journals[i].Some? && copied.None?
      && var j := s.journals[i].value;
         exists name <- todo :: t == SetJournal(s, i, j.(restore := j.restore[name := bytes]))
    case _ => false
  }

  ghost predicate StartPublishStep(s: State, plan: Plan, t: State)
    requires s.plan.Valid() && |s.journals| == |s.plan.firsts|
  {
    && s.process.Ended?
    && plan.Valid() && plan.firsts == s.plan.firsts && plan.accepts == s.plan.accepts
    && if s.journals[0].Some? then t == s.(process := Ended(Failed))
       else t == State(plan, s.files, s.journals, MakingJournals(0), s.files, [], false)
  }

  ghost predicate StartRecoverStep(s: State, t: State)
    requires s.plan.Valid() && |s.journals| == |s.plan.firsts|
  {
    && s.process.Ended?
    && match Judge(s.plan, s.journals)
       case Nothing => t == s.(process := Ended(Recovered(false)))
       case Refuse => t == s.(process := Ended(Failed))
       case CleanOnly => t == s.(process := Cleaning(|s.journals|, Recovered(true)))
       case RollBack =>
         && s.journals[0].Some?
         && t == s.(process := RestoringOld(0, s.journals[0].value.backups.Keys, None, Recovered(true)))
  }

  ghost predicate Next(s: State, a: Action, t: State) {
    && s.plan.Valid() && |s.journals| == |s.plan.firsts|
    && match a
       case Crash => t == s.(process := Ended(Crashed))
       case Fail => (s.process.Installing? ==> s.journals[0].Some?) && t == OnFailure(s)
       case StartPublish(plan) => StartPublishStep(s, plan, t)
       case StartRecover => StartRecoverStep(s, t)
       case TearIdentity =>
         && s.process.Initialising? && s.process.which < |s.journals|
         && s.journals[s.process.which].Some?
         && s.journals[s.process.which].value.directories == JOURNAL_DIRECTORIES
         && t == SetJournal(s, s.process.which, s.journals[s.process.which].value.(identity := Torn))
       case Stage(i, name, bytes) =>
         && s.process.Staging? && i < |s.journals| && s.journals[i].Some?
         && s.plan.accepts(s.plan.firsts[i], name)
         && t == SetJournal(s, i, s.journals[i].value.(staged := s.journals[i].value.staged[name := bytes]))
       case FinishStaging => s.process.Staging? && t == s.(process := BackingUp(0, 0, false))
       case TearCopy(bytes) => TearStep(s, bytes, t)
       case Pick(name) => PickStep(s, name, t)
       case Advance => AdvanceStep(s, t)
  }

  /** No journal exists and no process runs. */
  ghost predicate Initial(s: State) {
    && s.plan.Valid()
    && s.process == Ended(Fresh)
    && s.journals == seq(|s.plan.firsts|, _ => None)
    && s.original == s.files && !s.committed
  }

  ghost predicate IsRun(run: seq<State>, actions: seq<Action>) {
    && |run| == |actions| + 1
    && Initial(run[0])
    && forall k | 0 <= k < |actions| :: Next(run[k], actions[k], run[k + 1])
  }
}
