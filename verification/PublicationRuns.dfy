/** Runs that end in the states recovery refuses, and recovery under another pair of paths. */
module PublicationRuns {
  import opened Basics
  import opened Publication
  import opened PublicationSafety
  import opened PublicationTheorems

  /** Each state leads to the next; a run is such a list that starts from nothing. */
  ghost predicate Leads(states: seq<State>, actions: seq<Action>) {
    && |states| == |actions| + 1
    && forall k | 0 <= k < |actions| :: Next(states[k], actions[k], states[k + 1])
  }

  lemma LeadsOn(states: seq<State>, actions: seq<Action>, more: seq<State>, moreActions: seq<Action>)
    requires Leads(states, actions) && Leads(more, moreActions) && states[|actions|] == more[0]
    ensures Leads(states + more[1..], actions + moreActions)
  {
    hide Next;
    var all, every := states + more[1..], actions + moreActions;
    forall k | 0 <= k < |every| ensures Next(all[k], every[k], all[k + 1]) {
      if k >= |actions| {
        assert all[k] == more[k - |actions|] && all[k + 1] == more[k - |actions| + 1];
      }
    }
  }

  // ---------------------------------------------------------------- a torn identity

  const ONE_SET := Plan([Path("d", "a.E01")], [["a.E01"]], 1, true, AcceptsSegment)

  function AloneAt(journal: Option<Journal>, process: Process): State {
    State(ONE_SET, map[], [journal], process, map[], [], false)
  }

  function WithDirectories(n: nat): Journal { EMPTY_JOURNAL.(directories := n) }

  const TORN_BEGINS: seq<State> := [
    AloneAt(None, Ended(Fresh)), AloneAt(None, MakingJournals(0)), AloneAt(Some(WithDirectories(0)), Initialising(0)),
    AloneAt(Some(WithDirectories(1)), Initialising(0)), AloneAt(Some(WithDirectories(2)), Initialising(0))]

  const TORN_ENDS: seq<State> := [
    AloneAt(Some(WithDirectories(2)), Initialising(0)), AloneAt(Some(WithDirectories(3)), Initialising(0)),
    AloneAt(Some(WithDirectories(4)), Initialising(0)),
    AloneAt(Some(WithDirectories(4).(identity := Torn)), Initialising(0)),
    AloneAt(Some(WithDirectories(4).(identity := Torn)), Ended(Crashed))]

  function TornRun(): seq<State> { TORN_BEGINS + TORN_ENDS[1..] }

  function TornActions(): seq<Action> {
    [StartPublish(ONE_SET), Advance, Advance, Advance] + [Advance, Advance, TearIdentity, Crash]
  }

  lemma TornBegins()
    ensures Leads(TORN_BEGINS, [StartPublish(ONE_SET), Advance, Advance, Advance]) && Initial(TORN_BEGINS[0])
  {
    hide BackUpStep, InstallStep, RollBackStep, DecideOrCleanStep, TearStep, PickStep, StartRecoverStep,
        AcceptsSegment, OnFailure;
    assert TORN_BEGINS[0].journals == seq(1, _ => None);
  }

  lemma TornEnds()
    ensures Leads(TORN_ENDS, [Advance, Advance, TearIdentity, Crash])
  {
    hide BackUpStep, InstallStep, RollBackStep, DecideOrCleanStep, TearStep, PickStep, StartRecoverStep,
        AcceptsSegment, OnFailure;
  }

  /** A crash in the middle of writing the identity leaves a journal that recovery refuses. */
  lemma TornIdentityRunIsRefused()
    ensures IsRun(TornRun(), TornActions())
    ensures |TornRun()| == 9 && Judge(ONE_SET, TornRun()[8].journals) == Refuse && TornIdentity(TornRun()[8].journals)
  {
    hide Next, Initial;
    TornBegins();
    TornEnds();
    LeadsOn(TORN_BEGINS, [StartPublish(ONE_SET), Advance, Advance, Advance], TORN_ENDS,
            [Advance, Advance, TearIdentity, Crash]);
    var journals := TornRun()[8].journals;
    assert !JournalAccepted(journals[0], ONE_SET, 0, false, false);
    assert journals[0].value.identity.Torn?;
  }

  // ---------------------------------------------------------------- an interrupted clean-up after `ready`

  const TWO_SETS := Plan([Path("d", "a.E01"), Path("e", "a.E01")], [["a.E01"], ["a.E01"]], 1, true, AcceptsSegment)

  function PairAt(first: Option<Journal>, second: Option<Journal>, process: Process): State {
    State(TWO_SETS, map[], [first, second], process, map[], [], false)
  }

  const INITIALISED := WithDirectories(4).(identity := Whole(TWO_SETS.firsts))
  const STAGED := INITIALISED.(staged := map["a.E01" := [7]])
  const BACKED := STAGED.(absent := {"a.E01"})
  const READY := BACKED.(ready := true)
  const STAGED_FILES: seq<map<Name, Bytes>> := [map["a.E01" := [7]], map["a.E01" := [7]]]

  const MADE: seq<State> := [
    PairAt(None, None, Ended(Fresh)),
    PairAt(None, None, MakingJournals(0)),
    PairAt(Some(WithDirectories(0)), None, MakingJournals(1)),
    PairAt(Some(WithDirectories(0)), Some(WithDirectories(0)), Initialising(0))]

  const PRIMARY_FILLED: seq<State> := [
    PairAt(Some(WithDirectories(0)), Some(WithDirectories(0)), Initialising(0)),
    PairAt(Some(WithDirectories(1)), Some(WithDirectories(0)), Initialising(0)),
    PairAt(Some(WithDirectories(2)), Some(WithDirectories(0)), Initialising(0)),
    PairAt(Some(WithDirectories(3)), Some(WithDirectories(0)), Initialising(0)),
    PairAt(Some(WithDirectories(4)), Some(WithDirectories(0)), Initialising(0)),
    PairAt(Some(INITIALISED), Some(WithDirectories(0)), Initialising(1))]

  const SECONDARY_FILLED: seq<State> := [
    PairAt(Some(INITIALISED), Some(WithDirectories(0)), Initialising(1)),
    PairAt(Some(INITIALISED), Some(WithDirectories(1)), Initialising(1)),
    PairAt(Some(INITIALISED), Some(WithDirectories(2)), Initialising(1)),
    PairAt(Some(INITIALISED), Some(WithDirectories(3)), Initialising(1)),
    PairAt(Some(INITIALISED), Some(WithDirectories(4)), Initialising(1)),
    PairAt(Some(INITIALISED), Some(INITIALISED), Staging)]

  const STAGING: seq<State> := [
    PairAt(Some(INITIALISED), Some(INITIALISED), Staging),
    PairAt(Some(STAGED), Some(INITIALISED), Staging),
    PairAt(Some(STAGED), Some(STAGED), Staging),
    PairAt(Some(STAGED), Some(STAGED), BackingUp(0, 0, false))]

  const BACKING_UP: seq<State> := [
    PairAt(Some(STAGED), Some(STAGED), BackingUp(0, 0, false)),
    PairAt(Some(BACKED), Some(STAGED), BackingUp(0, 1, false)),
    PairAt(Some(BACKED), Some(STAGED), BackingUp(1, 0, false)),
    PairAt(Some(BACKED), Some(BACKED), BackingUp(1, 1, false)),
    PairAt(Some(BACKED), Some(BACKED), BackingUp(2, 0, false))]

  /** `ready` is written, its directory sync fails, and the clean-up dies after the secondary. */
  const UNSYNCED: seq<State> := [
    PairAt(Some(BACKED), Some(BACKED), BackingUp(2, 0, false)),
    PairAt(Some(READY), Some(BACKED), SyncingReady).(sources := STAGED_FILES),
    PairAt(Some(READY), Some(BACKED), Cleaning(2, Failed)).(sources := STAGED_FILES),
    PairAt(Some(READY), None, Cleaning(1, Failed)).(sources := STAGED_FILES),
    PairAt(Some(READY), None, Ended(Crashed)).(sources := STAGED_FILES)]

  const FIVE: seq<Action> := [Advance, Advance, Advance, Advance, Advance]
  const STAGE: seq<Action> := [Stage(0, "a.E01", [7]), Stage(1, "a.E01", [7]), FinishStaging]

  function UnsyncedRun(): seq<State> {
    MADE + PRIMARY_FILLED[1..] + SECONDARY_FILLED[1..] + STAGING[1..] + BACKING_UP[1..] + UNSYNCED[1..]
  }

  function UnsyncedActions(): seq<Action> {
    [StartPublish(TWO_SETS), Advance, Advance] + FIVE + FIVE + STAGE + FIVE[..4] + [Advance, Fail, Advance, Crash]
  }

  lemma JournalsAreMade()
    ensures Leads(MADE, [StartPublish(TWO_SETS), Advance, Advance]) && Initial(MADE[0])
  {
    hide BackUpStep, InstallStep, RollBackStep, DecideOrCleanStep, TearStep, PickStep, StartRecoverStep,
        AcceptsSegment, OnFailure;
    DistinctFirsts();
    assert MADE[0].journals == seq(2, _ => None);
  }

  lemma DistinctFirsts()
    ensures TWO_SETS.Valid()
  {
    assert "d"[0] != "e"[0];
  }

  lemma PrimaryIsFilled()
    ensures Leads(PRIMARY_FILLED, FIVE)
  {
    hide BackUpStep, InstallStep, RollBackStep, DecideOrCleanStep, TearStep, PickStep, StartRecoverStep,
        AcceptsSegment, OnFailure;
    DistinctFirsts();
  }

  lemma SecondaryIsFilled()
    ensures Leads(SECONDARY_FILLED, FIVE)
  {
    hide BackUpStep, InstallStep, RollBackStep, DecideOrCleanStep, TearStep, PickStep, StartRecoverStep,
        AcceptsSegment, OnFailure;
    DistinctFirsts();
  }

  lemma SegmentsAreStaged()
    ensures Leads(STAGING, STAGE)
  {
    hide BeginStep, BackUpStep, InstallStep, RollBackStep, DecideOrCleanStep, TearStep, PickStep, StartRecoverStep,
        OnFailure;
    DistinctFirsts();
  }

  lemma AbsenceIsNoted()
    ensures Leads(BACKING_UP, FIVE[..4])
  {
    hide BeginStep, InstallStep, RollBackStep, DecideOrCleanStep, TearStep, PickStep, StartRecoverStep, OnFailure;
    DistinctFirsts();
    assert FIVE[..4] == [Advance, Advance, Advance, Advance];
    assert {} + {"a.E01"} == {"a.E01"};
  }

  lemma CleanUpIsCutShort()
    ensures Leads(UNSYNCED, [Advance, Fail, Advance, Crash])
  {
    hide BeginStep, InstallStep, RollBackStep, TearStep, PickStep, StartRecoverStep, AcceptsSegment;
    DistinctFirsts();
    assert CurrentStaged(UNSYNCED[0]) == STAGED_FILES;
  }

  /** Recovery then finds `ready` without a decision and the secondary journal gone. */
  lemma UnsyncedReadyRunIsRefused()
    ensures IsRun(UnsyncedRun(), UnsyncedActions())
    ensures |UnsyncedRun()| == 25 && Judge(TWO_SETS, UnsyncedRun()[24].journals) == Refuse
    ensures Undecided(UnsyncedRun()[24].journals[0]) && !Present(UnsyncedRun()[24].journals)
  {
    UnsyncedIsRun();
    hide IsRun;
    assert UnsyncedRun()[24] == UNSYNCED[4];
    assert !JournalAccepted(UNSYNCED[4].journals[1], TWO_SETS, 1, false, true);
    assert UNSYNCED[4].journals[1].None?;
  }

  lemma UnsyncedIsRun()
    ensures IsRun(UnsyncedRun(), UnsyncedActions())
  {
    hide Next, Initial;
    JournalsAreMade();
    PrimaryIsFilled();
    SecondaryIsFilled();
    SegmentsAreStaged();
    AbsenceIsNoted();
    CleanUpIsCutShort();
    var states, actions: seq<Action> := MADE, [StartPublish(TWO_SETS), Advance, Advance];
    LeadsOn(states, actions, PRIMARY_FILLED, FIVE);
    states, actions := states + PRIMARY_FILLED[1..], actions + FIVE;
    LeadsOn(states, actions, SECONDARY_FILLED, FIVE);
    states, actions := states + SECONDARY_FILLED[1..], actions + FIVE;
    LeadsOn(states, actions, STAGING, STAGE);
    states, actions := states + STAGING[1..], actions + STAGE;
    LeadsOn(states, actions, BACKING_UP, FIVE[..4]);
    states, actions := states + BACKING_UP[1..], actions + FIVE[..4];
    LeadsOn(states, actions, UNSYNCED, [Advance, Fail, Advance, Crash]);
  }

  // ---------------------------------------------------------------- another pair of paths

  /** A journal that an earlier publication left at what is now the secondary path refuses the
      recovery of the pair, whatever state that journal is in. */
  lemma LoneSecondaryIsRefused(plan: Plan, left: Journal)
    requires plan.Valid() && |plan.firsts| == 2
    ensures Judge(plan, [None, Some(left)]) == Refuse
    ensures Judge(plan, [None, None]) == Nothing
  {
    assert [None, Some(left)][1].Some?;
  }
}
