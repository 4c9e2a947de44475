/**
 The stages of a calibration and what a whole run of them amounts to: which groups and stages run in which
 order, and what the verdict is. A stage may report failures of attempts it later retried with success.
 */
module CalibrationStages {
  import opened BitFields
  import Digits

  const CAL_STAGE_NIL := 0
  const CAL_STAGE_VFIFO := 1
  const CAL_STAGE_LFIFO := 3
  const CAL_STAGE_WRITES := 4
  const CAL_STAGE_VFIFO_AFTER_WRITES := 9
  const CAL_SUBSTAGE_VFIFO_CENTER := 3
  const CAL_SUBSTAGE_WRITES_CENTER := 1
  const CAL_SUBSTAGE_READ_LATENCY := 1

  datatype Failure = Failure(stage: nat, substage: nat, group: nat)

  datatype Outcome = Outcome(pass: bool, reports: seq<Failure>)

  // ----- the stages and their exits -----

  /** One deskew: passed, failed for its margins, or failed at once because this pin has no window. */
  datatype Deskewed = Passed | Margins | Missed(pin: nat)

  /** Read calibration of a group with all its retries: the deskews run, the verdict, the last failing substage. */
  datatype ReadWork = ReadWork(runs: seq<Deskewed>, calibrated: bool, substage: nat)

  /** What the stages find: per read group, per write group and shadow register, per read group, once. */
  datatype Work = Work(vfifo: nat -> ReadWork, writes: (nat, nat) -> Deskewed,
                       vfifoEnd: nat -> seq<Deskewed>, foundLatency: bool)

  /** What deskews themselves report. */
  function Reported(stage: nat, substage: nat, runs: seq<Deskewed>): seq<Failure> {
    if runs == [] then []
    else
      var last := runs[|runs| - 1];
      Reported(stage, substage, runs[..|runs| - 1]) + if last.Missed? then [Failure(stage, substage, last.pin)] else []
  }

  /** A stage leaves with its own failure if its verdict is one. */
  function Exit(inner: seq<Failure>, pass: bool, own: Failure): Outcome {
    Outcome(pass, inner + if pass then [] else [own])
  }

  function Vfifo(w: ReadWork, group: nat): Stage {
    ExitIsHonest(CAL_STAGE_VFIFO, CAL_SUBSTAGE_VFIFO_CENTER, w.runs, w.calibrated, w.substage, group);
    Exit(Reported(CAL_STAGE_VFIFO, CAL_SUBSTAGE_VFIFO_CENTER, w.runs), w.calibrated,
         Failure(CAL_STAGE_VFIFO, w.substage, group))
  }

  predicate AllPassed(runs: seq<Deskewed>) {
    forall i | 0 <= i < |runs| :: runs[i].Passed?
  }

  function VfifoEnd(runs: seq<Deskewed>, group: nat): Stage {
    ExitIsHonest(CAL_STAGE_VFIFO_AFTER_WRITES, CAL_SUBSTAGE_VFIFO_CENTER, runs, AllPassed(runs),
                 CAL_SUBSTAGE_VFIFO_CENTER, group);
    Exit(Reported(CAL_STAGE_VFIFO_AFTER_WRITES, CAL_SUBSTAGE_VFIFO_CENTER, runs), AllPassed(runs),
         Failure(CAL_STAGE_VFIFO_AFTER_WRITES, CAL_SUBSTAGE_VFIFO_CENTER, group))
  }

  function Writes(run: Deskewed, group: nat): Stage {
    ExitIsHonest(CAL_STAGE_WRITES, CAL_SUBSTAGE_WRITES_CENTER, [run], run.Passed?, CAL_SUBSTAGE_WRITES_CENTER, group);
    Exit(Reported(CAL_STAGE_WRITES, CAL_SUBSTAGE_WRITES_CENTER, [run]), run.Passed?,
         Failure(CAL_STAGE_WRITES, CAL_SUBSTAGE_WRITES_CENTER, group))
  }

  function Lfifo(found: bool): Stage {
    Exit([], found, Failure(CAL_STAGE_LFIFO, CAL_SUBSTAGE_READ_LATENCY, 0xff))
  }

  /** Failures name a stage other than NIL, and failing without a report does not happen. */
  predicate Honest(o: Outcome) {
    && (forall f | f in o.reports :: f.stage != CAL_STAGE_NIL)
    && (!o.pass ==> o.reports != [])
  }

  /** What a stage ends with; every exit above is one. */
  type Stage = o: Outcome | Honest(o) witness Outcome(true, [])

  /** A failing exit appends its own report, so none fails silently, whatever was reported on the way. */
  lemma {:induction false} ExitIsHonest(stage: nat, substage: nat, runs: seq<Deskewed>,
                                        pass: bool, last: nat, group: nat)
    requires stage != CAL_STAGE_NIL
    ensures forall f | f in Reported(stage, substage, runs) :: f.stage == stage && f.substage == substage
    ensures Honest(Exit(Reported(stage, substage, runs), pass, Failure(stage, last, group)))
    decreases |runs|
  {
    if runs != [] {
      ExitIsHonest(stage, substage, runs[..|runs| - 1], pass, last, group);
    }
  }

  datatype Stages = Stages(vfifo: nat -> Stage, writes: (nat, nat) -> Stage, vfifoEnd: nat -> Stage, lfifo: Stage)

  function StagesOf(w: Work): Stages {
    Stages(r => Vfifo(w.vfifo(r), r), (g, sr) => Writes(w.writes(g, sr), g), r => VfifoEnd(w.vfifoEnd(r), r),
           Lfifo(w.foundLatency))
  }

  datatype Config = Config(writeGroups: nat, readGroups: nat, skipGroups: Field, skipShadow: seq<bool>) {

    /** How many read groups, and so how many bits of the skip word, belong to a write group. */
    function PerGroup(): nat
      requires writeGroups > 0
    {
      readGroups / writeGroups
    }

    function FirstRead(g: nat): nat
      requires writeGroups > 0
    {
      g * readGroups / writeGroups
    }

    /** Some bit of the group's slice of the skip word is clear. */
    ghost predicate Runs(g: nat)
      requires writeGroups > 0
    {
      exists j | 0 <= j < PerGroup() :: Wanted(g, j)
    }

    predicate Wanted(g: nat, j: nat)
      requires writeGroups > 0
    {
      var k := g * PerGroup() + j;
      k < WIDTH && !skipGroups[k]
    }
  }

  /** With `share` read groups to a write group, the group has those next in order, and runs if one is not skipped. */
  lemma GroupsShare(c: Config, share: nat, g: nat)
    requires 0 < c.writeGroups && c.readGroups == share * c.writeGroups
    ensures c.FirstRead(g) == g * share && c.FirstRead(g + 1) == g * share + share
    ensures c.Runs(g) <==> exists r | g * share <= r < g * share + share :: r < WIDTH && !c.skipGroups[r]
  {
    Digits.Quotient(c.readGroups, c.writeGroups, share, 0);
    Digits.Quotient(g * c.readGroups, c.writeGroups, g * share, 0);
    Digits.Quotient((g + 1) * c.readGroups, c.writeGroups, g * share + share, 0);
    if c.Runs(g) {
      var j :| 0 <= j < c.PerGroup() && c.Wanted(g, j);
      assert !c.skipGroups[g * share + j];
    }
    if exists r | g * share <= r < g * share + share :: r < WIDTH && !c.skipGroups[r] {
      var r :| g * share <= r < g * share + share && r < WIDTH && !c.skipGroups[r];
      assert c.Wanted(g, r - g * share);
    }
  }

  // ----- what a run amounts to, as a value -----

  /** b after a, unless a failed. */
  function Then(a: Outcome, b: Outcome): (o: Outcome)
    ensures Honest(a) && Honest(b) ==> Honest(o)
  {
    if a.pass then Outcome(b.pass, a.reports + b.reports) else a
  }

  /** b after a in any case. */
  function Both(a: Outcome, b: Outcome): (o: Outcome)
    ensures Honest(a) && Honest(b) ==> Honest(o)
  {
    Outcome(a.pass && b.pass, a.reports + b.reports)
  }

  function Combine(a: Outcome, b: Outcome, sweepAll: bool): (o: Outcome)
    ensures Honest(a) && Honest(b) ==> Honest(o)
  {
    if sweepAll then Both(a, b) else Then(a, b)
  }

  /** Nothing to do. */
  function Done(): (o: Outcome)
    ensures Honest(o)
  {
    Outcome(true, [])
  }

  /** Stages f(from), ..., f(end - 1), up to the first failure. */
  function Upto(f: nat -> Stage, from: nat, end: nat): (o: Outcome)
    ensures Honest(o)
  {
    if end <= from then Done() else Then(Upto(f, from, end - 1), f(end - 1))
  }

  function WritesRun(st: Stages, c: Config, g: nat, srs: nat, sweepAll: bool): (o: Outcome)
    requires srs <= |c.skipShadow|
    ensures Honest(o)
  {
    if srs == 0 then Done()
    else if c.skipShadow[srs - 1] then WritesRun(st, c, g, srs - 1, sweepAll)
    else Combine(WritesRun(st, c, g, srs - 1, sweepAll), st.writes(g, srs - 1), sweepAll)
  }

  /** One write group: read calibration, write calibration, read calibration again. */
  function GroupRun(st: Stages, c: Config, g: nat, sweepAll: bool): (o: Outcome)
    requires c.writeGroups > 0
    ensures Honest(o)
  {
    Then(Upto(st.vfifo, c.FirstRead(g), c.FirstRead(g + 1)),
         Then(WritesRun(st, c, g, |c.skipShadow|, sweepAll),
              Upto(st.vfifoEnd, c.FirstRead(g), c.FirstRead(g + 1))))
  }

  ghost function GroupsRun(st: Stages, c: Config, groups: nat, sweepAll: bool): (o: Outcome)
    requires c.writeGroups > 0
    ensures Honest(o)
  {
    if groups == 0 then Done()
    else if !c.Runs(groups - 1) then GroupsRun(st, c, groups - 1, sweepAll)
    else Combine(GroupsRun(st, c, groups - 1, sweepAll), GroupRun(st, c, groups - 1, sweepAll), sweepAll)
  }

  ghost function Run(st: Stages, c: Config, sweepAll: bool): (o: Outcome)
    requires c.writeGroups > 0
    ensures Honest(o)
  {
    Then(GroupsRun(st, c, c.writeGroups, sweepAll), if c.skipGroups == Zero() then st.lfifo else Done())
  }

  // ----- what the verdict means -----

  /** Every stage of group g passes. */
  ghost predicate GroupPasses(st: Stages, c: Config, g: nat)
    requires c.writeGroups > 0
  {
    && (forall r | c.FirstRead(g) <= r < c.FirstRead(g + 1) :: st.vfifo(r).pass)
    && (forall sr | 0 <= sr < |c.skipShadow| && !c.skipShadow[sr] :: st.writes(g, sr).pass)
    && (forall r | c.FirstRead(g) <= r < c.FirstRead(g + 1) :: st.vfifoEnd(r).pass)
  }

  lemma {:induction false} UptoPasses(f: nat -> Stage, from: nat, end: nat)
    ensures Upto(f, from, end).pass <==> forall r | from <= r < end :: f(r).pass
  {
    if from < end {
      UptoPasses(f, from, end - 1);
    }
  }

  lemma {:induction false} WritesPass(st: Stages, c: Config, g: nat, srs: nat, sweepAll: bool)
    requires srs <= |c.skipShadow|
    ensures WritesRun(st, c, g, srs, sweepAll).pass <==>
            forall sr | 0 <= sr < srs && !c.skipShadow[sr] :: st.writes(g, sr).pass
  {
    if srs > 0 {
      WritesPass(st, c, g, srs - 1, sweepAll);
    }
  }

  lemma {:induction false} GroupsPass(st: Stages, c: Config, groups: nat, sweepAll: bool)
    requires c.writeGroups > 0
    ensures GroupsRun(st, c, groups, sweepAll).pass <==>
            forall g | 0 <= g < groups && c.Runs(g) :: GroupPasses(st, c, g)
  {
    if groups > 0 {
      var g := groups - 1;
      GroupsPass(st, c, g, sweepAll);
      UptoPasses(st.vfifo, c.FirstRead(g), c.FirstRead(g + 1));
      WritesPass(st, c, g, |c.skipShadow|, sweepAll);
      UptoPasses(st.vfifoEnd, c.FirstRead(g), c.FirstRead(g + 1));
    }
  }

  /**
   In either mode calibration succeeds exactly if all stages of all groups not skipped pass, and the
   latency stage too when no group is skipped. A failure has been reported.
   */
  lemma Verdict(st: Stages, c: Config, sweepAll: bool)
    requires c.writeGroups > 0
    ensures Run(st, c, sweepAll).pass <==>
            && (forall g | 0 <= g < c.writeGroups && c.Runs(g) :: GroupPasses(st, c, g))
            && (c.skipGroups == Zero() ==> st.lfifo.pass)
    ensures !Run(st, c, sweepAll).pass ==> Run(st, c, sweepAll).reports != []
  {
    GroupsPass(st, c, c.writeGroups, sweepAll);
  }

  /** Group g is calibrated, written and read back by every stage of its own. */
  ghost predicate GroupSucceeds(w: Work, c: Config, g: nat)
    requires c.writeGroups > 0
  {
    && (forall r | c.FirstRead(g) <= r < c.FirstRead(g + 1) :: w.vfifo(r).calibrated)
    && (forall sr | 0 <= sr < |c.skipShadow| && !c.skipShadow[sr] :: w.writes(g, sr).Passed?)
    && (forall r | c.FirstRead(g) <= r < c.FirstRead(g + 1) :: AllPassed(w.vfifoEnd(r)))
  }

  lemma GroupSucceedsIff(w: Work, c: Config, g: nat)
    requires c.writeGroups > 0
    ensures GroupPasses(StagesOf(w), c, g) <==> GroupSucceeds(w, c, g)
  {
    var st := StagesOf(w);
    assert forall r: nat :: st.vfifo(r).pass == w.vfifo(r).calibrated;
    assert forall sr: nat :: st.writes(g, sr).pass == w.writes(g, sr).Passed?;
    assert forall r: nat :: st.vfifoEnd(r).pass == AllPassed(w.vfifoEnd(r));
  }

  /** The verdict in terms of what the stages find. */
  lemma Success(w: Work, c: Config, sweepAll: bool)
    requires c.writeGroups > 0
    ensures Run(StagesOf(w), c, sweepAll).pass <==>
            && (forall g | 0 <= g < c.writeGroups && c.Runs(g) :: GroupSucceeds(w, c, g))
            && (c.skipGroups == Zero() ==> w.foundLatency)
  {
    Verdict(StagesOf(w), c, sweepAll);
    forall g | 0 <= g < c.writeGroups ensures GroupPasses(StagesOf(w), c, g) <==> GroupSucceeds(w, c, g) {
      GroupSucceedsIff(w, c, g);
    }
  }

  /** a begins like b as far as a goes, and equals it if it passed. */
  ghost predicate Begins(a: Outcome, b: Outcome) {
    && a.reports <= b.reports
    && (a.pass ==> a == b)
    && a.pass == b.pass
  }

  lemma {:induction false} WritesBegin(st: Stages, c: Config, g: nat, srs: nat)
    requires srs <= |c.skipShadow|
    ensures Begins(WritesRun(st, c, g, srs, false), WritesRun(st, c, g, srs, true))
  {
    if srs > 0 {
      WritesBegin(st, c, g, srs - 1);
    }
  }

  lemma GroupBegins(st: Stages, c: Config, g: nat)
    requires c.writeGroups > 0
    ensures Begins(GroupRun(st, c, g, false), GroupRun(st, c, g, true))
  {
    WritesBegin(st, c, g, |c.skipShadow|);
    var a := WritesRun(st, c, g, |c.skipShadow|, false);
    var b := WritesRun(st, c, g, |c.skipShadow|, true);
    var before := Upto(st.vfifo, c.FirstRead(g), c.FirstRead(g + 1));
    var after := Upto(st.vfifoEnd, c.FirstRead(g), c.FirstRead(g + 1));
    assert Begins(Then(a, after), Then(b, after));
    assert Begins(Then(before, Then(a, after)), Then(before, Then(b, after)));
  }

  lemma {:induction false} GroupsBegin(st: Stages, c: Config, groups: nat)
    requires c.writeGroups > 0
    ensures Begins(GroupsRun(st, c, groups, false), GroupsRun(st, c, groups, true))
  {
    if groups > 0 {
      GroupsBegin(st, c, groups - 1);
      GroupBegins(st, c, groups - 1);
    }
  }

  /** Sweeping all groups changes neither the verdict nor the failure that is remembered. */
  lemma ModesAgree(st: Stages, c: Config)
    requires c.writeGroups > 0
    ensures Run(st, c, false).pass == Run(st, c, true).pass
    ensures Run(st, c, false).pass ==> Run(st, c, false) == Run(st, c, true)
    ensures !Run(st, c, false).pass ==> Run(st, c, false).reports[0] == Run(st, c, true).reports[0]
  {
    GroupsBegin(st, c, c.writeGroups);
    Verdict(st, c, false);
  }
}
