/** Which failures a calibration reports, and so which one is remembered, in terms of what its stages find. */
module CalibrationReports {
  import opened BitFields
  import opened CalibrationStages

  predicate NoneMissed(runs: seq<Deskewed>) {
    forall i | 0 <= i < |runs| :: !runs[i].Missed?
  }

  predicate FirstMissed(runs: seq<Deskewed>, i: int) {
    0 <= i < |runs| && runs[i].Missed? && forall j | 0 <= j < i :: !runs[j].Missed?
  }

  lemma {:induction false} NothingReported(stage: nat, substage: nat, runs: seq<Deskewed>)
    requires NoneMissed(runs)
    ensures Reported(stage, substage, runs) == []
    decreases |runs|
  {
    if runs != [] {
      NothingReported(stage, substage, runs[..|runs| - 1]);
    }
  }

  lemma {:induction false} MissIsReported(stage: nat, substage: nat, runs: seq<Deskewed>, i: int)
    requires FirstMissed(runs, i)
    ensures Reported(stage, substage, runs) != []
    ensures Reported(stage, substage, runs)[0] == Failure(stage, substage, runs[i].pin)
    decreases |runs|
  {
    var n := |runs| - 1;
    if i < n {
      MissIsReported(stage, substage, runs[..n], i);
    } else {
      NothingReported(stage, substage, runs[..n]);
    }
  }

  /** A stage of a run: reading before writing, writing a shadow register, reading after writing, the latency. */
  datatype Place = Read(group: nat, r: nat) | Write(group: nat, sr: nat) | ReadBack(group: nat, r: nat) | Latency

  /** What the stage there reports on leaving with a failure. */
  function OwnFailure(w: Work, at: Place): Failure {
    match at
    case Read(_, r) => Failure(CAL_STAGE_VFIFO, w.vfifo(r).substage, r)
    case Write(g, _) => Failure(CAL_STAGE_WRITES, CAL_SUBSTAGE_WRITES_CENTER, g)
    case ReadBack(_, r) => Failure(CAL_STAGE_VFIFO_AFTER_WRITES, CAL_SUBSTAGE_VFIFO_CENTER, r)
    case Latency => Failure(CAL_STAGE_LFIFO, CAL_SUBSTAGE_READ_LATENCY, 0xff)
  }

  function RunsAt(w: Work, at: Place): seq<Deskewed> {
    match at
    case Read(_, r) => w.vfifo(r).runs
    case Write(g, sr) => [w.writes(g, sr)]
    case ReadBack(_, r) => w.vfifoEnd(r)
    case Latency => []
  }

  predicate FailsAt(w: Work, at: Place) {
    match at
    case Read(_, r) => !w.vfifo(r).calibrated
    case Write(g, sr) => !w.writes(g, sr).Passed?
    case ReadBack(_, r) => !AllPassed(w.vfifoEnd(r))
    case Latency => !w.foundLatency
  }

  /** The stage there reports something. */
  predicate NoisyAt(w: Work, at: Place) {
    FailsAt(w, at) || !NoneMissed(RunsAt(w, at))
  }

  /** A pin without a window is reported where it is found, before the stage's own failure. */
  ghost predicate ReportedFirst(w: Work, at: Place, f: Failure) {
    var own := OwnFailure(w, at);
    var substage := if at.Read? then CAL_SUBSTAGE_VFIFO_CENTER else own.substage;
    && (forall i | FirstMissed(RunsAt(w, at), i) :: f == Failure(own.stage, substage, RunsAt(w, at)[i].pin))
    && (NoneMissed(RunsAt(w, at)) ==> f == own)
  }

  function StageAt(w: Work, at: Place): Stage {
    match at
    case Read(_, r) => Vfifo(w.vfifo(r), r)
    case Write(g, sr) => Writes(w.writes(g, sr), g)
    case ReadBack(_, r) => VfifoEnd(w.vfifoEnd(r), r)
    case Latency => Lfifo(w.foundLatency)
  }

  /** The four exits: who is reported first, and that a failing stage reports itself last. */
  lemma ExitReports(w: Work, at: Place)
    ensures var o := StageAt(w, at);
            && o.pass == !FailsAt(w, at)
            && (o.reports != [] <==> NoisyAt(w, at))
            && (NoisyAt(w, at) ==> ReportedFirst(w, at, o.reports[0]))
            && (FailsAt(w, at) ==> o.reports[|o.reports| - 1] == OwnFailure(w, at))
  {
    var runs, own := RunsAt(w, at), OwnFailure(w, at);
    var substage := if at.Read? then CAL_SUBSTAGE_VFIFO_CENTER else own.substage;
    assert StageAt(w, at) == Exit(Reported(own.stage, substage, runs), !FailsAt(w, at), own);
    if NoneMissed(runs) {
      NothingReported(own.stage, substage, runs);
    } else {
      var i := FindMissed(runs);
      MissIsReported(own.stage, substage, runs, i);
      assert forall j | FirstMissed(runs, j) :: j == i;
    }
  }

  lemma {:induction false} FindMissed(runs: seq<Deskewed>) returns (i: int)
    requires !NoneMissed(runs)
    ensures FirstMissed(runs, i)
    decreases |runs|
  {
    var n := |runs| - 1;
    if NoneMissed(runs[..n]) {
      i := n;
    } else {
      i := FindMissed(runs[..n]);
    }
  }

  /** The stage belongs to a run: its group, shadow register or, for the latency, none at all is skipped. */
  ghost predicate InRun(c: Config, at: Place)
    requires c.writeGroups > 0
  {
    match at
    case Read(g, r) => g < c.writeGroups && c.Runs(g) && c.FirstRead(g) <= r < c.FirstRead(g + 1)
    case Write(g, sr) => g < c.writeGroups && c.Runs(g) && sr < |c.skipShadow| && !c.skipShadow[sr]
    case ReadBack(g, r) => g < c.writeGroups && c.Runs(g) && c.FirstRead(g) <= r < c.FirstRead(g + 1)
    case Latency => c.skipGroups == Zero()
  }

  /** The order of the stages: group by group, reading, writing and reading back in each, the latency last. */
  predicate Precedes(a: Place, b: Place) {
    match a
    case Latency => false
    case Read(g, r) => b.Latency? || g < b.group || (g == b.group && (!b.Read? || r < b.r))
    case Write(g, sr) => b.Latency? || g < b.group || (g == b.group && (b.ReadBack? || (b.Write? && sr < b.sr)))
    case ReadBack(g, r) => b.Latency? || g < b.group || (g == b.group && b.ReadBack? && r < b.r)
  }

  ghost predicate FirstNoisy(w: Work, c: Config, at: Place)
    requires c.writeGroups > 0
  {
    InRun(c, at) && NoisyAt(w, at) && forall b | Precedes(b, at) && InRun(c, b) :: !NoisyAt(w, b)
  }

  ghost predicate FirstFailing(w: Work, c: Config, at: Place)
    requires c.writeGroups > 0
  {
    InRun(c, at) && FailsAt(w, at) && forall b | Precedes(b, at) && InRun(c, b) :: !FailsAt(w, b)
  }

  /** The stage fails, and no stage its group must have passed to get there does; shadow registers are all tried. */
  ghost predicate FailsInGroup(w: Work, c: Config, at: Place)
    requires c.writeGroups > 0
  {
    && InRun(c, at) && FailsAt(w, at) && !at.Latency?
    && forall b | Precedes(b, at) && InRun(c, b) && b.group == at.group && !(b.Write? && at.Write?) :: !FailsAt(w, b)
  }

  function Last(o: Outcome): Failure
    requires o.reports != []
  {
    o.reports[|o.reports| - 1]
  }

  predicate EndsWith(reports: seq<Failure>, f: Failure) {
    reports != [] && reports[|reports| - 1] == f
  }

  /** o begins with what s reports first. */
  predicate BeginsAs(o: Outcome, s: Outcome) {
    o.reports != [] && s.reports != [] && o.reports[0] == s.reports[0]
  }

  /** o fails like s, with the same last report. */
  predicate EndsAs(o: Outcome, s: Outcome) {
    !o.pass && o.reports != [] && s.reports != [] && Last(o) == Last(s)
  }

  predicate Quiet(o: Outcome) {
    o.pass && o.reports == []
  }

  lemma {:induction false} UptoQuiet(f: nat -> Stage, from: nat, end: nat)
    requires forall q | from <= q < end :: f(q).reports == []
    ensures Quiet(Upto(f, from, end))
  {
    if from < end {
      UptoQuiet(f, from, end - 1);
    }
  }

  lemma {:induction false} UptoAt(f: nat -> Stage, from: nat, end: nat, r: nat)
    requires from <= r < end
    ensures (forall q | from <= q < r :: f(q).reports == []) && f(r).reports != []
            ==> BeginsAs(Upto(f, from, end), f(r))
    ensures (forall q | from <= q < r :: f(q).pass) && !f(r).pass ==> EndsAs(Upto(f, from, end), f(r))
  {
    if r < end - 1 {
      UptoAt(f, from, end - 1, r);
    } else {
      UptoPasses(f, from, r);
      if forall q | from <= q < r :: f(q).reports == [] {
        UptoQuiet(f, from, r);
      }
    }
  }

  lemma {:induction false} WritesQuiet(st: Stages, c: Config, g: nat, srs: nat, sweepAll: bool)
    requires srs <= |c.skipShadow| && forall q | 0 <= q < srs && !c.skipShadow[q] :: st.writes(g, q).reports == []
    ensures Quiet(WritesRun(st, c, g, srs, sweepAll))
  {
    if srs > 0 {
      WritesQuiet(st, c, g, srs - 1, sweepAll);
    }
  }

  lemma {:induction false} WritesAt(st: Stages, c: Config, g: nat, srs: nat, sr: nat, sweepAll: bool)
    requires sr < srs <= |c.skipShadow| && !c.skipShadow[sr]
    ensures (forall q | 0 <= q < sr && !c.skipShadow[q] :: st.writes(g, q).reports == []) &&
            st.writes(g, sr).reports != []
            ==> BeginsAs(WritesRun(st, c, g, srs, sweepAll), st.writes(g, sr))
    ensures !sweepAll && (forall q | 0 <= q < sr && !c.skipShadow[q] :: st.writes(g, q).pass) && !st.writes(g, sr).pass
            ==> EndsAs(WritesRun(st, c, g, srs, sweepAll), st.writes(g, sr))
    ensures sweepAll ==> forall f | f in st.writes(g, sr).reports :: f in WritesRun(st, c, g, srs, sweepAll).reports
  {
    if sr < srs - 1 {
      WritesAt(st, c, g, srs - 1, sr, sweepAll);
    } else {
      WritesPass(st, c, g, sr, sweepAll);
      if forall q | 0 <= q < sr && !c.skipShadow[q] :: st.writes(g, q).reports == [] {
        WritesQuiet(st, c, g, sr, sweepAll);
      }
    }
  }

  lemma ThenBegins(a: Outcome, b: Outcome, s: Outcome)
    ensures BeginsAs(a, s) || (Quiet(a) && BeginsAs(b, s)) ==> BeginsAs(Then(a, b), s)
  {
  }

  lemma ThenEnds(a: Outcome, b: Outcome, s: Outcome)
    ensures EndsAs(a, s) || (a.pass && EndsAs(b, s)) ==> EndsAs(Then(a, b), s)
  {
  }

  /** Every stage of the group before this one is quiet. */
  ghost predicate QuietBefore(w: Work, c: Config, at: Place)
    requires c.writeGroups > 0 && !at.Latency?
  {
    forall b | Precedes(b, at) && InRun(c, b) && b.group == at.group :: !NoisyAt(w, b)
  }

  ghost predicate PassBefore(w: Work, c: Config, at: Place)
    requires c.writeGroups > 0 && !at.Latency?
  {
    forall b | Precedes(b, at) && InRun(c, b) && b.group == at.group :: !FailsAt(w, b)
  }

  /** The reads of a group, before or after writing, as far as they precede a place. */
  lemma ReadsBefore(w: Work, c: Config, at: Place, r: nat)
    requires c.writeGroups > 0 && !at.Latency? && InRun(c, at) && c.FirstRead(at.group) <= r < c.FirstRead(at.group + 1)
    ensures var st := StagesOf(w);
            && st.vfifo(r) == StageAt(w, Read(at.group, r)) && st.vfifoEnd(r) == StageAt(w, ReadBack(at.group, r))
            && (Precedes(Read(at.group, r), at) ==>
                  (QuietBefore(w, c, at) ==> st.vfifo(r).reports == []) && (PassBefore(w, c, at) ==> st.vfifo(r).pass))
            && (Precedes(ReadBack(at.group, r), at) ==>
                  && (QuietBefore(w, c, at) ==> st.vfifoEnd(r).reports == [])
                  && (PassBefore(w, c, at) ==> st.vfifoEnd(r).pass))
  {
    ExitReports(w, Read(at.group, r));
    ExitReports(w, ReadBack(at.group, r));
    assert InRun(c, Read(at.group, r)) && InRun(c, ReadBack(at.group, r));
  }

  lemma WritesBefore(w: Work, c: Config, at: Place, sr: nat)
    requires c.writeGroups > 0 && !at.Latency? && InRun(c, at) && sr < |c.skipShadow| && !c.skipShadow[sr]
    ensures var st := StagesOf(w);
            && st.writes(at.group, sr) == StageAt(w, Write(at.group, sr))
            && (Precedes(Write(at.group, sr), at) ==>
                  && (QuietBefore(w, c, at) ==> st.writes(at.group, sr).reports == [])
                  && (PassBefore(w, c, at) ==> st.writes(at.group, sr).pass))
  {
    ExitReports(w, Write(at.group, sr));
    assert InRun(c, Write(at.group, sr));
  }

  lemma ReadIn(st: Stages, c: Config, g: nat, r: nat, sweepAll: bool)
    requires c.writeGroups > 0 && c.FirstRead(g) <= r < c.FirstRead(g + 1)
    ensures (forall q | c.FirstRead(g) <= q < r :: st.vfifo(q).reports == []) && st.vfifo(r).reports != []
            ==> BeginsAs(GroupRun(st, c, g, sweepAll), st.vfifo(r))
    ensures (forall q | c.FirstRead(g) <= q < r :: st.vfifo(q).pass) && !st.vfifo(r).pass
            ==> EndsAs(GroupRun(st, c, g, sweepAll), st.vfifo(r))
  {
    UptoAt(st.vfifo, c.FirstRead(g), c.FirstRead(g + 1), r);
  }

  /** All reads before the group's writes are quiet, or pass. */
  ghost predicate ReadsQuiet(f: nat -> Stage, c: Config, g: nat)
    requires c.writeGroups > 0
  {
    forall q | c.FirstRead(g) <= q < c.FirstRead(g + 1) :: f(q).reports == []
  }

  ghost predicate ReadsPass(f: nat -> Stage, c: Config, g: nat)
    requires c.writeGroups > 0
  {
    forall q | c.FirstRead(g) <= q < c.FirstRead(g + 1) :: f(q).pass
  }

  lemma WriteIn(st: Stages, c: Config, g: nat, sr: nat, sweepAll: bool)
    requires c.writeGroups > 0 && sr < |c.skipShadow| && !c.skipShadow[sr]
    ensures ReadsQuiet(st.vfifo, c, g) && st.writes(g, sr).reports != [] &&
            (forall q | 0 <= q < sr && !c.skipShadow[q] :: st.writes(g, q).reports == [])
            ==> BeginsAs(GroupRun(st, c, g, sweepAll), st.writes(g, sr))
    ensures !sweepAll && ReadsPass(st.vfifo, c, g) && !st.writes(g, sr).pass &&
            (forall q | 0 <= q < sr && !c.skipShadow[q] :: st.writes(g, q).pass)
            ==> EndsAs(GroupRun(st, c, g, sweepAll), st.writes(g, sr))
    ensures sweepAll && ReadsPass(st.vfifo, c, g)
            ==> forall f | f in st.writes(g, sr).reports :: f in GroupRun(st, c, g, sweepAll).reports
  {
    var from, end := c.FirstRead(g), c.FirstRead(g + 1);
    UptoPasses(st.vfifo, from, end);
    if ReadsQuiet(st.vfifo, c, g) {
      UptoQuiet(st.vfifo, from, end);
    }
    WritesAt(st, c, g, |c.skipShadow|, sr, sweepAll);
    var a, e := Upto(st.vfifo, from, end), Upto(st.vfifoEnd, from, end);
    var b := WritesRun(st, c, g, |c.skipShadow|, sweepAll);
    ThenBegins(a, Then(b, e), st.writes(g, sr));
    ThenBegins(b, e, st.writes(g, sr));
  }

  lemma ReadBackIn(st: Stages, c: Config, g: nat, r: nat, sweepAll: bool)
    requires c.writeGroups > 0 && c.FirstRead(g) <= r < c.FirstRead(g + 1)
    ensures ReadsQuiet(st.vfifo, c, g) && st.vfifoEnd(r).reports != [] &&
            (forall q | 0 <= q < |c.skipShadow| && !c.skipShadow[q] :: st.writes(g, q).reports == []) &&
            (forall q | c.FirstRead(g) <= q < r :: st.vfifoEnd(q).reports == [])
            ==> BeginsAs(GroupRun(st, c, g, sweepAll), st.vfifoEnd(r))
    ensures ReadsPass(st.vfifo, c, g) && !st.vfifoEnd(r).pass &&
            (forall q | 0 <= q < |c.skipShadow| && !c.skipShadow[q] :: st.writes(g, q).pass) &&
            (forall q | c.FirstRead(g) <= q < r :: st.vfifoEnd(q).pass)
            ==> EndsAs(GroupRun(st, c, g, sweepAll), st.vfifoEnd(r))
  {
    var from, end := c.FirstRead(g), c.FirstRead(g + 1);
    UptoPasses(st.vfifo, from, end);
    WritesPass(st, c, g, |c.skipShadow|, sweepAll);
    UptoAt(st.vfifoEnd, from, end, r);
    if ReadsQuiet(st.vfifo, c, g) &&
       forall q | 0 <= q < |c.skipShadow| && !c.skipShadow[q] :: st.writes(g, q).reports == []
    {
      UptoQuiet(st.vfifo, from, end);
      WritesQuiet(st, c, g, |c.skipShadow|, sweepAll);
    }
    var a, e := Upto(st.vfifo, from, end), Upto(st.vfifoEnd, from, end);
    var b := WritesRun(st, c, g, |c.skipShadow|, sweepAll);
    ThenBegins(a, Then(b, e), st.vfifoEnd(r));
    ThenBegins(b, e, st.vfifoEnd(r));
    ThenEnds(a, Then(b, e), st.vfifoEnd(r));
    ThenEnds(b, e, st.vfifoEnd(r));
  }

  /** What a group reports first, and in the mode that stops at failures last. */
  lemma GroupAt(w: Work, c: Config, at: Place, sweepAll: bool)
    requires c.writeGroups > 0 && !at.Latency? && InRun(c, at)
    ensures QuietBefore(w, c, at) && NoisyAt(w, at) ==>
              BeginsAs(GroupRun(StagesOf(w), c, at.group, sweepAll), StageAt(w, at))
    ensures !sweepAll && PassBefore(w, c, at) && FailsAt(w, at) ==>
              EndsAs(GroupRun(StagesOf(w), c, at.group, sweepAll), StageAt(w, at))
  {
    match at
    case Read(_, _) => GroupAtRead(w, c, at, sweepAll);
    case Write(_, _) => GroupAtWrite(w, c, at, sweepAll);
    case ReadBack(_, _) => GroupAtReadBack(w, c, at, sweepAll);
  }

  lemma GroupAtRead(w: Work, c: Config, at: Place, sweepAll: bool)
    requires c.writeGroups > 0 && at.Read? && InRun(c, at)
    ensures QuietBefore(w, c, at) && NoisyAt(w, at) ==>
              BeginsAs(GroupRun(StagesOf(w), c, at.group, sweepAll), StageAt(w, at))
    ensures PassBefore(w, c, at) && FailsAt(w, at) ==>
              EndsAs(GroupRun(StagesOf(w), c, at.group, sweepAll), StageAt(w, at))
  {
    var st := StagesOf(w);
    forall q | c.FirstRead(at.group) <= q < at.r
      ensures QuietBefore(w, c, at) ==> st.vfifo(q).reports == []
      ensures PassBefore(w, c, at) ==> st.vfifo(q).pass
    {
      ReadsBefore(w, c, at, q);
    }
    ExitReports(w, at);
    ReadIn(st, c, at.group, at.r, sweepAll);
  }

  lemma AllReadsBefore(w: Work, c: Config, at: Place)
    requires c.writeGroups > 0 && (at.Write? || at.ReadBack?) && InRun(c, at)
    ensures QuietBefore(w, c, at) ==> ReadsQuiet(StagesOf(w).vfifo, c, at.group)
    ensures PassBefore(w, c, at) ==> ReadsPass(StagesOf(w).vfifo, c, at.group)
  {
    forall q | c.FirstRead(at.group) <= q < c.FirstRead(at.group + 1)
      ensures QuietBefore(w, c, at) ==> StagesOf(w).vfifo(q).reports == []
      ensures PassBefore(w, c, at) ==> StagesOf(w).vfifo(q).pass
    {
      ReadsBefore(w, c, at, q);
    }
  }

  lemma GroupAtWrite(w: Work, c: Config, at: Place, sweepAll: bool)
    requires c.writeGroups > 0 && at.Write? && InRun(c, at)
    ensures QuietBefore(w, c, at) && NoisyAt(w, at) ==>
              BeginsAs(GroupRun(StagesOf(w), c, at.group, sweepAll), StageAt(w, at))
    ensures !sweepAll && PassBefore(w, c, at) && FailsAt(w, at) ==>
              EndsAs(GroupRun(StagesOf(w), c, at.group, sweepAll), StageAt(w, at))
  {
    var st, g := StagesOf(w), at.group;
    AllReadsBefore(w, c, at);
    forall q | 0 <= q < at.sr && !c.skipShadow[q]
      ensures QuietBefore(w, c, at) ==> st.writes(g, q).reports == []
      ensures PassBefore(w, c, at) ==> st.writes(g, q).pass
    {
      WritesBefore(w, c, at, q);
    }
    ExitReports(w, at);
    WriteIn(st, c, g, at.sr, sweepAll);
  }

  lemma GroupAtReadBack(w: Work, c: Config, at: Place, sweepAll: bool)
    requires c.writeGroups > 0 && at.ReadBack? && InRun(c, at)
    ensures QuietBefore(w, c, at) && NoisyAt(w, at) ==>
              BeginsAs(GroupRun(StagesOf(w), c, at.group, sweepAll), StageAt(w, at))
    ensures PassBefore(w, c, at) && FailsAt(w, at) ==>
              EndsAs(GroupRun(StagesOf(w), c, at.group, sweepAll), StageAt(w, at))
  {
    var st, g := StagesOf(w), at.group;
    AllReadsBefore(w, c, at);
    forall q | 0 <= q < |c.skipShadow| && !c.skipShadow[q]
      ensures QuietBefore(w, c, at) ==> st.writes(g, q).reports == []
      ensures PassBefore(w, c, at) ==> st.writes(g, q).pass
    {
      WritesBefore(w, c, at, q);
    }
    forall q | c.FirstRead(g) <= q < at.r
      ensures QuietBefore(w, c, at) ==> st.vfifoEnd(q).reports == []
      ensures PassBefore(w, c, at) ==> st.vfifoEnd(q).pass
    {
      ReadsBefore(w, c, at, q);
    }
    ExitReports(w, at);
    ReadBackIn(st, c, g, at.r, sweepAll);
  }

  lemma {:induction false} GroupsQuiet(st: Stages, c: Config, groups: nat, sweepAll: bool)
    requires c.writeGroups > 0 && forall h | 0 <= h < groups && c.Runs(h) :: GroupRun(st, c, h, sweepAll).reports == []
    ensures Quiet(GroupsRun(st, c, groups, sweepAll))
  {
    if groups > 0 {
      GroupsQuiet(st, c, groups - 1, sweepAll);
    }
  }

  lemma {:induction false} GroupsFirst(st: Stages, c: Config, groups: nat, g: nat, sweepAll: bool, s: Outcome)
    requires c.writeGroups > 0 && g < groups && c.Runs(g) && BeginsAs(GroupRun(st, c, g, sweepAll), s)
    requires forall h | 0 <= h < g && c.Runs(h) :: GroupRun(st, c, h, sweepAll).reports == []
    ensures BeginsAs(GroupsRun(st, c, groups, sweepAll), s)
  {
    if g < groups - 1 {
      GroupsFirst(st, c, groups - 1, g, sweepAll, s);
    } else {
      GroupsQuiet(st, c, g, sweepAll);
    }
  }

  lemma {:induction false} GroupsLast(st: Stages, c: Config, groups: nat, g: nat, s: Outcome)
    requires c.writeGroups > 0 && g < groups && c.Runs(g) && EndsAs(GroupRun(st, c, g, false), s)
    requires GroupsRun(st, c, g, false).pass
    ensures EndsAs(GroupsRun(st, c, groups, false), s)
  {
    if g < groups - 1 {
      GroupsLast(st, c, groups - 1, g, s);
    }
  }

  lemma {:induction false} GroupsAll(st: Stages, c: Config, groups: nat, g: nat)
    requires c.writeGroups > 0 && g < groups && c.Runs(g)
    ensures forall f | f in GroupRun(st, c, g, true).reports :: f in GroupsRun(st, c, groups, true).reports
  {
    if g < groups - 1 {
      GroupsAll(st, c, groups - 1, g);
    }
  }

  /** A group none of whose stages is noisy, or fails. */
  ghost predicate GroupIsQuiet(w: Work, c: Config, g: nat)
    requires c.writeGroups > 0
  {
    forall b | InRun(c, b) && !b.Latency? && b.group == g :: !NoisyAt(w, b)
  }

  lemma QuietGroup(w: Work, c: Config, g: nat, sweepAll: bool)
    requires c.writeGroups > 0 && g < c.writeGroups && c.Runs(g) && GroupIsQuiet(w, c, g)
    ensures GroupRun(StagesOf(w), c, g, sweepAll).reports == []
  {
    var st := StagesOf(w);
    forall r | c.FirstRead(g) <= r < c.FirstRead(g + 1)
      ensures st.vfifo(r).reports == [] && st.vfifoEnd(r).reports == []
    {
      assert InRun(c, Read(g, r)) && InRun(c, ReadBack(g, r));
      ExitReports(w, Read(g, r));
      ExitReports(w, ReadBack(g, r));
    }
    forall sr | 0 <= sr < |c.skipShadow| && !c.skipShadow[sr] ensures st.writes(g, sr).reports == [] {
      assert InRun(c, Write(g, sr));
      ExitReports(w, Write(g, sr));
    }
    UptoQuiet(st.vfifo, c.FirstRead(g), c.FirstRead(g + 1));
    WritesQuiet(st, c, g, |c.skipShadow|, sweepAll);
    UptoQuiet(st.vfifoEnd, c.FirstRead(g), c.FirstRead(g + 1));
  }

  /** A group all of whose stages pass, as the run's verdict puts it. */
  lemma PassingGroup(w: Work, c: Config, g: nat)
    requires c.writeGroups > 0 && g < c.writeGroups && c.Runs(g)
    requires forall b | InRun(c, b) && !b.Latency? && b.group == g :: !FailsAt(w, b)
    ensures GroupPasses(StagesOf(w), c, g)
  {
    forall r | c.FirstRead(g) <= r < c.FirstRead(g + 1) ensures w.vfifo(r).calibrated && AllPassed(w.vfifoEnd(r)) {
      assert InRun(c, Read(g, r)) && InRun(c, ReadBack(g, r));
      assert !FailsAt(w, Read(g, r)) && !FailsAt(w, ReadBack(g, r));
    }
    forall sr | 0 <= sr < |c.skipShadow| && !c.skipShadow[sr] ensures w.writes(g, sr).Passed? {
      assert InRun(c, Write(g, sr));
      assert !FailsAt(w, Write(g, sr));
    }
    GroupSucceedsIff(w, c, g);
  }

  /** The first stage of a run that reports anything is the one whose report is remembered. */
  lemma FirstReport(w: Work, c: Config, sweepAll: bool, at: Place)
    requires c.writeGroups > 0 && FirstNoisy(w, c, at)
    ensures var o := Run(StagesOf(w), c, sweepAll); o.reports != [] && ReportedFirst(w, at, o.reports[0])
  {
    var st := StagesOf(w);
    ExitReports(w, at);
    var groups := if at.Latency? then c.writeGroups else at.group;
    forall h | 0 <= h < groups && c.Runs(h) ensures GroupRun(st, c, h, sweepAll).reports == [] {
      assert forall b | InRun(c, b) && !b.Latency? && b.group == h :: Precedes(b, at);
      QuietGroup(w, c, h, sweepAll);
    }
    if at.Latency? {
      GroupsQuiet(st, c, groups, sweepAll);
    } else {
      assert QuietBefore(w, c, at);
      GroupAt(w, c, at, sweepAll);
      GroupsFirst(st, c, c.writeGroups, at.group, sweepAll, StageAt(w, at));
    }
  }

  /** A run none of whose stages is noisy reports nothing. */
  lemma NoReport(w: Work, c: Config, sweepAll: bool)
    requires c.writeGroups > 0 && forall b | InRun(c, b) :: !NoisyAt(w, b)
    ensures Run(StagesOf(w), c, sweepAll).reports == []
  {
    forall h | 0 <= h < c.writeGroups && c.Runs(h) ensures GroupRun(StagesOf(w), c, h, sweepAll).reports == [] {
      QuietGroup(w, c, h, sweepAll);
    }
    GroupsQuiet(StagesOf(w), c, c.writeGroups, sweepAll);
    ExitReports(w, Latency);
    assert c.skipGroups == Zero() ==> InRun(c, Latency);
  }

  /** Where stopping at failures, nothing is reported after the first failing stage. */
  lemma LastReport(w: Work, c: Config, at: Place)
    requires c.writeGroups > 0 && FirstFailing(w, c, at)
    ensures var o := Run(StagesOf(w), c, false); EndsWith(o.reports, OwnFailure(w, at))
  {
    var st := StagesOf(w);
    ExitReports(w, at);
    var groups := if at.Latency? then c.writeGroups else at.group;
    forall h | 0 <= h < groups && c.Runs(h) ensures GroupPasses(st, c, h) {
      assert forall b | InRun(c, b) && !b.Latency? && b.group == h :: Precedes(b, at);
      PassingGroup(w, c, h);
    }
    GroupsPass(st, c, groups, false);
    if !at.Latency? {
      assert PassBefore(w, c, at);
      GroupAt(w, c, at, false);
      GroupsLast(st, c, c.writeGroups, at.group, StageAt(w, at));
    }
  }

  /** Where sweeping all groups, every group that fails reports the stage it got to. */
  lemma EveryGroupReports(w: Work, c: Config, at: Place)
    requires c.writeGroups > 0 && FailsInGroup(w, c, at)
    ensures OwnFailure(w, at) in Run(StagesOf(w), c, true).reports
  {
    var st := StagesOf(w);
    ExitReports(w, at);
    var own := OwnFailure(w, at);
    assert own in StageAt(w, at).reports;
    if at.Write? {
      forall q | c.FirstRead(at.group) <= q < c.FirstRead(at.group + 1) ensures st.vfifo(q).pass {
        assert InRun(c, Read(at.group, q)) && Precedes(Read(at.group, q), at);
        ExitReports(w, Read(at.group, q));
      }
      WriteIn(st, c, at.group, at.sr, true);
    } else {
      assert PassBefore(w, c, at);
      if at.Read? {
        GroupAtRead(w, c, at, true);
      } else {
        GroupAtReadBack(w, c, at, true);
      }
    }
    assert own in GroupRun(st, c, at.group, true).reports;
    GroupsAll(st, c, c.writeGroups, at.group);
  }

  /** What a whole run reports first, last, and for every group. */
  lemma AllReports(w: Work, c: Config, sweepAll: bool)
    requires c.writeGroups > 0
    ensures var o := Run(StagesOf(w), c, sweepAll);
            && (forall at | FirstNoisy(w, c, at) :: o.reports != [] && ReportedFirst(w, at, o.reports[0]))
            && ((forall at | InRun(c, at) :: !NoisyAt(w, at)) ==> o.reports == [])
            && (!sweepAll ==> forall at | FirstFailing(w, c, at) :: EndsWith(o.reports, OwnFailure(w, at)))
            && (sweepAll ==> forall at | FailsInGroup(w, c, at) :: OwnFailure(w, at) in o.reports)
  {
    forall at | FirstNoisy(w, c, at) {
      FirstReport(w, c, sweepAll, at);
    }
    if forall at | InRun(c, at) :: !NoisyAt(w, at) {
      NoReport(w, c, sweepAll);
    }
    forall at | !sweepAll && FirstFailing(w, c, at) {
      LastReport(w, c, at);
    }
    forall at | sweepAll && FailsInGroup(w, c, at) {
      EveryGroupReports(w, c, at);
    }
  }
}
