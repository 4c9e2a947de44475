/** The calibration driver: it runs the stages, returns the verdict, and remembers the first failure reported. */
module MemCalibrate {
  import opened BitFields
  import opened CalibrationStages
  import opened CalibrationReports

  class Status {
    var errorStage: nat
    var errorSubstage: nat
    var errorGroup: nat
    ghost var reports: seq<Failure>

    /** The first failure reported is the one remembered. */
    ghost predicate Valid()
      reads this
    {
      && (forall f | f in reports :: f.stage != CAL_STAGE_NIL)
      && if reports == [] then errorStage == CAL_STAGE_NIL
         else Failure(errorStage, errorSubstage, errorGroup) == reports[0]
    }

    constructor ()
      ensures Valid() && reports == []
    {
      errorStage, errorSubstage, errorGroup, reports := CAL_STAGE_NIL, 0, 0xff, [];
    }

    method SetFailing(f: Failure)
      requires Valid() && f.stage != CAL_STAGE_NIL
      modifies this
      ensures Valid() && reports == old(reports) + [f]
    {
      if errorStage == CAL_STAGE_NIL {
        errorSubstage, errorStage, errorGroup := f.substage, f.stage, f.group;
      }
      reports := reports + [f];
    }

    /** Runs one stage: whatever it reports is recorded in order. */
    method Perform(s: Stage) returns (pass: bool)
      requires Valid()
      modifies this
      ensures Valid() && reports == old(reports) + s.reports && pass == s.pass
    {
      var i := 0;
      while i < |s.reports|
        invariant 0 <= i <= |s.reports|
        invariant Valid() && reports == old(reports) + s.reports[..i]
      {
        SetFailing(s.reports[i]);
        i := i + 1;
      }
      pass := s.pass;
    }

    /** The stages of read groups [from, end) until one fails. */
    method Reads(f: nat -> Stage, from: nat, end: nat) returns (pass: bool)
      requires Valid()
      modifies this
      ensures Valid() && pass == Upto(f, from, end).pass
      ensures reports == old(reports) + Upto(f, from, end).reports
    {
      pass := true;
      var readGroup := from;
      while readGroup < end && pass
        invariant from <= readGroup && (readGroup <= end || readGroup == from)
        invariant Valid() && pass == Upto(f, from, readGroup).pass
        invariant reports == old(reports) + Upto(f, from, readGroup).reports
        decreases end - readGroup
      {
        pass := Perform(f(readGroup));
        readGroup := readGroup + 1;
      }
      FailureStays(f, from, readGroup, end);
    }

    method Writes(st: Stages, c: Config, g: nat, sweepAll: bool) returns (pass: bool)
      requires Valid()
      modifies this
      ensures Valid() && pass == WritesRun(st, c, g, |c.skipShadow|, sweepAll).pass
      ensures reports == old(reports) + WritesRun(st, c, g, |c.skipShadow|, sweepAll).reports
    {
      pass := true;
      var sr := 0;
      while sr < |c.skipShadow|
        invariant 0 <= sr <= |c.skipShadow|
        invariant Valid() && pass == WritesRun(st, c, g, sr, sweepAll).pass
        invariant reports == old(reports) + WritesRun(st, c, g, sr, sweepAll).reports
        invariant pass || sweepAll
      {
        if !c.skipShadow[sr] {
          var ok := Perform(st.writes(g, sr));
          if !ok {
            pass := false;
            if !sweepAll {
              WriteFailureStays(st, c, g, sr + 1, |c.skipShadow|);
              return;
            }
          }
        }
        sr := sr + 1;
      }
    }

    method Group(st: Stages, c: Config, g: nat, sweepAll: bool) returns (pass: bool)
      requires Valid() && c.writeGroups > 0
      modifies this
      ensures Valid() && pass == GroupRun(st, c, g, sweepAll).pass
      ensures reports == old(reports) + GroupRun(st, c, g, sweepAll).reports
    {
      var from := g * c.readGroups / c.writeGroups;
      var end := (g + 1) * c.readGroups / c.writeGroups;
      pass := Reads(st.vfifo, from, end);
      if pass {
        pass := Writes(st, c, g, sweepAll);
      }
      if pass {
        pass := Reads(st.vfifoEnd, from, end);
      }
    }

    /** Full calibration; `sweepAll` goes on with the other groups after one has failed. */
    method Calibrate(w: Work, c: Config, sweepAll: bool) returns (ok: bool)
      requires c.writeGroups > 0
      modifies this
      ensures Valid() && reports == Run(StagesOf(w), c, sweepAll).reports && ok == Run(StagesOf(w), c, sweepAll).pass
      ensures ok <==> && (forall g | 0 <= g < c.writeGroups && c.Runs(g) :: GroupSucceeds(w, c, g))
                      && (c.skipGroups == Zero() ==> w.foundLatency)
      ensures !ok ==> errorStage != CAL_STAGE_NIL
      ensures forall at | FirstNoisy(w, c, at) :: ReportedFirst(w, at, Failure(errorStage, errorSubstage, errorGroup))
      ensures (forall at | InRun(c, at) :: !NoisyAt(w, at)) ==> errorStage == CAL_STAGE_NIL
      ensures !sweepAll ==> forall at | FirstFailing(w, c, at) :: EndsWith(reports, OwnFailure(w, at))
      ensures sweepAll ==> forall at | FailsInGroup(w, c, at) :: OwnFailure(w, at) in reports
    {
      ok := RunAll(StagesOf(w), c, sweepAll);
      Success(w, c, sweepAll);
      AllReports(w, c, sweepAll);
    }

    method RunAll(st: Stages, c: Config, sweepAll: bool) returns (ok: bool)
      requires c.writeGroups > 0
      modifies this
      ensures Valid() && reports == Run(st, c, sweepAll).reports && ok == Run(st, c, sweepAll).pass
    {
      errorSubstage, errorStage, errorGroup, reports := 0, CAL_STAGE_NIL, 0xff, [];
      var runGroups := Not(c.skipGroups);
      var failing := false;
      var g := 0;
      ShrNext(runGroups, 0);
      while g < c.writeGroups
        invariant 0 <= g <= c.writeGroups
        invariant runGroups == Shr(Not(c.skipGroups), g * c.PerGroup())
        invariant Valid() && reports == GroupsRun(st, c, g, sweepAll).reports
        invariant failing == !GroupsRun(st, c, g, sweepAll).pass && (failing ==> sweepAll)
      {
        var currentRun := And(runGroups, Low(c.PerGroup()));
        SliceRuns(c, g, runGroups);
        runGroups := Shr(runGroups, c.PerGroup());
        ShrTwice(Not(c.skipGroups), g * c.PerGroup(), c.PerGroup());
        assert (g + 1) * c.PerGroup() == g * c.PerGroup() + c.PerGroup();
        if currentRun != Zero() {
          var pass := Group(st, c, g, sweepAll);
          if !pass {
            failing := true;
            if !sweepAll {
              GroupFailureStays(st, c, g + 1, c.writeGroups);
              return false;
            }
          }
        }
        g := g + 1;
      }
      if failing {
        return false;
      }
      ok := true;
      if c.skipGroups == Zero() {
        ok := Perform(st.lfifo);
      }
    }
  }

  lemma {:induction false} FailureStays(f: nat -> Stage, from: nat, mid: nat, end: nat)
    ensures !Upto(f, from, mid).pass && mid <= end ==> Upto(f, from, end) == Upto(f, from, mid)
  {
    if mid < end {
      FailureStays(f, from, mid, end - 1);
    }
  }

  lemma {:induction false} WriteFailureStays(st: Stages, c: Config, g: nat, srs: nat, end: nat)
    requires srs <= end <= |c.skipShadow| && !WritesRun(st, c, g, srs, false).pass
    ensures WritesRun(st, c, g, end, false) == WritesRun(st, c, g, srs, false)
  {
    if srs < end {
      WriteFailureStays(st, c, g, srs, end - 1);
    }
  }

  lemma {:induction false} GroupFailureStays(st: Stages, c: Config, groups: nat, end: nat)
    requires c.writeGroups > 0 && groups <= end && !GroupsRun(st, c, groups, false).pass
    ensures GroupsRun(st, c, end, false) == GroupsRun(st, c, groups, false)
  {
    if groups < end {
      GroupFailureStays(st, c, groups, end - 1);
    }
  }

  lemma ShrTwice(a: Field, m: nat, n: nat)
    ensures Shr(Shr(a, m), n) == Shr(a, m + n)
  {
    assert forall k | 0 <= k < WIDTH :: Shr(Shr(a, m), n)[k] == Shr(a, m + n)[k];
  }

  /** The group's slice of the inverted skip word is nonzero exactly if the group is to run. */
  lemma SliceRuns(c: Config, g: nat, runGroups: Field)
    requires c.writeGroups > 0 && runGroups == Shr(Not(c.skipGroups), g * c.PerGroup())
    ensures And(runGroups, Low(c.PerGroup())) != Zero() <==> c.Runs(g)
  {
    var current := And(runGroups, Low(c.PerGroup()));
    NonZero(current);
    forall k | 0 <= k < WIDTH ensures current[k] <==> k < c.PerGroup() && c.Wanted(g, k) {
    }
    if c.Runs(g) {
      var j :| 0 <= j < c.PerGroup() && c.Wanted(g, j);
      assert current[j];
    }
  }
}
