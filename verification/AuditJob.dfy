/** What an integrity audit leaves on its destination and whom it notifies (jobs.py, DestinationReconciliationJob). */
module AuditJob {
  import opened FtpAudit

  /** last_integrity_audit_status; Unset is the empty string of a destination never audited. */
  datatype Status = Unset | Sound | WithProblems | AuditError

  datatype Notice = FailedNotice | RecoveredNotice

  /** What the audit comes to: a result, or an expected destination error. */
  datatype Outcome = Completed(result: Summary) | Refused

  /**
   * How one run of the job ends. There is no transaction around it: it may be Cut, by an exception
   * or the loss of the worker, when the status has been written and the notice not yet queued, and
   * it may have Crashed before the status was written.
   */
  datatype Ending = Full(outcome: Outcome) | Cut(outcome: Outcome) | Crashed

  datatype State = State(status: Status, problems: nat, notices: seq<Notice>)

  predicate Bad(status: Status) { status == WithProblems || status == AuditError }

  function ProblemCount(m: Summary): nat { m.missing + m.sizeMismatches + m.hashMismatches + m.unreadable }

  class Destination {
    var status: Status
    var problems: nat
    var notices: seq<Notice>

    function Value(): State
      reads this
    {
      State(status, problems, notices)
    }

    /** Notifies when the status goes from good to bad or back, and otherwise not. */
    method Run(ending: Ending) returns (ok: bool)
      modifies this
      ensures ok <==> ending.Full? && ending.outcome.Completed?
      ensures ending.Crashed? ==> Value() == old(Value())
      ensures !ending.Crashed? ==>
        && (status.Sound? <==> Succeeds(ending.outcome)) && (status.AuditError? <==> ending.outcome.Refused?)
        && status != Unset && problems == (if ending.outcome.Completed? then ProblemCount(ending.outcome.result) else 0)
        && notices == old(notices) + (if ending.Cut? || Bad(old(status)) == Bad(status) then []
                                      else if Bad(status) then [FailedNotice] else [RecoveredNotice])
      ensures Value() == Step(old(Value()), ending)
    {
      var previous := status;
      if ending.Crashed? { return false; }
      if ending.outcome.Refused? {
        status, problems := AuditError, 0;
        if ending.Cut? { return false; }
        if previous != AuditError && previous != WithProblems { notices := notices + [FailedNotice]; }
        return false;
      }
      var result := ending.outcome.result;
      status := if result.success then Sound else WithProblems;
      problems := ProblemCount(result);
      if ending.Cut? { return false; }
      if result.success && (previous == AuditError || previous == WithProblems) {
        notices := notices + [RecoveredNotice];
      } else if !result.success && previous != AuditError && previous != WithProblems {
        notices := notices + [FailedNotice];
      }
      return true;
    }
  }

  predicate Succeeds(o: Outcome) { o.Completed? && o.result.success }

  function Step(s: State, ending: Ending): State {
    if ending.Crashed? then s
    else
      var status := match ending.outcome
        case Refused => AuditError
        case Completed(m) => if m.success then Sound else WithProblems;
      State(status, if ending.outcome.Completed? then ProblemCount(ending.outcome.result) else 0,
            if ending.Cut? || Bad(status) == Bad(s.status) then s.notices
            else s.notices + [if Bad(status) then FailedNotice else RecoveredNotice])
  }

  // ---- Over all audits of a destination ----

  function After(endings: seq<Ending>): State {
    if endings == [] then State(Unset, 0, []) else Step(After(endings[..|endings| - 1]), endings[|endings| - 1])
  }

  /** The latest audit that wrote a status failed. */
  predicate InIncident(endings: seq<Ending>) {
    endings != [] &&
    (var last := endings[|endings| - 1];
     if last.Crashed? then InIncident(endings[..|endings| - 1]) else !Succeeds(last.outcome))
  }

  /** The last audit began or ended an incident. */
  predicate Turns(endings: seq<Ending>)
    requires endings != []
  {
    InIncident(endings) != InIncident(endings[..|endings| - 1])
  }

  /** The number of unbroken stretches of failing audits. */
  function Incidents(endings: seq<Ending>): nat {
    if endings == [] then 0
    else Incidents(endings[..|endings| - 1]) + if Turns(endings) && InIncident(endings) then 1 else 0
  }

  /** How many of the audits that began or ended an incident were cut before their notice. */
  function Lost(endings: seq<Ending>): nat {
    if endings == [] then 0
    else Lost(endings[..|endings| - 1]) + if Turns(endings) && endings[|endings| - 1].Cut? then 1 else 0
  }

  /** Audit i began or ended an incident and was not cut. */
  predicate Told(endings: seq<Ending>, i: nat)
    requires i < |endings|
  {
    endings[i].Full? && InIncident(endings[..i + 1]) != InIncident(endings[..i])
  }

  /** Each notice that was sent comes after an even number of lost ones. */
  ghost predicate LossesPaired(endings: seq<Ending>) {
    forall i | 0 <= i < |endings| && Told(endings, i) :: Lost(endings[..i]) % 2 == 0
  }

  ghost predicate Alternate(notices: seq<Notice>) {
    forall i | 0 <= i < |notices| :: notices[i] == FailedNotice <==> i % 2 == 0
  }

  lemma AlternateGrows(notices: seq<Notice>, n: Notice)
    ensures Alternate(notices + [n]) <==> Alternate(notices) && (n == FailedNotice <==> |notices| % 2 == 0)
  {
    var grown := notices + [n];
    assert grown[|notices|] == n;
    if Alternate(grown) {
      forall i | 0 <= i < |notices| ensures notices[i] == FailedNotice <==> i % 2 == 0 {
        assert grown[i] == notices[i];
      }
    }
  }

  lemma PairedGrows(before: seq<Ending>, last: Ending)
    ensures LossesPaired(before + [last]) <==>
      LossesPaired(before) && (Told(before + [last], |before|) ==> Lost(before) % 2 == 0)
  {
    var all, n := before + [last], |before|;
    assert all[..n] == before && all[..n + 1] == all;
    forall i | 0 <= i < n ensures (Told(all, i) <==> Told(before, i)) && all[..i] == before[..i] {
      assert all[..i] == before[..i] && all[..i + 1] == before[..i + 1];
    }
    if LossesPaired(all) {
      forall i | 0 <= i < n && Told(before, i) ensures Lost(before[..i]) % 2 == 0 {
        assert Told(all, i) && all[..i] == before[..i];
      }
    }
  }

  /** The status is bad exactly during an incident, and the notices are those of its turns that were not lost. */
  lemma {:induction false} NoticesCounted(endings: seq<Ending>)
    ensures Bad(After(endings).status) <==> InIncident(endings)
    ensures |After(endings).notices| + Lost(endings) == 2 * Incidents(endings) - (if InIncident(endings) then 1 else 0)
  {
    if endings != [] { NoticesCounted(endings[..|endings| - 1]); }
  }

  /** One audit keeps the notices alternating exactly if what it sends, if anything, is their turn. */
  lemma StepAlternates(s: State, e: Ending)
    ensures var m := Step(s, e);
      Alternate(m.notices) <==>
        Alternate(s.notices)
        && (e.Full? && Bad(m.status) != Bad(s.status) ==> (Bad(m.status) <==> |s.notices| % 2 == 0))
  {
    AlternateGrows(s.notices, FailedNotice);
    AlternateGrows(s.notices, RecoveredNotice);
  }

  /**
   * The notices of a series of audits alternate, starting with a failure, if and only if the turns
   * whose notices were lost are paired: each notice that was sent comes after an even number of
   * lost ones.
   */
  lemma {:induction false} NoticesAlternate(endings: seq<Ending>)
    ensures Alternate(After(endings).notices) <==> LossesPaired(endings)
  {
    if endings != [] {
      var before, last := endings[..|endings| - 1], endings[|endings| - 1];
      assert endings == before + [last] && endings[..|before| + 1] == endings;
      NoticesAlternate(before);
      NoticesCounted(before);
      NoticesCounted(endings);
      PairedGrows(before, last);
      StepAlternates(After(before), last);
    }
  }

  /** A failing audit cut before its notice, and then a clean one: all that is heard is a recovery. */
  lemma CutHidesFailure(clean: Summary)
    requires clean.success
    ensures var endings := [Cut(Refused), Full(Completed(clean))];
      After(endings).notices == [RecoveredNotice] && !Alternate(After(endings).notices) && !LossesPaired(endings)
  {
    var first, both := [Cut(Refused)], [Cut(Refused), Full(Completed(clean))];
    assert first[..0] == [] && both[..1] == first;
    assert After(first) == Step(State(Unset, 0, []), Cut(Refused));
    assert After(both) == Step(After(first), Full(Completed(clean)));
    NoticesAlternate(both);
  }

  /** A completed audit, cut or not, leaves the number of problems, and a sound status exactly if there is none. */
  lemma StatusMatchesFindings(s: State, ending: Ending, m: Summary, log: seq<Finding>, limit: int)
    requires ending == Full(Completed(m)) || ending == Cut(Completed(m))
    requires Reports(m, log, limit) && (m.success <==> Problems(log) == [])
    ensures var after := Step(s, ending);
      && after.problems == |Problems(log)| && (after.status == Sound <==> after.problems == 0)
      && m.checkedFiles == Count(log, Fine) + after.problems
  {
    Conserved(m, log, limit);
  }
}
