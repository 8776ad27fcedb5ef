/** What every run keeps about a row's columns: deadlines, schedules and attempt counts. */
module OutboxSchedule {
  import opened Domain
  import opened Messages
  import opened Outbox

  // ----- Deadlines

  /** Columns no statement writes after the insert. */
  predicate SameContract(a: Message, b: Message) {
    a.timeoutAt == b.timeoutAt && a.maxAttempts == b.maxAttempts && a.deletedAt == b.deletedAt
  }

  /** The row is as it was, or was stamped with the time of a change since. */
  predicate Stamped(s: State, s': State, id: MessageId)
    requires id in s.table && id in s'.table
  {
    s'.table[id] == s.table[id] || s.now <= s'.table[id].modifiedAt <= s'.now
  }

  lemma StepKeepsContract(c: Config, s: State, step: Step, id: MessageId)
    requires Enabled(c, s, step) && id in s.table
    ensures var s' := Next(c, s, step);
      s.now <= s'.now && id in s'.table && SameContract(s.table[id], s'.table[id]) && Stamped(s, s', id)
  {}

  /** No run removes a row or changes its deadline or attempt limit, and a row that a run changed
      carries the time of a change in that run. */
  lemma {:induction false} ContractNeverChanges(c: Config, s: State, steps: seq<Step>, id: MessageId)
    requires Run(c, s, steps).Some? && id in s.table
    ensures var s' := Run(c, s, steps).value;
      s.now <= s'.now && id in s'.table && SameContract(s.table[id], s'.table[id]) && Stamped(s, s', id)
    decreases |steps|
  {
    if steps != [] {
      ContractNeverChanges(c, s, ButLast(steps), id);
      StepKeepsContract(c, Run(c, s, ButLast(steps)).value, Last(steps), id);
    }
  }

  /** Past its deadline a row is never claimed again, whatever is done to it: a Resend or a PUT
      of an overdue row revives it in name only. */
  lemma OverdueIsNeverClaimed(c: Config, s: State, steps: seq<Step>, id: MessageId)
    requires Run(c, s, steps).Some? && id in s.table && Overdue(s.table[id], s.now)
    ensures var s' := Run(c, s, steps).value;
      forall w, locked :: !Enabled(c, s', Claim(w, id, locked))
  {
    ContractNeverChanges(c, s, steps, id);
  }

  predicate ClaimsInTime(s: State) {
    forall k | 0 <= k < |s.log| && s.log[k].RowClaimed? ::
      s.log[k].id in s.table && s.log[k].at <= s.now && !Overdue(s.table[s.log[k].id], s.log[k].at)
  }

  lemma StepKeepsInTime(c: Config, s: State, step: Step)
    requires ClaimsInTime(s) && Enabled(c, s, step)
    ensures ClaimsInTime(Next(c, s, step))
  {
    var s' := Next(c, s, step);
    assert |s'.log| <= |s.log| + 1 && s.log == s'.log[..|s.log|];
    forall k | 0 <= k < |s'.log| && s'.log[k].RowClaimed?
      ensures s'.log[k].id in s'.table && s'.log[k].at <= s'.now
      ensures !Overdue(s'.table[s'.log[k].id], s'.log[k].at)
    {
      if k < |s.log| { assert s'.log[k] == s.log[k]; }
    }
  }

  /** No claim of any run, Resend and every operator PUT included, returned a row at or after
      its deadline. */
  lemma {:induction false} NoClaimPastDeadline(c: Config, s: State, steps: seq<Step>)
    requires ClaimsInTime(s) && Run(c, s, steps).Some?
    ensures ClaimsInTime(Run(c, s, steps).value)
    decreases |steps|
  {
    if steps != [] {
      NoClaimPastDeadline(c, s, ButLast(steps));
      StepKeepsInTime(c, Run(c, s, ButLast(steps)).value, Last(steps));
    }
  }

  // ----- Schedules

  function Horizon(c: Config): nat {
    if c.lease > c.maxBackoff then c.lease else c.maxBackoff
  }

  predicate WithinHorizon(c: Config, s: State) {
    && (forall id | id in s.table :: s.table[id].nextAttemptAt <= s.now + Horizon(c) && s.table[id].deletedAt.None?)
    && (forall w | w in s.live && s.live[w].phase.Failing? :: s.live[w].phase.next <= s.now + Horizon(c))
  }

  lemma RowWithinHorizon(c: Config, s: State, step: Step, id: MessageId)
    requires WithinHorizon(c, s) && Enabled(c, s, step) && id in Next(c, s, step).table
    ensures var s' := Next(c, s, step);
      s'.table[id].nextAttemptAt <= s'.now + Horizon(c) && s'.table[id].deletedAt.None?
  {}

  lemma DispatchWithinHorizon(c: Config, s: State, step: Step, w: DispatchId)
    requires WithinHorizon(c, s) && Enabled(c, s, step)
    requires w in Next(c, s, step).live && Next(c, s, step).live[w].phase.Failing?
    ensures Next(c, s, step).live[w].phase.next <= Next(c, s, step).now + Horizon(c)
  {}

  lemma {:induction false} SchedulesStayWithinHorizon(c: Config, s: State, steps: seq<Step>)
    requires WithinHorizon(c, s) && Run(c, s, steps).Some?
    ensures WithinHorizon(c, Run(c, s, steps).value)
    decreases |steps|
  {
    if steps != [] {
      SchedulesStayWithinHorizon(c, s, ButLast(steps));
      var mid, step := Run(c, s, ButLast(steps)).value, Last(steps);
      var end := Next(c, mid, step);
      forall id | id in end.table
        ensures end.table[id].nextAttemptAt <= end.now + Horizon(c) && end.table[id].deletedAt.None?
      {
        RowWithinHorizon(c, mid, step, id);
      }
      forall w | w in end.live && end.live[w].phase.Failing? ensures end.live[w].phase.next <= end.now + Horizon(c) {
        DispatchWithinHorizon(c, mid, step, w);
      }
    }
  }

  /** A PENDING or SENDING row that is left alone for longer than the lease and the largest
      backoff can be claimed or swept, whatever crashed and whatever operators did elsewhere. */
  lemma LeftAloneIsRecovered(c: Config, before: seq<Step>, after: seq<Step>, id: MessageId)
    requires Run(c, Init(), before).Some?
    requires Run(c, Run(c, Init(), before).value, after).Some?
    requires var s := Run(c, Init(), before).value; var s' := Run(c, s, after).value;
      && id in s.table && id in s'.table && s.table[id] == s'.table[id]
      && (s.table[id].status.Pending? || s.table[id].status.Sending?)
      && s'.now > s.now + Horizon(c)
    ensures var s' := Run(c, Run(c, Init(), before).value, after).value;
      Eligible(s'.table[id], s'.now) || Reapable(s'.table[id], s'.now)
  {
    SchedulesStayWithinHorizon(c, Init(), before);
  }

  // ----- Attempt counts

  /** Claims of the message since it was last resent. */
  function ClaimsSinceResend(log: seq<Event>, id: MessageId): nat
    decreases |log|
  {
    if log == [] || Last(log) == RowResent(id) then 0
    else ClaimsSinceResend(ButLast(log), id) + if Last(log).RowClaimed? && Last(log).id == id then 1 else 0
  }

  ghost predicate AttemptsCounted(s: State) {
    forall id :: ClaimsSinceResend(s.log, id) == if id in s.table then s.table[id].attempts else 0
  }

  lemma StepCountsClaims(c: Config, s: State, step: Step)
    requires AttemptsCounted(s) && Enabled(c, s, step)
    ensures AttemptsCounted(Next(c, s, step))
  {
    var s' := Next(c, s, step);
    if s'.log != s.log {
      assert ButLast(s'.log) == s.log;
    }
  }

  /** In every run `attempts` is the number of claims since the last Resend; neither the sweep,
      nor an operator PUT, nor a lost write touches it. */
  lemma {:induction false} AttemptsCountClaims(c: Config, s: State, steps: seq<Step>)
    requires AttemptsCounted(s) && Run(c, s, steps).Some?
    ensures AttemptsCounted(Run(c, s, steps).value)
    decreases |steps|
  {
    if steps != [] {
      AttemptsCountClaims(c, s, ButLast(steps));
      StepCountsClaims(c, Run(c, s, ButLast(steps)).value, Last(steps));
    }
  }

  /** All of this from boot: an empty table and no dispatch. */
  lemma EveryRunFromBoot(c: Config, steps: seq<Step>)
    requires Run(c, Init(), steps).Some?
    ensures var s := Run(c, Init(), steps).value;
      ClaimsInTime(s) && WithinHorizon(c, s) && AttemptsCounted(s)
  {
    NoClaimPastDeadline(c, Init(), steps);
    SchedulesStayWithinHorizon(c, Init(), steps);
    AttemptsCountClaims(c, Init(), steps);
  }
}
