// The cron scheduler (internal/web/scheduler.go). The cron library is an oracle: `next` is the least
// occurrence after an instant, or nothing when no occurrence is left, in which case the library
// answers with the zero time.
module Scheduler {
  import opened Prelude

  datatype Cron = Cron(parses: string -> bool, occurs: (string, int) -> bool, next: (string, int) -> Option<int>)

  /** lastRunAt is None while it is the zero time. */
  datatype Schedule = Schedule(id: string, createdAt: int, cron: string, enabled: bool, lastRunAt: Option<int>)

  /** What the store answers when a schedule fires. */
  datatype Answer = Answer(plan: Stored, lastRun: Stored)

  const LISTED: nat := 200

  ghost predicate Lawful(c: Cron) {
    forall s, t :: LawfulAt(c, s, t)
  }

  ghost predicate LawfulAt(c: Cron, s: string, t: int) {
    match c.next(s, t)
    case Some(u) => t < u && c.occurs(s, u) && forall v :: t < v < u ==> !c.occurs(s, v)
    case None => forall v :: t < v ==> !c.occurs(s, v)
  }

  function Last(s: Schedule): (last: int) {
    if s.lastRunAt.None? then s.createdAt else s.lastRunAt.value
  }

  /** `!next.After(now)`: the zero time, answered when nothing is left, is never after now. */
  predicate Due(c: Cron, s: Schedule, now: int) {
    s.enabled && var u := c.next(s.cron, Last(s)); u.None? || u.value <= now
  }

  /** One poll of one schedule: when, and what the store answers if it fires. */
  datatype Poll = Poll(now: int, answer: Answer)

  /** Does the poll create a plan? The plan comes before the last-run write. */
  predicate Creates(c: Cron, s: Schedule, p: Poll) {
    c.parses(s.cron) && Due(c, s, p.now) && p.answer.plan.Applied()
  }

  /** The schedule afterwards: only a last-run write that takes effect moves it, and it is issued only when
      the plan was created without error. */
  function Answered(c: Cron, s: Schedule, p: Poll): (s1: Schedule) {
    if c.parses(s.cron) && Due(c, s, p.now) && p.answer.plan.Ok() && p.answer.lastRun.Applied()
    then s.(lastRunAt := Some(p.now)) else s
  }

  /** The ids fired by an error-free run, in listing order. */
  function Fired(c: Cron, schedules: seq<Schedule>, now: int): (ids: seq<string>) {
    if schedules == [] then []
    else
      var n := |schedules| - 1;
      Fired(c, schedules[..n], now) + if Due(c, schedules[n], now) then [schedules[n].id] else []
  }

  lemma FiredNone(c: Cron, now: int)
    ensures Fired(c, [], now) == []
  {
  }

  lemma FiredSnoc(c: Cron, schedules: seq<Schedule>, i: nat, now: int)
    requires i < |schedules|
    ensures Fired(c, schedules[..i + 1], now) ==
            if Due(c, schedules[i], now) then Fired(c, schedules[..i], now) + [schedules[i].id]
            else Fired(c, schedules[..i], now)
  {
    assert schedules[..i + 1][..i] == schedules[..i];
  }

  lemma Firing(c: Cron, s: Schedule, p: Poll)
    ensures Due(c, s, p.now) <==>
            && s.enabled
            && var next := c.next(s.cron, if s.lastRunAt.None? then s.createdAt else s.lastRunAt.value);
               next.None? || next.value <= p.now
    ensures Creates(c, s, p) <==> c.parses(s.cron) && Due(c, s, p.now) && p.answer.plan.Applied()
  {
  }

  /** Nothing about the schedule stops a run. */
  ghost predicate Smooth(c: Cron, s: Schedule, now: int, a: Answer) {
    s.enabled ==> c.parses(s.cron) && (Due(c, s, now) ==> a.plan == Saved && a.lastRun == Saved)
  }

  class CronScheduler {
    const cron: Cron
    var schedules: seq<Schedule>
    var plans: seq<string>

    constructor (cron: Cron, schedules: seq<Schedule>)
      ensures this.cron == cron && this.schedules == schedules && plans == []
    {
      this.cron, this.schedules, plans := cron, schedules, [];
    }

    /** One turn of the loop: it stops with an error exactly if an enabled schedule does not parse, or is due and
        one of its two writes reports an error. */
    method RunSchedule(i: nat, now: int, a: Answer) returns (fired: bool, ok: bool)
      requires i < |schedules|
      modifies this
      ensures schedules == old(schedules)[i := Answered(cron, old(schedules)[i], Poll(now, a))]
      ensures plans == old(plans) +
                       if Creates(cron, old(schedules)[i], Poll(now, a)) then [old(schedules)[i].id] else []
      ensures ok <==> var s := old(schedules)[i];
                      s.enabled ==> cron.parses(s.cron) && (Due(cron, s, now) ==> a.plan == Saved && a.lastRun == Saved)
      ensures fired <==> ok && Due(cron, old(schedules)[i], now)
    {
      var s := schedules[i];
      Firing(cron, s, Poll(now, a));
      hide Due, Creates, Last;
      if !s.enabled { return false, true; }
      if !cron.parses(s.cron) { return false, false; }
      var last := if s.lastRunAt.None? then s.createdAt else s.lastRunAt.value;
      var next := cron.next(s.cron, last);
      if next.Some? && next.value > now { return false, true; }
      if a.plan.Applied() { plans := plans + [s.id]; }
      if !a.plan.Ok() { return false, false; }
      if a.lastRun.Applied() { schedules := schedules[i := s.(lastRunAt := Some(now))]; }
      if !a.lastRun.Ok() { return false, false; }
      return true, true;
    }

    /** The first 200 schedules are listed and run one after the other, up to and including the first that stops
        with an error; nothing after it is touched. */
    method RunOnce(now: int, answers: seq<Answer>) returns (count: nat, ok: bool, done: nat)
      requires |answers| == |schedules|
      modifies this
      ensures |schedules| == |old(schedules)| && done <= |schedules|
      ensures ok ==> done == if |schedules| < 200 then |schedules| else 200
      ensures forall i :: 0 <= i < |schedules| ==>
                schedules[i] ==
                if i < done || (i == done && !ok) then Answered(cron, old(schedules)[i], Poll(now, answers[i]))
                else old(schedules)[i]
      ensures forall i :: 0 <= i < done ==> Smooth(cron, old(schedules)[i], now, answers[i])
      ensures !ok ==> done < |schedules| && !Smooth(cron, old(schedules)[done], now, answers[done])
      ensures count == |Fired(cron, old(schedules)[..done], now)|
      ensures plans == old(plans) + Fired(cron, old(schedules)[..done], now) +
                       if !ok && Creates(cron, old(schedules)[done], Poll(now, answers[done]))
                       then [old(schedules)[done].id] else []
    {
      hide Fired, Due, Creates, Last, Answered;
      assert Fired(cron, old(schedules)[..0], now) == [] by { FiredNone(cron, now); }
      var listed := if |schedules| < LISTED then |schedules| else LISTED;
      count, done := 0, 0;
      while done < listed
        invariant done <= listed <= |schedules| == |old(schedules)|
        invariant forall i :: 0 <= i < |schedules| ==>
                    schedules[i] ==
                    if i < done then Answered(cron, old(schedules)[i], Poll(now, answers[i])) else old(schedules)[i]
        invariant forall i :: 0 <= i < done ==> Smooth(cron, old(schedules)[i], now, answers[i])
        invariant plans == old(plans) + Fired(cron, old(schedules)[..done], now)
        invariant count == |Fired(cron, old(schedules)[..done], now)|
      {
        FiredSnoc(cron, old(schedules), done, now);
        Firing(cron, schedules[done], Poll(now, answers[done]));
        var fired, fine := RunSchedule(done, now, answers[done]);
        if !fine { return count, false, done; }
        if fired { count := count + 1; }
        done := done + 1;
      }
      ok := true;
    }
  }

  // ---------------------------------------------------------------- when a schedule is due

  /** A schedule is due exactly if it is enabled and has an occurrence by now, after its last run or, if it never ran,
      after its creation; or has no occurrence left at all. */
  lemma DueIff(c: Cron, s: Schedule, now: int)
    requires Lawful(c)
    ensures var last := match s.lastRunAt { case None => s.createdAt case Some(t) => t };
            Due(c, s, now) <==>
            && s.enabled
            && (|| (exists u :: last < u <= now && c.occurs(s.cron, u))
                || (forall u :: last < u ==> !c.occurs(s.cron, u)))
  {
    assert LawfulAt(c, s.cron, Last(s));
  }

  /** `at` are the positions of the due schedules, in order. */
  ghost predicate DueAt(c: Cron, schedules: seq<Schedule>, now: int, ids: seq<string>, at: seq<nat>) {
    && |at| == |ids|
    && (forall j :: 0 <= j < |at| ==> at[j] < |schedules| && ids[j] == schedules[at[j]].id)
    && (forall j, k :: 0 <= j < k < |at| ==> at[j] < at[k])
    && (forall i :: 0 <= i < |schedules| ==> (i in at <==> Due(c, schedules[i], now)))
  }

  lemma DueAtSnoc(c: Cron, schedules: seq<Schedule>, s: Schedule, now: int, ids: seq<string>, at: seq<nat>)
    requires DueAt(c, schedules, now, ids, at)
    ensures Due(c, s, now) ==> DueAt(c, schedules + [s], now, ids + [s.id], at + [|schedules|])
    ensures !Due(c, s, now) ==> DueAt(c, schedules + [s], now, ids, at)
  {
    hide Due;
    var n, all := |schedules|, schedules + [s];
    assert forall i :: 0 <= i < n ==> all[i] == schedules[i];
    assert forall i :: i in at ==> i < n;
  }

  /** An error-free run fires exactly the due schedules, each once and in listing order. */
  lemma {:induction false} FiredAreDue(c: Cron, schedules: seq<Schedule>, now: int) returns (at: seq<nat>)
    ensures DueAt(c, schedules, now, Fired(c, schedules, now), at)
  {
    at := [];
    if schedules != [] {
      hide Due, DueAt;
      var n := |schedules| - 1;
      var past := FiredAreDue(c, schedules[..n], now);
      DueAtSnoc(c, schedules[..n], schedules[n], now, Fired(c, schedules[..n], now), past);
      assert schedules[..n] + [schedules[n]] == schedules;
      at := if Due(c, schedules[n], now) then past + [n] else past;
      assert Fired(c, schedules[..n], now) + [] == Fired(c, schedules[..n], now);
    }
  }

  // ---------------------------------------------------------------- nothing left unserved

  /** Polling an enabled schedule whose writes take effect leaves it no occurrence between its last run and now. */
  lemma NothingUnserved(c: Cron, s: Schedule, p: Poll, u: int)
    requires Lawful(c) && s.enabled && c.parses(s.cron) && p.answer.plan == Saved && p.answer.lastRun != Rejected
    ensures !(Last(Answered(c, s, p)) < u <= p.now && c.occurs(s.cron, u))
  {
    assert LawfulAt(c, s.cron, Last(s));
  }

  // ---------------------------------------------------------------- series of polls

  /** The instants, among the polls of one schedule, at which a plan is created for it. */
  function Fires(c: Cron, s: Schedule, polls: seq<Poll>): (at: seq<int>)
    decreases |polls|
  {
    if polls == [] then []
    else (if Creates(c, s, polls[0]) then [polls[0].now] else []) + Fires(c, Answered(c, s, polls[0]), polls[1..])
  }

  ghost predicate Ordered(from: int, polls: seq<Poll>)
    decreases |polls|
  {
    polls != [] ==> from <= polls[0].now && Ordered(polls[0].now, polls[1..])
  }

  ghost predicate OccursIn(c: Cron, spec: string, from: int, to: int) {
    exists u :: from < u <= to && c.occurs(spec, u)
  }

  /** Each plan has an occurrence of its own, after the plan before it (or after `from`): at most one
      plan per occurrence, missed occurrences coalescing into one. */
  ghost predicate Backed(c: Cron, spec: string, from: int, fires: seq<int>)
    decreases |fires|
  {
    fires != [] ==> OccursIn(c, spec, from, fires[0]) && Backed(c, spec, fires[0], fires[1..])
  }

  /** The schedule never runs out of occurrences. */
  ghost predicate Endless(c: Cron, s: Schedule) {
    forall t :: Last(s) <= t ==> c.next(s.cron, t).Some?
  }

  /** A plan that is created is so without error, and the last-run write after it takes effect. */
  predicate Reliable(a: Answer) {
    a.plan.Applied() ==> a.plan.Ok() && a.lastRun.Applied()
  }

  ghost predicate WritesSucceed(polls: seq<Poll>) {
    forall p :: p in polls ==> Reliable(p.answer)
  }

  lemma {:induction false} EndlessIsBacked(c: Cron, s: Schedule, polls: seq<Poll>, now: int)
    requires Lawful(c) && Last(s) <= now && Ordered(now, polls) && Endless(c, s) && WritesSucceed(polls)
    ensures Backed(c, s.cron, Last(s), Fires(c, s, polls))
    decreases |polls|
  {
    if polls != [] {
      var p := polls[0];
      assert p in polls;
      var s1 := Answered(c, s, p);
      EndlessIsBacked(c, s1, polls[1..], p.now);
      if Creates(c, s, p) {
        assert LawfulAt(c, s.cron, Last(s));
        var u := c.next(s.cron, Last(s)).value;
        assert Last(s) < u <= p.now && c.occurs(s.cron, u);
        assert Fires(c, s, polls)[1..] == Fires(c, s1, polls[1..]);
      } else {
        assert Fires(c, s, polls) == Fires(c, s, polls[1..]);
      }
    }
  }

  /** In particular the first plan of a schedule that never ran has an occurrence after its creation. */
  lemma FirstPlanAfterCreation(c: Cron, s: Schedule, polls: seq<Poll>)
    requires Lawful(c) && s.lastRunAt == None && Ordered(s.createdAt, polls) && Endless(c, s) && WritesSucceed(polls)
    ensures var fires := Fires(c, s, polls);
            fires != [] ==> exists u :: s.createdAt < u <= fires[0] && c.occurs(s.cron, u)
  {
    EndlessIsBacked(c, s, polls, s.createdAt);
  }

  /** A schedule that has run out of occurrences gets a plan at every poll. */
  lemma ExhaustedFiresAnyway(c: Cron, s: Schedule, t: int) returns (polls: seq<Poll>)
    requires Lawful(c) && s.enabled && c.parses(s.cron) && Last(s) <= t && c.next(s.cron, t).None?
    ensures Ordered(Last(s), polls) && WritesSucceed(polls) && !Backed(c, s.cron, Last(s), Fires(c, s, polls))
  {
    var p, q := Poll(t + 1, Answer(Saved, Saved)), Poll(t + 2, Answer(Saved, Saved));
    polls := [p, q];
    assert polls[1..] == [q] && polls[1..][1..] == [];
    assert LawfulAt(c, s.cron, t) && LawfulAt(c, s.cron, Last(s)) && LawfulAt(c, s.cron, t + 1);
    var s1 := Answered(c, s, p);
    assert Creates(c, s, p) && Creates(c, s1, q);
    assert Fires(c, s1, [q]) == [t + 2];
    assert Fires(c, s, polls) == [t + 1, t + 2];
    assert !OccursIn(c, s.cron, t + 1, t + 2);
  }

  /** When a created plan was not confirmed, or the last-run write after it did not take effect, the next
      poll creates a plan again for the same occurrence. */
  lemma FailedWriteFiresAgain(c: Cron, s: Schedule, a: Answer) returns (polls: seq<Poll>)
    requires Lawful(c) && s.enabled && c.parses(s.cron) && Endless(c, s) && !Reliable(a)
    ensures Ordered(Last(s), polls) && !Backed(c, s.cron, Last(s), Fires(c, s, polls))
    ensures |polls| == 2 && polls[0].answer == a && Reliable(polls[1].answer)
  {
    assert LawfulAt(c, s.cron, Last(s));
    var u := c.next(s.cron, Last(s)).value;
    var p, q := Poll(u, a), Poll(u, Answer(Saved, Saved));
    polls := [p, q];
    assert polls[1..] == [q] && polls[1..][1..] == [];
    assert Creates(c, s, p) && Answered(c, s, p) == s && Creates(c, s, q);
    assert Fires(c, s, [q]) == [u];
    assert Fires(c, s, polls) == [u, u];
    assert !OccursIn(c, s.cron, u, u);
  }

  /** At most one plan per occurrence over every series of polls, where the store's writes either all are as
      `Reliable` says (`reliable`) or need not be. */
  ghost predicate AtMostOncePerOccurrence(c: Cron, s: Schedule, reliable: bool) {
    forall polls :: Ordered(Last(s), polls) && (reliable ==> WritesSucceed(polls)) ==>
      Backed(c, s.cron, Last(s), Fires(c, s, polls))
  }

  /** It holds exactly if the schedule never runs out of occurrences and those writes succeed. */
  lemma AtMostOncePerOccurrenceIff(c: Cron, s: Schedule, reliable: bool)
    requires Lawful(c) && s.enabled && c.parses(s.cron)
    ensures AtMostOncePerOccurrence(c, s, reliable) <==> Endless(c, s) && reliable
  {
    if !Endless(c, s) {
      var t :| Last(s) <= t && c.next(s.cron, t).None?;
      var polls := ExhaustedFiresAnyway(c, s, t);
    } else if !reliable {
      var polls := FailedWriteFiresAgain(c, s, Answer(Saved, Rejected));
    } else {
      forall polls | Ordered(Last(s), polls) && WritesSucceed(polls)
        ensures Backed(c, s.cron, Last(s), Fires(c, s, polls))
      {
        EndlessIsBacked(c, s, polls, Last(s));
      }
    }
  }
}
