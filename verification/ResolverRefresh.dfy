/**
 getWellKnown's critical section under concurrency is one Refresh: whatever other goroutines do
 between a holder's steps, on its own host it does exactly what the sequential method does.
 */
module ResolverRefresh {
  import opened Common
  import opened WellKnown
  import opened Resolver
  import opened ResolverRuns

  function Only<T>(m: map<string, T>, host: string): map<string, T> {
    map h | h in m && h == host :: m[h]
  }

  /** Clock readings of one refresh, its requests and whether the pause after each was completed, and its jitter. */
  datatype Trace = Trace(looked: int, asked: int, judged: int, noted: int, stored: int, tries: seq<(Attempt, bool)>,
                         outcome: Option<Outcome>, jitter: Jitter)

  predicate Ordered(tr: Trace, start: int, end: int) {
    start <= tr.looked <= tr.asked <= tr.judged <= tr.noted <= tr.stored <= end
  }

  /** Only the last request of the first n got through to anything, and no pause was cut short before it. */
  predicate InVain(tries: seq<(Attempt, bool)>, n: nat)
    requires n <= |tries|
  {
    forall k :: 0 <= k < n ==> tries[k].0.Unreachable? && tries[k].1
  }

  /** One request, or up to three if a valid answer is remembered, each but the last unreachable and slept after. */
  predicate MadeBy(tries: seq<(Attempt, bool)>, retry: bool) {
    && 1 <= |tries| <= 3 && (!retry ==> |tries| == 1) && InVain(tries, |tries| - 1)
    && !(retry && |tries| < 3 && tries[|tries| - 1].0.Unreachable? && tries[|tries| - 1].1)
  }

  /** The outcome is that of the last request. */
  predicate Requested(from: Start, host: string, tr: Trace) {
    && MadeBy(tr.tries, host in from.hadValid && tr.asked < from.hadValid[host])
    && tr.outcome == Some(OutcomeOf(tr.tries[|tr.tries| - 1].0))
  }

  /** The host's entry and memory when its lock was taken. */
  datatype Start = Start(wellKnown: map<string, Entry>, hadValid: map<string, int>)

  function StartOf(s: State, host: string): Start {
    Start(Only(s.wellKnown, host), Only(s.hadValid, host))
  }

  predicate PrevOK(prev: Option<Seen>, from: Start, host: string, looked: int) {
    prev == if Live(from.wellKnown, host, looked) then Some(Seen(from.wellKnown[host], looked)) else None
  }

  predicate Keeps(from: Start, host: string, temporary: bool, looked: int) {
    temporary && Live(from.wellKnown, host, looked) && from.wellKnown[host].delegated != ""
  }

  /** The section is over, and was one Refresh, or found that someone else had just refreshed. */
  predicate IsRefresh(from: Start, s: State, host: string, result: string, tr: Trace) {
    var to := StartOf(s, host);
    match tr.outcome
    case None => to == from && IsFresh(from.wellKnown, host, tr.looked) && result == from.wellKnown[host].delegated
    case Some(r) =>
      Requested(from, host, tr) &&
      Refreshed(host, from.wellKnown, from.hadValid, to.wellKnown, to.hadValid, r, result,
                tr.looked, tr.judged, tr.noted, tr.stored, tr.jitter)
  }

  /** What a holder has done so far. */
  predicate Section(from: Start, s: State, th: Thread, tr: Trace) {
    match th
    case Checking(host, _) => StartOf(s, host) == from
    case Reading(host, _) => StartOf(s, host) == from
    case Asking(host, _, prev) => StartOf(s, host) == from && PrevOK(prev, from, host, tr.looked)
    case Requesting(host, _, prev, retry, attempt) =>
      && StartOf(s, host) == from && PrevOK(prev, from, host, tr.looked)
      && (retry <==> host in from.hadValid && tr.asked < from.hadValid[host])
      && |tr.tries| == attempt - 1 && attempt <= 3 && (!retry ==> attempt == 1) && InVain(tr.tries, |tr.tries|)
    case Noting(host, _, server, period) =>
      && Requested(from, host, tr)
      && StartOf(s, host) == from && tr.outcome.Some? && tr.outcome.value.Delegation?
          && tr.outcome.value.server == server
      && period == ValidPeriod(tr.outcome.value.headers, tr.judged, tr.jitter)
    case Judging(host, _, prev, temporary) =>
      && StartOf(s, host) == from && PrevOK(prev, from, host, tr.looked)
      && Requested(from, host, tr) && tr.outcome == Some(Failure(temporary))
    case Storing(host, _, result, period, noted) =>
      Requested(from, host, tr) &&
      if noted then
        && Only(s.wellKnown, host) == from.wellKnown
        && tr.outcome.Some? && tr.outcome.value.Delegation? && tr.outcome.value.server == result
        && period == ValidPeriod(tr.outcome.value.headers, tr.judged, tr.jitter)
        && Only(s.hadValid, host) == Remember(from.hadValid, host, result, tr.noted, period)
      else
        && StartOf(s, host) == from && result == "" && tr.outcome.Some? && tr.outcome.value.Failure?
        && !Keeps(from, host, tr.outcome.value.temporary, tr.looked)
        && period == FailurePeriod(from.hadValid, host, tr.judged, tr.jitter)
    case Deleting(host, _, ret) => IsRefresh(from, s, host, ret.result, tr)
    case _ => false
  }

  // --- a step of another goroutine ---------------------------------------------------------------

  lemma OthersMoveOn(s: State, step: Step, t: int)
    requires Enabled(s, step) && (step.Tick? || step.t != t) && t in s.threads
    ensures t in Next(s, step).threads && Next(s, step).threads[t] == s.threads[t] && Next(s, step).now >= s.now
  {
  }

  lemma OnlyWritersWrite(s: State, step: Step)
    requires Enabled(s, step) && !step.Note? && !step.Store?
    ensures Next(s, step).wellKnown == s.wellKnown && Next(s, step).hadValid == s.hadValid
  {
  }

  lemma WritersWriteTheirs(s: State, step: Step, host: string)
    requires Enabled(s, step) && (step.Note? || step.Store?) && s.threads[step.t].host != host
    ensures StartOf(Next(s, step), host) == StartOf(s, host)
  {
  }

  /** Nobody else touches a held host's entry or memory. */
  lemma OthersStay(s: State, step: Step, t: int)
    requires Inv(s) && Enabled(s, step) && (step.Tick? || step.t != t) && t in s.threads && Holds(s.threads[t])
    ensures StartOf(Next(s, step), s.threads[t].host) == StartOf(s, s.threads[t].host)
  {
    if step.Note? || step.Store? {
      OneHolder(s, step.t, t);
      WritersWriteTheirs(s, step, s.threads[t].host);
    } else {
      OnlyWritersWrite(s, step);
    }
  }

  lemma OtherStep(from: Start, s: State, step: Step, t: int, tr: Trace)
    requires Inv(s) && Enabled(s, step) && (step.Tick? || step.t != t) && t in s.threads
    requires Section(from, s, s.threads[t], tr)
    ensures t in Next(s, step).threads && Section(from, Next(s, step), Next(s, step).threads[t], tr)
    ensures Next(s, step).now >= s.now
  {
    OthersStay(s, step, t);
    OthersMoveOn(s, step, t);
    SectionStays(from, s, Next(s, step), s.threads[t], tr);
  }

  lemma SectionStays(from: Start, s: State, s': State, th: Thread, tr: Trace)
    requires StartOf(s', th.host) == StartOf(s, th.host) && Section(from, s, th, tr)
    ensures Section(from, s', th, tr)
  {
  }

  // --- a step of its own -------------------------------------------------------------------------

  lemma OnlyAgrees(s: State, host: string, now: int)
    ensures IsFresh(Only(s.wellKnown, host), host, now) == IsFresh(s.wellKnown, host, now)
    ensures Live(Only(s.wellKnown, host), host, now) == Live(s.wellKnown, host, now)
    ensures Live(s.wellKnown, host, now) ==> Only(s.wellKnown, host)[host] == s.wellKnown[host]
    ensures HadValid(Only(s.hadValid, host), host, now) == HadValid(s.hadValid, host, now)
  {
  }

  lemma NoteSection(from: Start, s: State, t: int, tr: Trace)
    requires At(s, t) && s.threads[t].Noting? && Section(from, s, s.threads[t], tr)
    ensures Section(from, DoNote(s, t), DoNote(s, t).threads[t], tr.(noted := s.now, stored := s.now))
  {
    var Noting(host, ch, server, period) := s.threads[t];
    assert Only(DoNote(s, t).hadValid, host) == Remember(Only(s.hadValid, host), host, server, s.now, period);
  }

  lemma StoreSection(from: Start, s: State, t: int, tr: Trace)
    requires At(s, t) && s.threads[t].Storing? && s.threads[t].period > 0 && Section(from, s, s.threads[t], tr)
    ensures Section(from, DoStore(s, t), DoStore(s, t).threads[t], tr.(stored := s.now))
  {
    var Storing(host, ch, result, period, noted) := s.threads[t];
    var e := Entry(result, s.now + period, period);
    var s' := DoStore(s, t);
    assert s'.wellKnown == s.wellKnown[host := e] && s'.hadValid == s.hadValid;
    OnlyUpdated(s.wellKnown, host, e);
    StoredIsRefresh(from, s, s', s.threads[t], e, tr, tr.(stored := s.now));
  }

  lemma OnlyUpdated<T>(m: map<string, T>, host: string, e: T)
    ensures Only(m[host := e], host) == Only(m, host)[host := e]
  {
  }

  lemma StoredIsRefresh(from: Start, s: State, s': State, th: Thread, e: Entry, tr: Trace, tr': Trace)
    requires th.Storing? && Section(from, s, th, tr)
    requires e == Entry(th.result, tr'.stored + th.period, th.period) && tr' == tr.(stored := tr'.stored)
    requires Only(s'.wellKnown, th.host) == Only(s.wellKnown, th.host)[th.host := e]
    requires Only(s'.hadValid, th.host) == Only(s.hadValid, th.host)
    ensures IsRefresh(from, s', th.host, th.result, tr')
  {
  }

  /** The readings a step makes, and what it meets. */
  function Read(s: State, step: Step, tr: Trace): Trace {
    match step
    case Recheck(_) => Trace(s.now, s.now, s.now, s.now, s.now, [], None, tr.jitter)
    case ReadPrevious(_) => tr.(looked := s.now, asked := s.now, judged := s.now, noted := s.now, stored := s.now)
    case AskRetry(_) => tr.(asked := s.now, judged := s.now, noted := s.now, stored := s.now, tries := [])
    case Request(_, a, slept, jitter) =>
      tr.(judged := s.now, noted := s.now, stored := s.now, tries := tr.tries + [(a, slept)],
          outcome := Some(OutcomeOf(a)), jitter := jitter)
    case Judge(_, jitter) => tr.(judged := s.now, noted := s.now, stored := s.now, jitter := jitter)
    case Note(_) => tr.(noted := s.now, stored := s.now)
    case Store(_) => tr.(stored := s.now)
    case _ => tr
  }

  lemma LookSection(from: Start, s: State, step: Step, tr: Trace)
    requires Inv(s) && Enabled(s, step) && (step.Recheck? || step.ReadPrevious? || step.AskRetry?)
    requires Section(from, s, s.threads[step.t], tr)
    ensures Section(from, Next(s, step), Next(s, step).threads[step.t], Read(s, step, tr))
  {
    OnlyAgrees(s, s.threads[step.t].host, s.now);
  }

  lemma RequestSection(from: Start, s: State, step: Step, tr: Trace)
    requires Inv(s) && Enabled(s, step) && step.Request? && Section(from, s, s.threads[step.t], tr)
    ensures Section(from, Next(s, step), Next(s, step).threads[step.t], Read(s, step, tr))
  {
  }

  lemma JudgeSection(from: Start, s: State, step: Step, tr: Trace)
    requires Inv(s) && Enabled(s, step) && step.Judge? && Section(from, s, s.threads[step.t], tr)
    ensures Section(from, Next(s, step), Next(s, step).threads[step.t], Read(s, step, tr))
  {
    OnlyAgrees(s, s.threads[step.t].host, s.now);
  }

  lemma StoringIsPositive(from: Start, s: State, t: int, tr: Trace)
    requires Inv(s) && At(s, t) && s.threads[t].Storing?
    ensures s.threads[t].period > 0
  {
    assert ThreadOK(s, s.threads[t]);
  }

  lemma OwnStep(from: Start, s: State, step: Step, tr: Trace)
    requires Inv(s) && Enabled(s, step) && !step.Tick? && !step.Delete? && step.t in s.threads
    requires Section(from, s, s.threads[step.t], tr)
    ensures Section(from, Next(s, step), Next(s, step).threads[step.t], Read(s, step, tr))
  {
    match step {
      case Recheck(_) => LookSection(from, s, step, tr);
      case ReadPrevious(_) => LookSection(from, s, step, tr);
      case AskRetry(_) => LookSection(from, s, step, tr);
      case Request(_, _, _, _) => RequestSection(from, s, step, tr);
      case Judge(_, _) => JudgeSection(from, s, step, tr);
      case Note(t) => NoteSection(from, s, t, tr);
      case Store(t) =>
        StoringIsPositive(from, s, t, tr);
        StoreSection(from, s, t, tr);
      case _ =>
    }
  }

  // --- the whole section -------------------------------------------------------------------------

  predicate EndsSection(step: Step, t: int) {
    step.Delete? && step.t == t
  }

  lemma {:induction false} RunSection(states: seq<State>, steps: seq<Step>, i: nat, j: nat, t: int) returns (tr: Trace)
    requires IsRun(states, steps) && i <= j < |states|
    requires t in states[i].threads && states[i].threads[t].Checking?
    requires forall k :: i <= k < j ==> !EndsSection(steps[k], t)
    ensures t in states[j].threads && Ordered(tr, states[i].now, states[j].now)
    ensures Section(StartOf(states[i], states[i].threads[t].host), states[j], states[j].threads[t], tr)
  {
    var from, now := StartOf(states[i], states[i].threads[t].host), states[i].now;
    if i == j {
      return Trace(now, now, now, now, now, [], None, 1.0);
    }
    tr := RunSection(states, steps, i, j - 1, t);
    RunStep(states, steps, j - 1);
    tr := StepSection(from, states[j - 1], steps[j - 1], t, tr, now);
  }

  lemma StepSection(from: Start, s: State, step: Step, t: int, tr: Trace, start: int) returns (tr': Trace)
    requires Inv(s) && Enabled(s, step) && t in s.threads && !EndsSection(step, t)
    requires Section(from, s, s.threads[t], tr) && Ordered(tr, start, s.now)
    ensures t in Next(s, step).threads && Section(from, Next(s, step), Next(s, step).threads[t], tr')
    ensures Ordered(tr', start, Next(s, step).now)
  {
    if step.Tick? || step.t != t {
      OtherStep(from, s, step, t, tr);
      tr' := tr;
    } else {
      OwnStep(from, s, step, tr);
      tr' := Read(s, step, tr);
    }
  }

  /**
   From taking a host's lock to giving it up, however many other goroutines act in between, the
   host's entry and memory change as by one sequential Refresh, and its result is what is returned.
   */
  lemma SectionIsOneRefresh(states: seq<State>, steps: seq<Step>, i: nat, j: nat, t: int)
    requires IsRun(states, steps) && i <= j < |states|
    requires t in states[i].threads && states[i].threads[t].Checking?
    requires forall k :: i <= k < j ==> !EndsSection(steps[k], t)
    requires t in states[j].threads && states[j].threads[t].Deleting?
    ensures var host := states[j].threads[t].host;
            exists tr :: Ordered(tr, states[i].now, states[j].now)
                         && IsRefresh(StartOf(states[i], host), states[j], host, states[j].threads[t].ret.result, tr)
  {
    var tr := RunSection(states, steps, i, j, t);
    HostStays(states, steps, i, j, t);
    assert IsRefresh(StartOf(states[i], states[j].threads[t].host), states[j], states[j].threads[t].host,
                     states[j].threads[t].ret.result, tr);
  }

  lemma {:induction false} HostStays(states: seq<State>, steps: seq<Step>, i: nat, j: nat, t: int)
    requires IsRun(states, steps) && i <= j < |states| && t in states[i].threads
    ensures t in states[j].threads && states[j].threads[t].host == states[i].threads[t].host
  {
    if i < j {
      HostStays(states, steps, i, j - 1, t);
      RunStep(states, steps, j - 1);
      SameHost(states[j - 1], steps[j - 1], t);
    }
  }

  lemma SameHost(s: State, step: Step, t: int)
    requires Enabled(s, step) && t in s.threads
    ensures t in Next(s, step).threads && Next(s, step).threads[t].host == s.threads[t].host
  {
  }
}
