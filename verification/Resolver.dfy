/**
 getWellKnown of resolver.go under concurrency: any number of goroutines, each step of one of them
 being one critical section of the transport's mutex, one channel operation or one HTTP request.
 The per-host lock is the code's own, a map of channels; its release deletes the map entry and
 only then closes the channel.
 */
module Resolver {
  import opened Common
  import opened WellKnown

  // --- state ---------------------------------------------------------------------------------

  /** A cache entry and the time it was looked at. */
  datatype Seen = Seen(entry: Entry, at: int)

  /** What getWellKnown returns, and the entry a delegation was taken from at its last cache check. */
  datatype Return = Return(result: string, seen: Option<Seen>)

  datatype Thread =
    | Acquiring(host: string)
    | Waiting(host: string, ch: nat)
    | GivingUp(host: string)
    | Checking(host: string, ch: nat)                                       // holds the lock from here ...
    | Reading(host: string, ch: nat)
    | Asking(host: string, ch: nat, prev: Option<Seen>)
    | Requesting(host: string, ch: nat, prev: Option<Seen>, retry: bool, attempt: nat)
    | Noting(host: string, ch: nat, server: string, period: int)
    | Judging(host: string, ch: nat, prev: Option<Seen>, temporary: bool)
    | Storing(host: string, ch: nat, result: string, period: int, noted: bool)
    | Deleting(host: string, ch: nat, ret: Return)                          // ... to here
    | Closing(host: string, ch: nat, ret: Return)
    | Done(host: string, ret: Return)

  /** The latest fetch of a host that succeeded: recorded by the model, not by the code. */
  datatype Success = Success(server: string, at: int, period: int)

  datatype State = State(
    now: int,
    wellKnown: map<string, Entry>,
    hadValid: map<string, int>,
    inflight: map<string, nat>,
    closed: set<nat>,
    nextCh: nat,
    threads: map<int, Thread>,
    lastOK: map<string, Success>,
    everOK: set<(string, string)>)

  // --- steps ----------------------------------------------------------------------------------

  datatype Step =
    | Tick(ns: nat)
    | Enter(t: int, host: string)
    | TryAcquire(t: int)
    | Wake(t: int)
    | Cancel(t: int)
    | GiveUp(t: int)
    | Recheck(t: int)
    | ReadPrevious(t: int)
    | AskRetry(t: int)
    | Request(t: int, attempt: Attempt, slept: bool, jitter: Jitter)
    | Note(t: int)
    | Judge(t: int, jitter: Jitter)
    | Store(t: int)
    | Delete(t: int)
    | Close(t: int)

  predicate At(s: State, t: int) {
    t in s.threads
  }

  predicate Enabled(s: State, step: Step) {
    match step
    case Tick(_) => true
    case Enter(t, _) => t !in s.threads
    case TryAcquire(t) => At(s, t) && s.threads[t].Acquiring?
    case Wake(t) => At(s, t) && s.threads[t].Waiting? && s.threads[t].ch in s.closed
    case Cancel(t) => At(s, t) && s.threads[t].Waiting?
    case GiveUp(t) => At(s, t) && s.threads[t].GivingUp?
    case Recheck(t) => At(s, t) && s.threads[t].Checking?
    case ReadPrevious(t) => At(s, t) && s.threads[t].Reading?
    case AskRetry(t) => At(s, t) && s.threads[t].Asking?
    case Request(t, _, _, _) => At(s, t) && s.threads[t].Requesting?
    case Note(t) => At(s, t) && s.threads[t].Noting?
    case Judge(t, _) => At(s, t) && s.threads[t].Judging?
    case Store(t) => At(s, t) && s.threads[t].Storing?
    case Delete(t) => At(s, t) && s.threads[t].Deleting?
    case Close(t) => At(s, t) && s.threads[t].Closing?
  }

  function Cached(s: State, host: string): Return {
    Return(CachedAnswer(s.wellKnown, host, s.now).0, Look(s, host))
  }

  function Look(s: State, host: string): Option<Seen> {
    if Live(s.wellKnown, host, s.now) then Some(Seen(s.wellKnown[host], s.now)) else None
  }

  /** acquire: one pass of its loop. A busy host's channel is waited for; a free one gets a new channel. */
  function DoTryAcquire(s: State, t: int, host: string): State {
    if host in s.inflight then s.(threads := s.threads[t := Waiting(host, s.inflight[host])])
    else s.(inflight := s.inflight[host := s.nextCh], nextCh := s.nextCh + 1,
        threads := s.threads[t := Checking(host, s.nextCh)])
  }

  /** One HTTP request and what follows it, up to the next critical section. */
  function AfterRequest(s: State, th: Thread, a: Attempt, slept: bool, jitter: Jitter): Thread
    requires th.Requesting?
  {
    match a
    case Answered(server, headers) => Noting(th.host, th.ch, server, ValidPeriod(headers, s.now, jitter))
    case Rejected => Judging(th.host, th.ch, th.prev, false)
    case Unreachable =>
      if th.retry && th.attempt < RETRY_ATTEMPTS && slept then th.(attempt := th.attempt + 1)
      else Judging(th.host, th.ch, th.prev, true)
    case _ => Judging(th.host, th.ch, th.prev, true)
  }

  /** A temporary failure keeps a delegation that was still cached; any other failure is cached as no delegation. */
  function AfterJudge(s: State, th: Thread, jitter: Jitter): Thread
    requires th.Judging?
  {
    if th.prev.Some? && th.prev.value.entry.delegated != "" && th.temporary
    then Deleting(th.host, th.ch, Return(th.prev.value.entry.delegated, th.prev))
    else Storing(th.host, th.ch, "", FailurePeriod(s.hadValid, th.host, s.now, jitter), false)
  }

  function DoNote(s: State, t: int): State
    requires At(s, t) && s.threads[t].Noting?
  {
    var Noting(host, ch, server, period) := s.threads[t];
    s.(hadValid := Remember(s.hadValid, host, server, s.now, period),
       lastOK := s.lastOK[host := Success(server, s.now, period)],
       everOK := s.everOK + {(host, server)},
       threads := s.threads[t := Storing(host, ch, server, period, true)])
  }

  function DoStore(s: State, t: int): State
    requires At(s, t) && s.threads[t].Storing?
  {
    var Storing(host, ch, result, period, _) := s.threads[t];
    if period > 0 then
      var e := Entry(result, s.now + period, period);
      s.(wellKnown := s.wellKnown[host := e],
         threads := s.threads[t := Deleting(host, ch, Return(result, Some(Seen(e, s.now))))])
    else s.(threads := s.threads[t := Deleting(host, ch, Return(result, None))])
  }

  /** What a step that writes no shared state turns its thread into. */
  function Moved(s: State, step: Step): Thread
    requires Enabled(s, step) && !step.Tick? && !step.TryAcquire? && !step.Note? && !step.Store? && !step.Delete?
             && !step.Close?
  {
    match step
    case Enter(_, host) => if IsFresh(s.wellKnown, host, s.now) then Done(host, Cached(s, host)) else Acquiring(host)
    case Wake(t) => Acquiring(s.threads[t].host)
    case Cancel(t) => GivingUp(s.threads[t].host)
    case GiveUp(t) => Done(s.threads[t].host, Cached(s, s.threads[t].host))
    case Recheck(t) =>
      var Checking(host, ch) := s.threads[t];
      if IsFresh(s.wellKnown, host, s.now) then Deleting(host, ch, Cached(s, host)) else Reading(host, ch)
    case ReadPrevious(t) => Asking(s.threads[t].host, s.threads[t].ch, Look(s, s.threads[t].host))
    case AskRetry(t) =>
      var Asking(host, ch, prev) := s.threads[t];
      Requesting(host, ch, prev, HadValid(s.hadValid, host, s.now), 1)
    case Request(t, a, slept, jitter) => AfterRequest(s, s.threads[t], a, slept, jitter)
    case Judge(t, jitter) => AfterJudge(s, s.threads[t], jitter)
  }

  function Next(s: State, step: Step): State
    requires Enabled(s, step)
  {
    match step
    case Tick(ns) => s.(now := s.now + ns)
    case TryAcquire(t) => DoTryAcquire(s, t, s.threads[t].host)
    case Note(t) => DoNote(s, t)
    case Store(t) => DoStore(s, t)
    case Delete(t) =>
      var Deleting(host, ch, ret) := s.threads[t];
      s.(inflight := s.inflight - {host}, threads := s.threads[t := Closing(host, ch, ret)])
    case Close(t) =>
      var Closing(host, ch, ret) := s.threads[t];
      s.(closed := s.closed + {ch}, threads := s.threads[t := Done(host, ret)])
    case _ => s.(threads := s.threads[step.t := Moved(s, step)])
  }

  // --- the lock --------------------------------------------------------------------------------

  predicate Holds(th: Thread) {
    || th.Checking? || th.Reading? || th.Asking? || th.Requesting?
    || th.Noting? || th.Judging? || th.Storing? || th.Deleting?
  }

  /** Threads that will still close their channel. */
  predicate Owes(th: Thread) {
    Holds(th) || th.Closing?
  }

  function HeldHosts(s: State): set<string> {
    set t | t in s.threads && Holds(s.threads[t]) :: s.threads[t].host
  }

  /** The channels of each host that some thread still owes a close. */
  function OwedChannels(s: State): set<(string, nat)> {
    set t | t in s.threads && Owes(s.threads[t]) :: (s.threads[t].host, s.threads[t].ch)
  }

  predicate LockOK(s: State, th: Thread) {
    && (Holds(th) ==> th.host in s.inflight && s.inflight[th.host] == th.ch)
    && (Owes(th) ==> th.ch < s.nextCh && th.ch !in s.closed)
    && (th.Waiting? ==> th.ch < s.nextCh && (th.ch in s.closed || (th.host, th.ch) in OwedChannels(s)))
  }

  ghost predicate LockInv(s: State) {
    && (forall t :: t in s.threads ==> LockOK(s, s.threads[t]))
    && (forall t, u :: t in s.threads && u in s.threads && t != u && Owes(s.threads[t]) && Owes(s.threads[u]) ==>
                         s.threads[t].ch != s.threads[u].ch)
    && s.inflight.Keys <= HeldHosts(s)
    && (forall ch :: ch in s.closed ==> ch < s.nextCh)
  }

  // --- the cache --------------------------------------------------------------------------------

  predicate InRange(period: int) {
    MIN_CACHE_PERIOD <= period <= MAX_CACHE_PERIOD
  }

  /**
   A delegation in the cache came from a fetch of that host, and is kept for a period in range from when it was stored.
   */
  predicate Genuine(s: State, host: string, e: Entry) {
    e.delegated != "" ==> (host, e.delegated) in s.everOK && InRange(e.ttl)
  }

  predicate SeenOK(s: State, host: string, seen: Option<Seen>) {
    seen.Some? ==> Genuine(s, host, seen.value.entry)
                   && seen.value.entry.expires - seen.value.entry.ttl <= seen.value.at < seen.value.entry.expires
                   && seen.value.at <= s.now
  }

  predicate ReturnOK(s: State, host: string, ret: Return) {
    && SeenOK(s, host, ret.seen)
    && (ret.result != "" ==> ret.seen.Some? && ret.seen.value.entry.delegated == ret.result)
  }

  predicate ThreadOK(s: State, th: Thread) {
    && (th.Reading? || th.Asking? || th.Requesting? || th.Noting? || th.Judging? || th.Storing? ==>
          !IsFresh(s.wellKnown, th.host, s.now))
    && (th.Asking? || th.Requesting? || th.Judging? ==> SeenOK(s, th.host, th.prev))
    && (th.Requesting? ==> 1 <= th.attempt <= RETRY_ATTEMPTS && (th.attempt > 1 ==> th.retry))
    && (th.Noting? ==> InRange(th.period))
    && (th.Storing? ==>
          if th.noted then
            && InRange(th.period) && (th.host, th.result) in s.everOK
            && th.host in s.lastOK && s.lastOK[th.host].server == th.result && s.lastOK[th.host].period == th.period
          else th.result == "" && th.period > 0)
    && (th.Deleting? || th.Closing? || th.Done? ==> ReturnOK(s, th.host, th.ret))
  }

  predicate Carries(th: Thread) {
    th.Storing? && th.noted
  }

  /** Hosts whose fetch has been noted in hadValid but not yet stored in the cache. */
  function InTransit(s: State): set<string> {
    set t | t in s.threads && Carries(s.threads[t]) :: s.threads[t].host
  }

  /** hadValid is exactly the memory of the latest successful fetch. */
  ghost predicate HadValidInv(s: State) {
    && (forall host :: host in s.hadValid <==> host in s.lastOK && s.lastOK[host].server != "")
    && (forall host :: host in s.hadValid ==>
                         s.hadValid[host] == s.lastOK[host].at + s.lastOK[host].period + REMEMBER_HAD_VALID)
    && (forall host :: host in s.lastOK ==> s.lastOK[host].at <= s.now)
  }

  /** A cached delegation is the latest successful fetch's, stored no earlier than it was noted. */
  predicate CacheOK(s: State, host: string)
    requires host in s.wellKnown
  {
    var e := s.wellKnown[host];
    && Genuine(s, host, e) && e.expires - e.ttl <= s.now && e.ttl >= 0
    && (e.delegated != "" && host !in InTransit(s) ==>
          && host in s.lastOK && s.lastOK[host].server == e.delegated && s.lastOK[host].period == e.ttl
          && s.lastOK[host].at <= e.expires - e.ttl)
  }

  ghost predicate CacheInv(s: State) {
    && (forall t :: t in s.threads ==> ThreadOK(s, s.threads[t]))
    && HadValidInv(s)
    && (forall host :: host in s.wellKnown ==> CacheOK(s, host))
  }

  ghost predicate Inv(s: State) {
    LockInv(s) && CacheInv(s)
  }

  ghost predicate Initial(s: State) {
    s.wellKnown == map[] && s.hadValid == map[] && s.inflight == map[] && s.closed == {}
    && s.threads == map[] && s.lastOK == map[] && s.everOK == {}
  }

  // --- every step keeps the lock's invariant -------------------------------------------------------

  /** No two threads hold one host's lock. */
  lemma OneHolder(s: State, t: int, u: int)
    requires LockInv(s) && t in s.threads && u in s.threads && t != u
    requires Holds(s.threads[t]) && Holds(s.threads[u])
    ensures s.threads[t].host != s.threads[u].host
  {
    assert LockOK(s, s.threads[t]) && LockOK(s, s.threads[u]);
  }

  function OwedBy(s: State, t: int): set<(string, nat)> {
    if t in s.threads && Owes(s.threads[t]) then {(s.threads[t].host, s.threads[t].ch)} else {}
  }

  lemma OwedAfter(s: State, s': State, t: int, th: Thread)
    requires s'.threads == s.threads[t := th]
    ensures OwedChannels(s') >= OwedChannels(s) - OwedBy(s, t)
    ensures Owes(th) ==> (th.host, th.ch) in OwedChannels(s')
    ensures HeldHosts(s') >= HeldHosts(s) - (if t in s.threads && Holds(s.threads[t]) then {s.threads[t].host} else {})
    ensures Holds(th) ==> th.host in HeldHosts(s')
  {
    forall o | o in OwedChannels(s)
      ensures o in OwedChannels(s') || o in OwedBy(s, t)
    {
      var u :| u in s.threads && Owes(s.threads[u]) && (s.threads[u].host, s.threads[u].ch) == o;
      assert u != t ==> u in s'.threads && s'.threads[u] == s.threads[u];
    }
    forall h | h in HeldHosts(s)
      ensures h in HeldHosts(s') || (t in s.threads && Holds(s.threads[t]) && h == s.threads[t].host)
    {
      var u :| u in s.threads && Holds(s.threads[u]) && s.threads[u].host == h;
      assert u != t ==> u in s'.threads && s'.threads[u] == s.threads[u];
    }
    assert t in s'.threads && s'.threads[t] == th;
  }

  /** A step of t that leaves the lock as it is: a holder stays one, with its channel, and nobody becomes one. */
  ghost predicate LeavesLock(s: State, s': State, t: int, th: Thread) {
    && s'.threads == s.threads[t := th]
    && s'.inflight == s.inflight && s'.closed == s.closed && s'.nextCh == s.nextCh
    && !th.Closing? && !th.Waiting?
    && (if t in s.threads && Owes(s.threads[t])
        then Holds(s.threads[t]) && Holds(th) && th.host == s.threads[t].host && th.ch == s.threads[t].ch
        else !Owes(th))
  }

  lemma LeavingKeepsLock(s: State, s': State, t: int, th: Thread)
    requires LockInv(s) && LeavesLock(s, s', t, th)
    ensures LockInv(s')
  {
    OwedAfter(s, s', t, th);
    forall u | u in s'.threads ensures LockOK(s', s'.threads[u]) {
      assert u in s.threads ==> LockOK(s, s.threads[u]);
    }
  }

  lemma BusyIsOwed(s: State, host: string)
    requires LockInv(s) && host in s.inflight
    ensures (host, s.inflight[host]) in OwedChannels(s) && s.inflight[host] < s.nextCh
  {
    var u :| u in s.threads && Holds(s.threads[u]) && s.threads[u].host == host;
    assert LockOK(s, s.threads[u]);
  }

  /** A busy host's channel has a holder, so whoever starts to wait for it waits for someone. */
  lemma WaitKeepsLock(s: State, s': State, t: int, host: string)
    requires LockInv(s) && t in s.threads && s.threads[t].Acquiring? && host in s.inflight
    requires s' == s.(threads := s.threads[t := Waiting(host, s.inflight[host])])
    ensures LockInv(s')
  {
    BusyIsOwed(s, host);
    OwedAfter(s, s', t, Waiting(host, s.inflight[host]));
    forall v | v in s'.threads ensures LockOK(s', s'.threads[v]) {
      if v != t {
        assert LockOK(s, s.threads[v]);
      }
    }
  }

  lemma TakeKeepsLock(s: State, s': State, t: int, host: string)
    requires LockInv(s) && t in s.threads && s.threads[t].Acquiring? && host !in s.inflight
    requires s' == s.(inflight := s.inflight[host := s.nextCh], nextCh := s.nextCh + 1,
                      threads := s.threads[t := Checking(host, s.nextCh)])
    ensures LockInv(s')
  {
    OwedAfter(s, s', t, s'.threads[t]);
    forall v | v in s'.threads
      ensures LockOK(s', s'.threads[v]) && (v != t && Owes(s.threads[v]) ==> s.threads[v].ch < s.nextCh)
    {
      assert LockOK(s, s.threads[v]);
    }
  }

  lemma DeleteKeepsLock(s: State, s': State, t: int)
    requires LockInv(s) && t in s.threads && s.threads[t].Deleting?
    requires s' == s.(inflight := s.inflight - {s.threads[t].host},
                      threads := s.threads[t := Closing(s.threads[t].host, s.threads[t].ch, s.threads[t].ret)])
    ensures LockInv(s')
  {
    var th := s'.threads[t];
    OwedAfter(s, s', t, th);
    forall u | u in s'.threads ensures LockOK(s', s'.threads[u]) {
      assert LockOK(s, s.threads[u]);
      if u != t && Holds(s.threads[u]) {
        OneHolder(s, t, u);
      }
    }
  }

  lemma CloseKeepsLock(s: State, s': State, t: int)
    requires LockInv(s) && t in s.threads && s.threads[t].Closing?
    requires s' == s.(closed := s.closed + {s.threads[t].ch},
                      threads := s.threads[t := Done(s.threads[t].host, s.threads[t].ret)])
    ensures LockInv(s')
  {
    var th := s'.threads[t];
    OwedAfter(s, s', t, th);
    assert LockOK(s, s.threads[t]);
    forall u | u in s'.threads ensures LockOK(s', s'.threads[u]) {
      assert LockOK(s, s.threads[u]);
    }
  }

  lemma TickKeepsLock(s: State, ns: nat)
    requires LockInv(s)
    ensures LockInv(s.(now := s.now + ns))
  {
    var s' := s.(now := s.now + ns);
    assert HeldHosts(s') == HeldHosts(s) && OwedChannels(s') == OwedChannels(s);
    forall u | u in s'.threads ensures LockOK(s', s'.threads[u]) {
      assert LockOK(s, s.threads[u]);
    }
  }

  lemma AcquireKeepsLock(s: State, t: int)
    requires LockInv(s) && Enabled(s, TryAcquire(t))
    ensures LockInv(Next(s, TryAcquire(t)))
  {
    if s.threads[t].host in s.inflight {
      WaitKeepsLock(s, Next(s, TryAcquire(t)), t, s.threads[t].host);
    } else {
      TakeKeepsLock(s, Next(s, TryAcquire(t)), t, s.threads[t].host);
    }
  }

  lemma MovedLeavesLock(s: State, step: Step)
    requires Enabled(s, step) && !step.Tick? && !step.TryAcquire? && !step.Note? && !step.Store? && !step.Delete?
             && !step.Close?
    ensures LeavesLock(s, Next(s, step), step.t, Moved(s, step))
  {
  }

  predicate TouchesLock(step: Step) {
    step.Tick? || step.TryAcquire? || step.Delete? || step.Close?
  }

  lemma StepLeavesLock(s: State, step: Step)
    requires Enabled(s, step) && !TouchesLock(step)
    ensures LeavesLock(s, Next(s, step), step.t, Next(s, step).threads[step.t])
  {
    if !step.Note? && !step.Store? {
      MovedLeavesLock(s, step);
    }
  }

  lemma StepKeepsLock(s: State, step: Step)
    requires LockInv(s) && Enabled(s, step)
    ensures LockInv(Next(s, step))
  {
    if step.Tick? {
      TickKeepsLock(s, step.ns);
    } else if step.TryAcquire? {
      AcquireKeepsLock(s, step.t);
    } else if step.Delete? {
      DeleteKeepsLock(s, Next(s, step), step.t);
    } else if step.Close? {
      CloseKeepsLock(s, Next(s, step), step.t);
    } else {
      StepLeavesLock(s, step);
      LeavingKeepsLock(s, Next(s, step), step.t, Next(s, step).threads[step.t]);
    }
  }

  // --- every step keeps the cache's invariant --------------------------------------------------------

  function CarriedBy(s: State, t: int): set<string> {
    if t in s.threads && Carries(s.threads[t]) then {s.threads[t].host} else {}
  }

  lemma TransitAfter(s: State, s': State, t: int, th: Thread)
    requires s'.threads == s.threads[t := th]
    ensures InTransit(s') >= InTransit(s) - CarriedBy(s, t)
    ensures InTransit(s') <= InTransit(s) + (if Carries(th) then {th.host} else {})
    ensures Carries(th) ==> th.host in InTransit(s')
  {
    forall h | h in InTransit(s)
      ensures h in InTransit(s') || h in CarriedBy(s, t)
    {
      var u :| u in s.threads && Carries(s.threads[u]) && s.threads[u].host == h;
      assert u != t ==> u in s'.threads && s'.threads[u] == s.threads[u];
    }
    forall h | h in InTransit(s') ensures h in InTransit(s) || (Carries(th) && h == th.host) {
      var u :| u in s'.threads && Carries(s'.threads[u]) && s'.threads[u].host == h;
      assert u != t ==> u in s.threads && s.threads[u] == s'.threads[u];
    }
    assert t in s'.threads && s'.threads[t] == th;
  }

  lemma MoveKeepsCache(s: State, s': State, t: int, th: Thread)
    requires CacheInv(s)
             && s' == s.(threads := s.threads[t := th], inflight := s'.inflight, closed := s'.closed,
                 nextCh := s'.nextCh)
    requires ThreadOK(s', th) && !Carries(th) && !(t in s.threads && Carries(s.threads[t]))
    ensures CacheInv(s')
  {
    TransitAfter(s, s', t, th);
    forall u | u in s'.threads ensures ThreadOK(s', s'.threads[u]) {
      assert u != t ==> ThreadOK(s, s.threads[u]);
    }
    forall host | host in s'.wellKnown ensures CacheOK(s', host) {
      assert CacheOK(s, host);
    }
  }

  lemma TickKeepsCache(s: State, ns: nat)
    requires CacheInv(s)
    ensures CacheInv(s.(now := s.now + ns))
  {
    var s' := s.(now := s.now + ns);
    assert InTransit(s') == InTransit(s);
    forall u | u in s'.threads ensures ThreadOK(s', s'.threads[u]) {
      assert ThreadOK(s, s.threads[u]);
    }
    forall host | host in s'.wellKnown ensures CacheOK(s', host) {
      assert CacheOK(s, host);
    }
  }

  lemma AfterJudgeOK(s: State, s': State, t: int, jitter: Jitter)
    requires CacheInv(s) && At(s, t) && s.threads[t].Judging?
    requires s' == s.(threads := s'.threads)
    ensures ThreadOK(s', AfterJudge(s, s.threads[t], jitter))
  {
    assert ThreadOK(s, s.threads[t]);
    FailurePeriodBounds(s.hadValid, s.threads[t].host, s.now, jitter);
  }

  lemma AfterRequestOK(s: State, s': State, t: int, a: Attempt, slept: bool, jitter: Jitter)
    requires CacheInv(s) && At(s, t) && s.threads[t].Requesting?
    requires s' == s.(threads := s'.threads)
    ensures ThreadOK(s', AfterRequest(s, s.threads[t], a, slept, jitter))
  {
    assert ThreadOK(s, s.threads[t]);
    if a.Answered? {
      ValidPeriodBounds(a.headers, s.now, jitter);
    }
  }

  /** What a move turns a thread into is in order. */
  lemma MovedOK(s: State, step: Step)
    requires CacheInv(s) && Enabled(s, step)
    requires !step.Tick? && !step.TryAcquire? && !step.Note? && !step.Store? && !step.Delete? && !step.Close?
    ensures var th := Moved(s, step); ThreadOK(Next(s, step), th) && !Carries(th)
    ensures !(step.t in s.threads && Carries(s.threads[step.t]))
  {
    if step.t in s.threads {
      assert ThreadOK(s, s.threads[step.t]);
      if s.threads[step.t].host in s.wellKnown {
        assert CacheOK(s, s.threads[step.t].host);
      }
    } else if step.host in s.wellKnown {
      assert CacheOK(s, step.host);
    }
    match step {
      case Request(t, a, slept, jitter) => AfterRequestOK(s, Next(s, step), t, a, slept, jitter);
      case Judge(t, jitter) => AfterJudgeOK(s, Next(s, step), t, jitter);
      case _ =>
    }
  }

  /** Noting a success: only its own host is concerned, and that host is in transit until the entry is stored. */
  lemma NoteKeepsCache(s: State, t: int)
    requires LockInv(s) && CacheInv(s) && At(s, t) && s.threads[t].Noting?
    ensures CacheInv(DoNote(s, t))
  {
    var s' := DoNote(s, t);
    var th := s.threads[t];
    assert ThreadOK(s, th);
    TransitAfter(s, s', t, s'.threads[t]);
    forall u | u in s'.threads ensures ThreadOK(s', s'.threads[u]) {
      if u != t {
        assert ThreadOK(s, s.threads[u]);
        if Holds(s.threads[u]) { OneHolder(s, t, u); }
      }
    }
    forall host | host in s'.wellKnown ensures CacheOK(s', host) {
      assert CacheOK(s, host);
    }
  }

  lemma StoreKeepsCache(s: State, t: int)
    requires LockInv(s) && CacheInv(s) && At(s, t) && s.threads[t].Storing?
    ensures CacheInv(DoStore(s, t))
  {
    var s' := DoStore(s, t);
    var th := s.threads[t];
    assert ThreadOK(s, th);
    TransitAfter(s, s', t, s'.threads[t]);
    StoredInTransit(s, s', t);
    forall u | u in s'.threads ensures ThreadOK(s', s'.threads[u]) {
      if u != t {
        assert ThreadOK(s, s.threads[u]);
        if Holds(s.threads[u]) { OneHolder(s, t, u); }
      }
    }
    forall host | host in s'.wellKnown ensures CacheOK(s', host) {
      assert host != th.host ==> CacheOK(s, host);
    }
  }

  lemma StoredInTransit(s: State, s': State, t: int)
    requires LockInv(s) && At(s, t) && s.threads[t].Storing? && s' == DoStore(s, t)
    ensures s.threads[t].host !in InTransit(s')
  {
    forall u | u in s'.threads && Carries(s'.threads[u]) ensures s'.threads[u].host != s.threads[t].host {
      assert u != t;
      OneHolder(s, t, u);
    }
  }

  lemma ReleaseKeepsCache(s: State, step: Step)
    requires CacheInv(s) && Enabled(s, step) && (step.TryAcquire? || step.Delete? || step.Close?)
    ensures CacheInv(Next(s, step))
  {
    assert ThreadOK(s, s.threads[step.t]);
    MoveKeepsCache(s, Next(s, step), step.t, Next(s, step).threads[step.t]);
  }

  lemma MovedKeepsCache(s: State, step: Step)
    requires CacheInv(s) && Enabled(s, step)
    requires !step.Tick? && !step.TryAcquire? && !step.Note? && !step.Store? && !step.Delete? && !step.Close?
    ensures CacheInv(Next(s, step))
  {
    MovedOK(s, step);
    MoveKeepsCache(s, Next(s, step), step.t, Moved(s, step));
  }

  lemma StepKeepsCache(s: State, step: Step)
    requires LockInv(s) && CacheInv(s) && Enabled(s, step)
    ensures CacheInv(Next(s, step))
  {
    if step.Tick? {
      TickKeepsCache(s, step.ns);
    } else if step.Note? {
      NoteKeepsCache(s, step.t);
    } else if step.Store? {
      StoreKeepsCache(s, step.t);
    } else if step.TryAcquire? || step.Delete? || step.Close? {
      ReleaseKeepsCache(s, step);
    } else {
      MovedKeepsCache(s, step);
    }
  }
}
