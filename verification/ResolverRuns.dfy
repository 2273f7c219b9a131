/** What holds of getWellKnown over every run: the lock, honest delegations, refreshes and failures. */
module ResolverRuns {
  import opened Common
  import opened WellKnown
  import opened Resolver
  import Runs

  ghost predicate Steps(s: State, step: Step, s': State) {
    Enabled(s, step) && s' == Next(s, step)
  }

  ghost predicate IsRun(states: seq<State>, steps: seq<Step>) {
    Runs.IsRun((s: State) => Initial(s), (s: State, l: Step, s': State) => Steps(s, l, s'), states, steps)
  }

  lemma RunInv(states: seq<State>, steps: seq<Step>, i: nat)
    requires IsRun(states, steps) && i < |states|
    ensures Inv(states[i])
  {
    forall s, l, s' | Inv(s) && Steps(s, l, s') ensures Inv(s') {
      StepKeepsLock(s, l);
      StepKeepsCache(s, l);
    }
    Runs.Invariant((s: State) => Initial(s), (s: State, l: Step, s': State) => Steps(s, l, s'), (s: State) => Inv(s),
        states, steps, i);
  }

  lemma RunStep(states: seq<State>, steps: seq<Step>, i: nat)
    requires IsRun(states, steps) && i < |steps|
    ensures Steps(states[i], steps[i], states[i + 1]) && Inv(states[i])
  {
    RunInv(states, steps, i);
  }

  // --- the lock --------------------------------------------------------------------------------

  /** At every moment of every run a host's lock has at most one holder. */
  lemma AtMostOneHolder(states: seq<State>, steps: seq<Step>, i: nat, t: int, u: int)
    requires IsRun(states, steps) && i < |states| && t in states[i].threads && u in states[i].threads
    requires Holds(states[i].threads[t]) && Holds(states[i].threads[u])
             && states[i].threads[t].host == states[i].threads[u].host
    ensures t == u
  {
    RunInv(states, steps, i);
    if t != u {
      OneHolder(states[i], t, u);
    }
  }

  /** close(ch) never meets a channel that is already closed, which would panic. */
  lemma NeverClosedTwice(states: seq<State>, steps: seq<Step>, i: nat)
    requires IsRun(states, steps) && i < |steps| && steps[i].Close?
    ensures var s := states[i];
            steps[i].t in s.threads && s.threads[steps[i].t].Closing? && s.threads[steps[i].t].ch !in s.closed
  {
    RunStep(states, steps, i);
    assert LockOK(states[i], states[i].threads[steps[i].t]);
  }

  /**
   A waiter is never stranded: its channel is closed, or it is the one in the map and its host's
   holder will close it, or it has left the map and its owner is about to close it.
   */
  lemma NoStrandedWaiter(states: seq<State>, steps: seq<Step>, i: nat, t: int)
    requires IsRun(states, steps) && i < |states| && t in states[i].threads && states[i].threads[t].Waiting?
    ensures var s, w := states[i], states[i].threads[t];
            || w.ch in s.closed
            || (w.host in s.inflight && s.inflight[w.host] == w.ch
                && exists u :: Serves(s, u, w) && Holds(s.threads[u]))
            || (exists u :: Serves(s, u, w) && s.threads[u].Closing?)
  {
    RunInv(states, steps, i);
    var s, w := states[i], states[i].threads[t];
    assert LockOK(s, w);
    if w.ch !in s.closed {
      var u :| u in s.threads && Owes(s.threads[u]) && (s.threads[u].host, s.threads[u].ch) == (w.host, w.ch);
      assert LockOK(s, s.threads[u]);
      assert Serves(s, u, w);
    }
  }

  /** u has the channel a waiter waits for. */
  predicate Serves(s: State, u: int, w: Thread)
    requires w.Waiting?
  {
    && u in s.threads && (Holds(s.threads[u]) || s.threads[u].Closing?)
    && s.threads[u].host == w.host && s.threads[u].ch == w.ch
  }

  /** How many of its own steps an owner is away from closing its channel. */
  function Remaining(th: Thread): nat {
    match th
    case Checking(_, _) => 10
    case Reading(_, _) => 9
    case Asking(_, _, _) => 8
    case Requesting(_, _, _, _, attempt) => if attempt <= RETRY_ATTEMPTS then 5 + RETRY_ATTEMPTS - attempt else 5
    case Noting(_, _, _, _) => 4
    case Judging(_, _, _, _) => 4
    case Storing(_, _, _, _, _) => 3
    case Deleting(_, _, _) => 2
    case Closing(_, _, _) => 1
    case _ => 0
  }

  /**
   Whoever owes a close is never blocked: each step of its own brings it nearer, at most ten in
   all, no step of another thread sets it back, and its last one closes the channel.
   */
  lemma OwnersFinish(states: seq<State>, steps: seq<Step>, i: nat, t: int)
    requires IsRun(states, steps) && i < |steps| && t in states[i].threads && Owes(states[i].threads[t])
    ensures 0 < Remaining(states[i].threads[t]) <= 10
    ensures t in states[i + 1].threads
    ensures var th, th' := states[i].threads[t], states[i + 1].threads[t];
            if steps[i].Tick? || steps[i].t != t then th' == th
            else Remaining(th') < Remaining(th) && if Remaining(th') == 0 then th.ch in states[i + 1].closed
                                                   else Owes(th') && th'.ch == th.ch
  {
    RunStep(states, steps, i);
    var s := states[i];
    assert ThreadOK(s, s.threads[t]);
    if !steps[i].Tick? && steps[i].t == t {
      OwnStep(s, steps[i]);
    }
  }

  lemma OwnStep(s: State, step: Step)
    requires Enabled(s, step) && !step.Tick? && step.t in s.threads && Owes(s.threads[step.t])
             && ThreadOK(s, s.threads[step.t])
    ensures var th, s' := s.threads[step.t], Next(s, step);
            && step.t in s'.threads && Remaining(s'.threads[step.t]) < Remaining(th)
            && if Remaining(s'.threads[step.t]) == 0 then th.ch in s'.closed
               else Owes(s'.threads[step.t]) && s'.threads[step.t].ch == th.ch
  {
  }

  // --- where a delegation comes from ---------------------------------------------------------------

  /** (host, server) if a .well-known answers this request. */
  function FetchedBy(s: State, step: Step): set<(string, string)> {
    if step.Request? && step.attempt.Answered? && step.t in s.threads
    then {(s.threads[step.t].host, step.attempt.server)}
    else {}
  }

  /** The entry this step puts into the cache, with its host: it is dated from this moment. */
  function StoredBy(s: State, step: Step): set<(string, Entry)> {
    if step.Store? && step.t in s.threads && s.threads[step.t].Storing?
    then var th := s.threads[step.t]; {(th.host, Entry(th.result, s.now + th.period, th.period))}
    else {}
  }

  /** Every answer among the first i steps. */
  function Fetched(states: seq<State>, steps: seq<Step>, i: nat): set<(string, string)>
    requires i <= |steps| < |states|
  {
    if i == 0 then {} else Fetched(states, steps, i - 1) + FetchedBy(states[i - 1], steps[i - 1])
  }

  /** Every entry the first i steps put into the cache. */
  function Stored(states: seq<State>, steps: seq<Step>, i: nat): set<(string, Entry)>
    requires i <= |steps| < |states|
  {
    if i == 0 then {} else Stored(states, steps, i - 1) + StoredBy(states[i - 1], steps[i - 1])
  }

  function SeenBy(th: Thread): Option<Seen> {
    match th
    case Asking(_, _, prev) => prev
    case Requesting(_, _, prev, _, _) => prev
    case Judging(_, _, prev, _) => prev
    case Deleting(_, _, ret) => ret.seen
    case Closing(_, _, ret) => ret.seen
    case Done(_, ret) => ret.seen
    case _ => None
  }

  predicate Traced(fetched: set<(string, string)>, stored: set<(string, Entry)>, th: Thread) {
    && (th.Noting? ==> (th.host, th.server) in fetched)
    && (SeenBy(th).Some? ==> (th.host, SeenBy(th).value.entry) in stored)
  }

  ghost predicate Origins(fetched: set<(string, string)>, stored: set<(string, Entry)>, s: State) {
    && s.everOK <= fetched
    && (forall host :: host in s.wellKnown ==> (host, s.wellKnown[host]) in stored)
    && (forall t :: t in s.threads ==> Traced(fetched, stored, s.threads[t]))
  }

  /** The thread that steps carries away only what was fetched or stored before, or by this very step. */
  lemma StepTraced(fetched: set<(string, string)>, stored: set<(string, Entry)>, s: State, step: Step)
    requires Origins(fetched, stored, s) && Enabled(s, step) && !step.Tick?
    ensures Traced(fetched + FetchedBy(s, step), stored + StoredBy(s, step), Next(s, step).threads[step.t])
  {
    assert step.t in s.threads ==> Traced(fetched, stored, s.threads[step.t]);
    if step.Enter? || step.GiveUp? || step.Recheck? || step.ReadPrevious? {
      LookTraced(fetched, stored, s, step);
    }
  }

  /** Who looks at the cache sees what was stored. */
  lemma LookTraced(fetched: set<(string, string)>, stored: set<(string, Entry)>, s: State, step: Step)
    requires Origins(fetched, stored, s) && Enabled(s, step)
    requires step.Enter? || step.GiveUp? || step.Recheck? || step.ReadPrevious?
    ensures Traced(fetched, stored, Next(s, step).threads[step.t])
  {
  }

  lemma StepOrigins(fetched: set<(string, string)>, stored: set<(string, Entry)>, s: State, step: Step)
    requires Origins(fetched, stored, s) && Enabled(s, step)
    ensures Origins(fetched + FetchedBy(s, step), stored + StoredBy(s, step), Next(s, step))
  {
    var s' := Next(s, step);
    var fetched', stored' := fetched + FetchedBy(s, step), stored + StoredBy(s, step);
    forall t | t in s'.threads ensures Traced(fetched', stored', s'.threads[t]) {
      if !step.Tick? && t == step.t {
        StepTraced(fetched, stored, s, step);
      } else {
        assert Traced(fetched, stored, s.threads[t]);
      }
    }
    StepStored(fetched, stored, s, step);
  }

  lemma StepStored(fetched: set<(string, string)>, stored: set<(string, Entry)>, s: State, step: Step)
    requires Origins(fetched, stored, s) && Enabled(s, step)
    ensures Next(s, step).everOK <= fetched
    ensures forall host :: host in Next(s, step).wellKnown ==>
                             (host, Next(s, step).wellKnown[host]) in stored + StoredBy(s, step)
  {
    assert !step.Tick? && step.t in s.threads ==> Traced(fetched, stored, s.threads[step.t]);
  }

  lemma {:induction false} RunOrigins(states: seq<State>, steps: seq<Step>, i: nat)
    requires IsRun(states, steps) && i < |states|
    ensures Origins(Fetched(states, steps, i), Stored(states, steps, i), states[i])
  {
    if i > 0 {
      RunOrigins(states, steps, i - 1);
      RunStep(states, steps, i - 1);
      StepOrigins(Fetched(states, steps, i - 1), Stored(states, steps, i - 1), states[i - 1], steps[i - 1]);
    }
  }

  /**
   A delegation that getWellKnown returns was answered by that host's .well-known, was put into the
   cache for between five minutes and 48 hours, and was still within that time when the cache was
   last looked at.
   */
  lemma DelegationsAreHonest(states: seq<State>, steps: seq<Step>, i: nat, t: int, host: string, ret: Return)
    requires IsRun(states, steps) && i < |states| && t in states[i].threads && states[i].threads[t] == Done(host, ret)
    requires ret.result != ""
    ensures (host, ret.result) in Fetched(states, steps, i)
    ensures ret.seen.Some? && (host, ret.seen.value.entry) in Stored(states, steps, i)
    ensures var e, at := ret.seen.value.entry, ret.seen.value.at;
            && e.delegated == ret.result && MIN_CACHE_PERIOD <= e.ttl <= MAX_CACHE_PERIOD
            && e.expires - e.ttl <= at < e.expires && at <= states[i].now
  {
    RunInv(states, steps, i);
    RunOrigins(states, steps, i);
    assert ThreadOK(states[i], states[i].threads[t]);
    assert Traced(Fetched(states, steps, i), Stored(states, steps, i), states[i].threads[t]);
  }

  // --- refreshing ---------------------------------------------------------------------------------

  predicate Stores(s: State, step: Step, host: string) {
    step.Store? && step.t in s.threads && s.threads[step.t].Storing? && s.threads[step.t].host == host
  }

  /** The host's entry is the same, or there is none in either. */
  predicate SameEntry(s: State, s': State, host: string) {
    if host in s.wellKnown then host in s'.wellKnown && s'.wellKnown[host] == s.wellKnown[host]
    else host !in s'.wellKnown
  }

  lemma StepKeepsEntry(s: State, step: Step, host: string)
    requires Enabled(s, step) && !Stores(s, step, host)
    ensures SameEntry(s, Next(s, step), host)
  {
  }

  lemma EntryStaysOnce(states: seq<State>, steps: seq<Step>, k: nat, host: string)
    requires IsRun(states, steps) && k < |steps| && !Stores(states[k], steps[k], host)
    ensures SameEntry(states[k], states[k + 1], host)
  {
    RunStep(states, steps, k);
    StepKeepsEntry(states[k], steps[k], host);
  }

  /** No entry for the host is stored from step i up to step j. */
  ghost predicate NoStores(states: seq<State>, steps: seq<Step>, i: nat, j: nat, host: string)
    requires j <= |steps| < |states|
  {
    forall k :: i <= k < j ==> !Stores(states[k], steps[k], host)
  }

  lemma {:induction false} SameThroughout(states: seq<State>, i: nat, j: nat, host: string)
    requires i <= j < |states| && forall k: nat :: i <= k < j ==> SameNext(states, k, host)
    ensures SameEntry(states[i], states[j], host)
  {
    if i < j {
      SameThroughout(states, i, j - 1, host);
      assert SameNext(states, j - 1, host);
    }
  }

  predicate SameNext(states: seq<State>, k: nat, host: string)
    requires k + 1 < |states|
  {
    SameEntry(states[k], states[k + 1], host)
  }

  /**
   Nothing but a store for its host touches an entry; a failure that keeps a delegation leaves it exactly as it was.
   */
  lemma EntryStays(states: seq<State>, steps: seq<Step>, i: nat, j: nat, host: string)
    requires IsRun(states, steps) && i <= j < |states| && NoStores(states, steps, i, j, host)
    ensures SameEntry(states[i], states[j], host)
  {
    forall k: nat | i <= k < j ensures SameNext(states, k, host) {
      EntryStaysOnce(states, steps, k, host);
    }
    SameThroughout(states, i, j, host);
  }

  /**
   A temporary failure never extends a delegation: an entry that names one is written only for a
   successful fetch, and a failure either keeps the cached delegation and writes nothing or caches
   "no delegation".
   */
  lemma FailuresExtendNothing(states: seq<State>, steps: seq<Step>, i: nat, host: string)
    requires IsRun(states, steps) && i < |steps|
    requires host in states[i + 1].wellKnown && states[i + 1].wellKnown[host].delegated != ""
    requires host !in states[i].wellKnown || states[i].wellKnown[host] != states[i + 1].wellKnown[host]
    ensures Stores(states[i], steps[i], host) && states[i].threads[steps[i].t].noted
    ensures states[i + 1].wellKnown[host].expires == states[i].now + states[i + 1].wellKnown[host].ttl
    ensures host in states[i].lastOK && states[i].lastOK[host].server == states[i + 1].wellKnown[host].delegated
  {
    RunStep(states, steps, i);
    if !Stores(states[i], steps[i], host) {
      StepKeepsEntry(states[i], steps[i], host);
    }
    assert ThreadOK(states[i], states[i].threads[steps[i].t]);
  }

  /**
   After an entry is stored no request for its host goes out before the entry's refresh point, however many callers
   there are.
   */
  lemma NoEarlyRefetch(states: seq<State>, steps: seq<Step>, i: nat, j: nat)
    requires IsRun(states, steps) && i < j < |steps|
    requires steps[i].Store? && steps[j].Request?
    requires var t, u := steps[i].t, steps[j].t;
             && t in states[i].threads && states[i].threads[t].Storing? && states[i].threads[t].period > 0
             && u in states[j].threads && states[j].threads[u].Requesting?
             && states[j].threads[u].host == states[i].threads[t].host
    requires NoStores(states, steps, i + 1, j, states[i].threads[steps[i].t].host)
    ensures var th := states[i].threads[steps[i].t];
            5 * (states[j].now - states[i].now) >= 4 * th.period
  {
    var th := states[i].threads[steps[i].t];
    RunStep(states, steps, i);
    EntryStays(states, steps, i + 1, j, th.host);
    RunInv(states, steps, j);
    assert ThreadOK(states[j], states[j].threads[steps[j].t]);
  }

  /**
   A call that finds its host's entry unexpired and with more than a fifth of its life to go answers with it at
   once, takes no lock and asks nobody; any other goes for the lock. A call that gives up waiting answers
   with the entry as long as it is unexpired.
   */
  lemma CachedIsAnswered(states: seq<State>, steps: seq<Step>, i: nat)
    requires IsRun(states, steps) && i < |steps| && (steps[i].Enter? || steps[i].GiveUp?)
    ensures steps[i].t in states[i + 1].threads
    ensures var s, th := states[i], states[i + 1].threads[steps[i].t];
            var host := th.host;
            var live := host in s.wellKnown && s.now < s.wellKnown[host].expires;
            && (th.Done? || th.Acquiring?) && (steps[i].GiveUp? ==> th.Done?)
            && (steps[i].Enter? ==>
                  host == steps[i].host
                  && (th.Done? <==> live && 5 * (s.wellKnown[host].expires - s.now) > s.wellKnown[host].ttl))
            && (th.Done? ==> th.ret.result == if live then s.wellKnown[host].delegated else "")
  {
    RunStep(states, steps, i);
  }

  // --- how long failures are cached -----------------------------------------------------------------

  /**
   While nobody holds a host's lock, a cached delegation is remembered for two hours past its
   expiry, less the time between the two clock readings of the fetch that stored it.
   */
  lemma FreeLockRemembers(states: seq<State>, steps: seq<Step>, i: nat, host: string)
    requires IsRun(states, steps) && i < |states|
    requires forall t :: t in states[i].threads && Holds(states[i].threads[t]) ==> states[i].threads[t].host != host
    requires host in states[i].wellKnown && states[i].wellKnown[host].delegated != ""
    ensures host in states[i].lastOK && host in states[i].hadValid
    ensures var e, ok := states[i].wellKnown[host], states[i].lastOK[host];
            && ok.server == e.delegated && ok.period == e.ttl && ok.at <= e.expires - e.ttl
            && states[i].hadValid[host] == e.expires + REMEMBER_HAD_VALID - (e.expires - e.ttl - ok.at)
  {
    RunInv(states, steps, i);
    assert CacheOK(states[i], host);
  }

  predicate Notes(s: State, step: Step, host: string) {
    step.Note? && step.t in s.threads && s.threads[step.t].Noting? && s.threads[step.t].host == host
  }

  lemma StepKeepsMemory(s: State, step: Step, host: string)
    requires Enabled(s, step) && !Notes(s, step, host)
    ensures host in s.hadValid <==> host in Next(s, step).hadValid
    ensures host in s.hadValid ==> Next(s, step).hadValid[host] == s.hadValid[host]
  {
  }

  lemma MemoryStaysOnce(states: seq<State>, steps: seq<Step>, k: nat, host: string)
    requires IsRun(states, steps) && k < |steps| && !Notes(states[k], steps[k], host)
    ensures host in states[k].hadValid <==> host in states[k + 1].hadValid
    ensures host in states[k].hadValid ==> states[k + 1].hadValid[host] == states[k].hadValid[host]
  {
    RunStep(states, steps, k);
    StepKeepsMemory(states[k], steps[k], host);
  }

  lemma {:induction false} MemoryStays(states: seq<State>, steps: seq<Step>, i: nat, j: nat, host: string)
    requires IsRun(states, steps) && i <= j < |states|
    requires forall k :: i <= k < j ==> !Notes(states[k], steps[k], host)
    ensures host in states[i].hadValid <==> host in states[j].hadValid
    ensures host in states[i].hadValid ==> states[j].hadValid[host] == states[i].hadValid[host]
  {
    if i < j {
      MemoryStays(states, steps, i, j - 1, host);
      MemoryStaysOnce(states, steps, j - 1, host);
    }
  }

  /**
   After that moment, until the next successful fetch of the host, a failure that is cached at all is
   cached for at most 2m x 1.1 exactly as long as the memory lasts, and from then on for at least
   1h x 0.9.
   */
  lemma LaterFailuresAreShort(states: seq<State>, steps: seq<Step>, i: nat, j: nat, host: string)
    requires IsRun(states, steps) && i <= j < |steps|
    requires forall t :: t in states[i].threads && Holds(states[i].threads[t]) ==> states[i].threads[t].host != host
    requires host in states[i].wellKnown && states[i].wellKnown[host].delegated != ""
    requires forall k :: i <= k < j ==> !Notes(states[k], steps[k], host)
    requires steps[j].Judge? && steps[j].t in states[j].threads && states[j].threads[steps[j].t].host == host
    requires states[j + 1].threads[steps[j].t].Storing?
    ensures host in states[i].lastOK
    ensures var e, period := states[i].wellKnown[host], states[j + 1].threads[steps[j].t].period;
            var until := e.expires + REMEMBER_HAD_VALID - (e.expires - e.ttl - states[i].lastOK[host].at);
            && (states[j].now < until <==> period <= 132 * SECOND)
            && (states[j].now >= until <==> period >= 54 * MINUTE - 1)
  {
    FreeLockRemembers(states, steps, i, host);
    MemoryStays(states, steps, i, j, host);
    RunStep(states, steps, j);
    FailurePeriodBounds(states[j].hadValid, host, states[j].now, steps[j].jitter);
  }
}
