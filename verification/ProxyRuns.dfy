/**
 Many proxied requests at once (pick, RoundTrip and releasingBody.Close of proxy.go). The requests
 share the round-robin counter and the in-flight counters; each step is one atomic operation on one
 of them, so the loads a choice looks at change under it. Endpoints are their positions in the pool.
 */
module ProxyRuns {
  import opened Common
  import opened Proxy
  import Runs

  datatype Request =
    | Choosing(asked: set<nat>, tries: nat)                          // at the head of RoundTrip's loop
    | Scanning(asked: set<nat>, tries: nat, offset: nat, looked: nat, best: Option<(nat, int)>, // in pick; seen are
               seen: seq<int>)                                                                  // the loads looked at
    | Chosen(asked: set<nat>, tries: nat, ep: nat)
    | Pending(asked: set<nat>, tries: nat, ep: nat)                  // the transport call has been counted ...
    | Erred(asked: set<nat>, tries: nat, ep: nat, dial: bool)        // ... and has failed, still counted
    // ... or answered: counted until its body is closed
    | Streaming(asked: set<nat>, tries: nat, ep: nat)
    | Released(asked: set<nat>, tries: nat, ep: nat)
    | GaveUp(asked: set<nat>, tries: nat, failure: Failure, lastRound: Option<nat>) // lastRound met nobody untried

  datatype State = State(rr: nat, inflight: map<nat, int>, requests: map<int, Request>)

  datatype Step =
    | Begin(r: int)
    | Rotate(r: int)
    | Look(r: int)
    | Decide(r: int)
    | Leave(r: int)
    | Count(r: int)
    | Return(r: int, outcome: Outcome)
    | Uncount(r: int)
    | Close(r: int)

  predicate At(s: State, r: int) {
    r in s.requests
  }

  predicate Enabled(n: nat, s: State, step: Step) {
    match step
    case Begin(r) => r !in s.requests
    case Rotate(r) => At(s, r) && s.requests[r].Choosing? && s.requests[r].tries < n
    case Look(r) =>
      && At(s, r) && s.requests[r].Scanning? && s.requests[r].looked < n
      && Turn(s.requests[r].offset, s.requests[r].looked, n) in s.inflight
    case Decide(r) => At(s, r) && s.requests[r].Scanning? && s.requests[r].looked == n
    case Leave(r) => At(s, r) && s.requests[r].Choosing? && s.requests[r].tries == n
    case Count(r) => At(s, r) && s.requests[r].Chosen? && s.requests[r].ep in s.inflight
    case Return(r, _) => At(s, r) && s.requests[r].Pending?
    case Uncount(r) => At(s, r) && s.requests[r].Erred? && s.requests[r].ep in s.inflight
    case Close(r) =>
      At(s, r) && (s.requests[r].Streaming? || s.requests[r].Released?) && s.requests[r].ep in s.inflight
  }

  /** RoundTrip's error after its loop: there is one only if some endpoint was tried. */
  function NoMore(tries: nat): Failure {
    if tries == 0 then NoUpstream else Unreachable
  }

  /** One turn of pick's loop: an endpoint already asked is passed over, a strictly less busy one replaces the best. */
  function Better(s: State, q: Request, n: nat): Option<(nat, int)>
    requires q.Scanning? && n > 0 && Turn(q.offset, q.looked, n) in s.inflight
  {
    var ep := Turn(q.offset, q.looked, n);
    if ep in q.asked then q.best
    else if q.best.None? || s.inflight[ep] < q.best.value.1 then Some((ep, s.inflight[ep]))
    else q.best
  }

  function Looked(n: nat, s: State, q: Request): Request
    requires q.Scanning? && n > 0 && Turn(q.offset, q.looked, n) in s.inflight
  {
    q.(looked := q.looked + 1, best := Better(s, q, n), seen := q.seen + [s.inflight[Turn(q.offset, q.looked, n)]])
  }

  function Moved(n: nat, s: State, step: Step): Request
    requires Enabled(n, s, step)
  {
    match step
    case Begin(_) => Choosing({}, 0)
    case Rotate(r) => Scanning(s.requests[r].asked, s.requests[r].tries, (s.rr + 1) % TWO64, 0, None, [])
    case Look(r) => Looked(n, s, s.requests[r])
    case Decide(r) =>
      var Scanning(asked, tries, offset, _, best, _) := s.requests[r];
      if best.Some? then Chosen(asked, tries, best.value.0) else GaveUp(asked, tries, NoMore(tries), Some(offset))
    case Leave(r) => GaveUp(s.requests[r].asked, s.requests[r].tries, NoMore(s.requests[r].tries), None)
    case Count(r) =>
      var Chosen(asked, tries, ep) := s.requests[r];
      Pending(asked + {ep}, tries + 1, ep)
    case Return(r, outcome) =>
      var Pending(asked, tries, ep) := s.requests[r];
      if outcome.Response? then Streaming(asked, tries, ep) else Erred(asked, tries, ep, outcome.DialError?)
    case Uncount(r) =>
      var Erred(asked, tries, _, dial) := s.requests[r];
      if dial then Choosing(asked, tries) else GaveUp(asked, tries, Failed, None)
    case Close(r) => Released(s.requests[r].asked, s.requests[r].tries, s.requests[r].ep)
  }

  /** What a step adds to an endpoint's counter: a second Close of a body adds nothing. */
  function Change(s: State, step: Step): int {
    match step
    case Count(_) => 1
    case Uncount(_) => -1
    case Close(r) => if r in s.requests && s.requests[r].Streaming? then -1 else 0
    case _ => 0
  }

  function Next(n: nat, s: State, step: Step): State
    requires Enabled(n, s, step)
  {
    var requests := s.requests[step.r := Moved(n, s, step)];
    if step.Count? || step.Uncount? || step.Close? then
      var ep := s.requests[step.r].ep;
      s.(inflight := s.inflight[ep := s.inflight[ep] + Change(s, step)], requests := requests)
    else s.(rr := if step.Rotate? then (s.rr + 1) % TWO64 else s.rr, requests := requests)
  }

  // --- the counters -------------------------------------------------------------------------------

  /** A transport call of the request is pending at ep, or a body from there is not closed. */
  predicate Counted(request: Request, ep: nat) {
    (request.Pending? || request.Erred? || request.Streaming?) && request.ep == ep
  }

  function InFlight(s: State, ep: nat): set<int> {
    set r | r in s.requests && Counted(s.requests[r], ep)
  }

  /** The positions of a pool of n endpoints. */
  function Pool(n: nat): (all: set<nat>)
    ensures |all| == n && forall ep: nat :: ep in all <==> ep < n
  {
    if n == 0 then {} else Pool(n - 1) + {n - 1}
  }

  /** Nobody the round from offset meets is untried. */
  ghost predicate MeetsNobody(n: nat, asked: set<nat>, offset: nat)
    requires n > 0
  {
    forall i: nat :: i < n ==> Turn(offset, i, n) in asked
  }

  /** Whoever was looked at j-th is asked already, or no less busy than load; busier if looked at before the at-th. */
  ghost predicate NoBetter(n: nat, q: Request, j: nat, load: int, at: nat)
    requires n > 0 && q.Scanning? && j < |q.seen|
  {
    (q.offset + j) % TWO64 % n in q.asked || (if j < at then load < q.seen[j] else load <= q.seen[j])
  }

  /** best was looked at at-th, is not asked, and is the first least busy of those looked at that are not. */
  ghost predicate FirstLeastBusy(n: nat, q: Request, at: nat, best: (nat, int))
    requires n > 0 && q.Scanning?
  {
    && at < |q.seen| && best.0 == (q.offset + at) % TWO64 % n && best.0 !in q.asked && best.1 == q.seen[at]
    && forall j: nat :: j < |q.seen| ==> NoBetter(n, q, j, best.1, at)
  }

  /** What a scan has settled: whom it met is asked already, or the best of them is the first least busy that is not. */
  ghost predicate ScanOK(n: nat, q: Request)
    requires n > 0 && q.Scanning?
  {
    && |q.seen| == q.looked <= n && q.offset < TWO64
    && (q.best.Some? ==> exists at: nat :: FirstLeastBusy(n, q, at, q.best.value))
    && (q.best.None? ==> forall i: nat :: i < q.looked ==> Turn(q.offset, i, n) in q.asked)
  }

  lemma LookOK(n: nat, s: State, q: Request)
    requires n > 0 && q.Scanning? && ScanOK(n, q) && q.looked < n && Turn(q.offset, q.looked, n) in s.inflight
    ensures ScanOK(n, Looked(n, s, q))
  {
    var q' := Looked(n, s, q);
    var ep := Turn(q.offset, q.looked, n);
    if q.best.Some? {
      var at: nat :| FirstLeastBusy(n, q, at, q.best.value);
      if ep in q.asked || s.inflight[ep] >= q.best.value.1 {
        NoLessBusy(n, q, q', at, s.inflight[ep]);
      } else {
        LessBusy(n, q, q', at, s.inflight[ep]);
      }
    } else if ep !in q.asked {
      OnlyOne(n, q, q', s.inflight[ep]);
    }
  }

  lemma NoLessBusy(n: nat, q: Request, q': Request, at: nat, load: int)
    requires n > 0 && q.Scanning? && q.best.Some? && FirstLeastBusy(n, q, at, q.best.value)
    requires q.looked == |q.seen| && (Turn(q.offset, q.looked, n) in q.asked || load >= q.best.value.1)
    requires q' == q.(looked := q.looked + 1, seen := q.seen + [load])
    ensures FirstLeastBusy(n, q', at, q.best.value)
  {
    forall j: nat | j < |q'.seen| ensures NoBetter(n, q', j, q.best.value.1, at) {
      assert j < |q.seen| ==> NoBetter(n, q, j, q.best.value.1, at);
    }
  }

  lemma OnlyOne(n: nat, q: Request, q': Request, load: int)
    requires n > 0 && q.Scanning? && q.looked == |q.seen| && Turn(q.offset, q.looked, n) !in q.asked
    requires forall i: nat :: i < q.looked ==> Turn(q.offset, i, n) in q.asked
    requires q'
             == q.(looked := q.looked + 1, best := Some((Turn(q.offset, q.looked, n), load)), seen := q.seen + [load])
    ensures FirstLeastBusy(n, q', q.looked, q'.best.value)
  {
    forall j: nat | j < |q'.seen| ensures NoBetter(n, q', j, load, q.looked) {
      assert j < |q.seen| ==> Turn(q.offset, j, n) in q.asked;
    }
  }

  lemma LessBusy(n: nat, q: Request, q': Request, at: nat, load: int)
    requires n > 0 && q.Scanning? && q.best.Some? && FirstLeastBusy(n, q, at, q.best.value) && load < q.best.value.1
    requires q.looked == |q.seen| && Turn(q.offset, q.looked, n) !in q.asked
    requires q'
             == q.(looked := q.looked + 1, best := Some((Turn(q.offset, q.looked, n), load)), seen := q.seen + [load])
    ensures FirstLeastBusy(n, q', q.looked, q'.best.value)
  {
    forall j: nat | j < |q'.seen| ensures NoBetter(n, q', j, load, q.looked) {
      assert j < |q.seen| ==> NoBetter(n, q, j, q.best.value.1, at);
    }
  }

  ghost predicate RequestOK(n: nat, q: Request) {
    && (forall ep :: ep in q.asked ==> ep < n)
    && |q.asked| == q.tries <= n
    && (q.Scanning? ==> q.tries < n && ScanOK(n, q))
    && (q.Chosen? ==> q.ep < n && q.ep !in q.asked && q.tries < n)
    && (q.Pending? || q.Erred? || q.Streaming? || q.Released? ==> q.ep in q.asked)
    && (q.GaveUp? && !q.failure.Failed? ==>
          && q.failure == NoMore(q.tries)
          && match q.lastRound
             case None => q.tries == n
             case Some(offset) => q.tries < n && offset < TWO64 && MeetsNobody(n, q.asked, offset))
  }

  ghost predicate Inv(n: nat, s: State) {
    && s.rr < TWO64
    && (forall ep: nat :: ep < n <==> ep in s.inflight)
    && (forall ep :: ep in s.inflight ==> s.inflight[ep] == |InFlight(s, ep)|)
    && (forall r :: r in s.requests ==> RequestOK(n, s.requests[r]))
  }

  lemma CountsAfter(s: State, s': State, r: int, q: Request, ep: nat)
    requires s'.requests == s.requests[r := q]
    ensures InFlight(s', ep) - {r} == InFlight(s, ep) - {r}
    ensures |InFlight(s', ep)| - (if Counted(q, ep) then 1 else 0)
            == |InFlight(s, ep)| - (if r in s.requests && Counted(s.requests[r], ep) then 1 else 0)
  {
    var a, b := InFlight(s, ep), InFlight(s', ep);
    assert b - {r} == a - {r};
    assert r in a ==> a == (a - {r}) + {r};
    assert r in b ==> b == (b - {r}) + {r};
  }

  lemma StepKeepsCounts(n: nat, s: State, step: Step)
    requires Inv(n, s) && Enabled(n, s, step)
    ensures var s' := Next(n, s, step);
            && (forall ep: nat :: ep < n <==> ep in s'.inflight)
            && (forall ep :: ep in s'.inflight ==> s'.inflight[ep] == |InFlight(s', ep)|)
  {
    var s' := Next(n, s, step);
    forall ep | ep in s'.inflight ensures s'.inflight[ep] == |InFlight(s', ep)| {
      CountsAfter(s, s', step.r, s'.requests[step.r], ep);
    }
  }

  lemma MovedOK(n: nat, s: State, step: Step)
    requires Inv(n, s) && Enabled(n, s, step)
    ensures RequestOK(n, Moved(n, s, step))
  {
    assert step.r in s.requests ==> RequestOK(n, s.requests[step.r]);
    if step.Look? {
      LookOK(n, s, s.requests[step.r]);
    }
  }

  lemma StepKeeps(n: nat, s: State, step: Step)
    requires Inv(n, s) && Enabled(n, s, step)
    ensures Inv(n, Next(n, s, step))
  {
    StepKeepsCounts(n, s, step);
    MovedOK(n, s, step);
  }

  ghost predicate Initial(n: nat, s: State) {
    && s.requests == map[] && s.rr < TWO64
    && (forall ep: nat :: ep < n <==> ep in s.inflight) && (forall ep :: ep in s.inflight ==> s.inflight[ep] == 0)
  }

  ghost predicate Steps(n: nat, s: State, step: Step, s': State) {
    Enabled(n, s, step) && s' == Next(n, s, step)
  }

  ghost predicate IsRun(n: nat, states: seq<State>, steps: seq<Step>) {
    Runs.IsRun((s: State) => Initial(n, s), (s: State, l: Step, s': State) => Steps(n, s, l, s'), states, steps)
  }

  lemma RunInv(n: nat, states: seq<State>, steps: seq<Step>, i: nat)
    requires IsRun(n, states, steps) && i < |states|
    ensures Inv(n, states[i])
  {
    assert Inv(n, states[0]) by {
      forall ep | ep in states[0].inflight ensures |InFlight(states[0], ep)| == 0 {
        assert InFlight(states[0], ep) == {};
      }
    }
    forall s, l, s' | Inv(n, s) && Steps(n, s, l, s') ensures Inv(n, s') {
      StepKeeps(n, s, l);
    }
    Runs.Invariant((s: State) => Initial(n, s), (s: State, l: Step, s': State) => Steps(n, s, l, s'),
                   (s: State) => Inv(n, s), states, steps, i);
  }

  /** At every moment an endpoint's counter is the number of its pending calls and unclosed bodies. */
  lemma CountersAreExact(n: nat, states: seq<State>, steps: seq<Step>, i: nat, ep: nat)
    requires IsRun(n, states, steps) && i < |states| && ep < n
    ensures ep in states[i].inflight && states[i].inflight[ep] == |InFlight(states[i], ep)|
  {
    RunInv(n, states, steps, i);
  }

  // --- choosing ----------------------------------------------------------------------------------

  /**
   Over every interleaving, whoever a request chooses is the first least busy of those it had not asked, by the
   loads its scan looked at; and it gives up a scan only if it had asked everyone it met.
   */
  lemma ChoosesLeastBusy(n: nat, states: seq<State>, steps: seq<Step>, i: nat)
    requires IsRun(n, states, steps) && i < |steps| && steps[i].Decide?
    ensures var r := steps[i].r;
            && n > 0 && r in states[i].requests && r in states[i + 1].requests && states[i].requests[r].Scanning?
            && var (q, q') := (states[i].requests[r], states[i + 1].requests[r]);
            && |q.seen| == n
            && match q'
               case Chosen(_, _, ep) => exists at: nat :: at < n && FirstLeastBusy(n, q, at, (ep, q.seen[at]))
               case _ => q'.GaveUp? && MeetsNobody(n, q.asked, q.offset)
  {
    RunInv(n, states, steps, i);
    assert Steps(n, states[i], steps[i], states[i + 1]);
    var q := states[i].requests[steps[i].r];
    assert RequestOK(n, q);
    if q.best.Some? {
      var at: nat :| FirstLeastBusy(n, q, at, q.best.value);
      assert q.best.value == (q.best.value.0, q.seen[at]);
    }
  }

  /** At step j the scan of request r looks at whoever has the k-th turn. */
  ghost predicate LooksAt(n: nat, states: seq<State>, steps: seq<Step>, j: nat, r: int, k: nat, load: int)
    requires j < |steps| < |states|
  {
    && steps[j] == Look(r) && r in states[j].requests && states[j].requests[r].Scanning?
    && states[j].requests[r].looked == k && n > 0
    && var ep := (states[j].requests[r].offset + k) % TWO64 % n;
    ep in states[j].inflight && load == states[j].inflight[ep]
  }

  /** A scan that is under way was so before, and has looked at one more if it was its turn; or it begins. */
  lemma ScanGoesOn(n: nat, s: State, step: Step, r: int, k: nat)
    requires Inv(n, s) && Enabled(n, s, step)
    requires var s' := Next(n, s, step); r in s'.requests && s'.requests[r].Scanning? && k < |s'.requests[r].seen|
    ensures r in s.requests && s.requests[r].Scanning?
    ensures var q, q' := s.requests[r], Next(n, s, step).requests[r];
            if k < |q.seen| then q'.seen[k] == q.seen[k]
            else && step == Look(r) && k == q.looked && n > 0
                 && var ep := (q.offset + k) % TWO64 % n; ep in s.inflight && q'.seen[k] == s.inflight[ep]
  {
    assert r in s.requests ==> RequestOK(n, s.requests[r]);
  }

  /** The loads of a scan are the counters at the moments it looked at them. */
  lemma {:induction false} LoadsAreRead(n: nat, states: seq<State>, steps: seq<Step>, i: nat, r: int, k: nat)
    requires IsRun(n, states, steps) && i < |states| && r in states[i].requests && states[i].requests[r].Scanning?
    requires k < |states[i].requests[r].seen|
    ensures exists j: nat :: j < i && LooksAt(n, states, steps, j, r, k, states[i].requests[r].seen[k])
  {
    assert i > 0;
    RunInv(n, states, steps, i - 1);
    assert Steps(n, states[i - 1], steps[i - 1], states[i]);
    ScanGoesOn(n, states[i - 1], steps[i - 1], r, k);
    if k >= |states[i - 1].requests[r].seen| {
      assert LooksAt(n, states, steps, i - 1, r, k, states[i].requests[r].seen[k]);
    } else {
      LoadsAreRead(n, states, steps, i - 1, r, k);
    }
  }

  // --- asking again --------------------------------------------------------------------------------

  /** A request that was answered, or failed otherwise than in reaching its endpoint, or waits for either. */
  predicate IsSpent(q: Request) {
    q.Pending? || (q.Erred? && !q.dial) || q.Streaming? || q.Released? || q.GaveUp?
  }

  lemma StaysSpent(n: nat, s: State, step: Step, r: int)
    requires Enabled(n, s, step) && r in s.requests && IsSpent(s.requests[r]) && step != Return(r, DialError)
    ensures r in Next(n, s, step).requests && IsSpent(Next(n, s, step).requests[r])
  {
  }

  lemma {:induction false} SpentThroughout(n: nat, states: seq<State>, steps: seq<Step>, i: nat, j: nat, r: int)
    requires IsRun(n, states, steps) && i <= j < |states| && r in states[i].requests && IsSpent(states[i].requests[r])
    requires forall k :: i <= k < j ==> steps[k] != Return(r, DialError)
    ensures r in states[j].requests && IsSpent(states[j].requests[r])
  {
    if i < j {
      SpentThroughout(n, states, steps, i, j - 1, r);
      assert Steps(n, states[j - 1], steps[j - 1], states[j]);
      StaysSpent(n, states[j - 1], steps[j - 1], r);
    }
  }

  /** Between two calls of one request the first of them has come back with no connection. */
  lemma AsksAgainAfterDialError(n: nat, states: seq<State>, steps: seq<Step>, i: nat, j: nat, r: int)
    requires IsRun(n, states, steps) && i < j < |steps| && steps[i] == steps[j] == Count(r)
    ensures exists k :: i < k < j && steps[k] == Return(r, DialError)
  {
    assert Steps(n, states[i], steps[i], states[i + 1]) && Steps(n, states[j], steps[j], states[j + 1]);
    if forall k :: i < k < j ==> steps[k] != Return(r, DialError) {
      SpentThroughout(n, states, steps, i + 1, j, r);
    }
  }

  // --- giving up ---------------------------------------------------------------------------------

  /** As many different endpoints as there are is all of them. */
  lemma FullCount(n: nat, asked: set<nat>)
    requires asked <= Pool(n) && |asked| == n
    ensures asked == Pool(n)
  {
    assert Pool(n) == asked + (Pool(n) - asked);
    assert |Pool(n) - asked| == 0;
  }

  function Turns(n: nat, offset: nat): set<nat>
    requires n > 0
  {
    set i: nat | i < n :: Turn(offset, i, n)
  }

  /**
   A round gives everyone a turn if and only if no request that has tries left, and so has not asked
   everyone, can meet nobody untried in it.
   */
  lemma MissLeavesSomeone(n: nat, offset: nat)
    requires n > 0
    ensures Covers(offset, n) <==>
            forall asked: set<nat> :: asked <= Pool(n) && |asked| < n ==> !MeetsNobody(n, asked, offset)
  {
    if Covers(offset, n) {
      forall asked: set<nat> | asked <= Pool(n) && |asked| < n ensures !MeetsNobody(n, asked, offset) {
        MeetsSomeone(n, asked, offset);
      }
    } else {
      var asked := Turns(n, offset);
      var k: nat :| k < n && !HasTurn(offset, n, k);
      assert MeetsNobody(n, asked, offset) && asked <= Pool(n) && k !in asked;
      Fewer(asked, Pool(n), k);
    }
  }

  lemma SomeoneElse(n: nat, asked: set<nat>) returns (ep: nat)
    requires asked <= Pool(n) && |asked| < n
    ensures ep < n && ep !in asked
  {
    assert Pool(n) == asked + (Pool(n) - asked);
    assert |Pool(n) - asked| > 0;
    ep :| ep in Pool(n) - asked;
  }

  lemma MeetsSomeone(n: nat, asked: set<nat>, offset: nat)
    requires n > 0 && asked <= Pool(n) && |asked| < n
    ensures Covers(offset, n) ==> !MeetsNobody(n, asked, offset)
  {
    var ep := SomeoneElse(n, asked);
    assert Covers(offset, n) ==> HasTurn(offset, n, ep);
  }

  lemma Fewer(a: set<nat>, b: set<nat>, k: nat)
    requires a <= b && k in b && k !in a
    ensures |a| < |b|
  {
    assert b == a + (b - a) && k in b - a;
  }

  /** What RequestOK says of a request that gave up without an error of its own. */
  lemma GaveUpOK(n: nat, q: Request)
    requires RequestOK(n, q) && q.GaveUp? && !q.failure.Failed?
    ensures q.asked <= Pool(n) && (q.asked == Pool(n) <==> q.lastRound.None?)
    ensures q.lastRound.Some? ==> n > 0 && !Covers(q.lastRound.value, n)
    ensures q.failure.NoUpstream? <==> n == 0
  {
    match q.lastRound
    case None => FullCount(n, q.asked);
    case Some(offset) =>
      MeetsSomeone(n, q.asked, offset);
      assert Turn(offset, 0, n) in q.asked;
  }

  /**
   A request that gives up without an error of its own has asked everyone if and only if it left the
   loop by the count of its tries, each at another endpoint. If it left because a round met nobody
   untried, that round had no turn for somebody, and somebody was not asked.
   */
  lemma GaveUpExactly(n: nat, states: seq<State>, steps: seq<Step>, i: nat, r: int)
    requires IsRun(n, states, steps) && i < |states| && r in states[i].requests
    requires states[i].requests[r].GaveUp? && !states[i].requests[r].failure.Failed?
    ensures var q := states[i].requests[r];
            && q.asked <= Pool(n) && (q.asked == Pool(n) <==> q.lastRound.None?)
            && (q.lastRound.Some? ==> n > 0 && !Covers(q.lastRound.value, n))
            && (q.failure.NoUpstream? <==> n == 0)
  {
    RunInv(n, states, steps, i);
    GaveUpOK(n, states[i].requests[r]);
  }

  /** Rounds so far started no later than the counter, which moves by at most one a step. */
  ghost predicate RoundsBy(s: State, most: nat) {
    s.rr <= most && forall r :: r in s.requests ==> RoundBy(s.requests[r], most)
  }

  predicate RoundBy(q: Request, most: nat) {
    (q.Scanning? ==> q.offset <= most) && (q.GaveUp? && q.lastRound.Some? ==> q.lastRound.value <= most)
  }

  lemma StepRounds(n: nat, s: State, step: Step, most: nat)
    requires Enabled(n, s, step) && RoundsBy(s, most) && most + 1 < TWO64
    ensures RoundsBy(Next(n, s, step), most + 1)
  {
    var s' := Next(n, s, step);
    forall r | r in s'.requests ensures RoundBy(s'.requests[r], most + 1) {
      assert r in s.requests ==> RoundBy(s.requests[r], most);
    }
  }

  lemma {:induction false} RunRounds(n: nat, states: seq<State>, steps: seq<Step>, i: nat)
    requires IsRun(n, states, steps) && i < |states| && states[0].rr + i < TWO64
    ensures RoundsBy(states[i], states[0].rr + i)
  {
    if i > 0 {
      RunRounds(n, states, steps, i - 1);
      assert Steps(n, states[i - 1], steps[i - 1], states[i]);
      StepRounds(n, states[i - 1], steps[i - 1], states[0].rr + i - 1);
    }
  }

  /** Everyone is asked as long as the counter is short of its wrap, and always by a pool whose size divides 2^64. */
  lemma UnreachableBeforeWrap(n: nat, states: seq<State>, steps: seq<Step>, i: nat, r: int)
    requires IsRun(n, states, steps) && i < |states| && r in states[i].requests && n <= TWO64
    requires states[i].requests[r].GaveUp? && !states[i].requests[r].failure.Failed?
    requires states[0].rr + i + n <= TWO64 || n == 0 || TWO64 % n == 0
    ensures states[i].requests[r].asked == Pool(n)
  {
    GaveUpExactly(n, states, steps, i, r);
    var q := states[i].requests[r];
    if q.lastRound.Some? {
      RunInv(n, states, steps, i);
      assert RequestOK(n, q);
      if states[0].rr + i + n <= TWO64 {
        RunRounds(n, states, steps, i);
        assert RoundBy(q, states[0].rr + i);
      }
      CoversExactly(q.lastRound.value, n);
    }
  }

  // --- one that gives up too soon -----------------------------------------------------------------

  ghost predicate Reachable(n: nat, s: State) {
    exists states, steps :: IsRun(n, states, steps) && states[|states| - 1] == s
  }

  lemma OneMore(n: nat, s: State, step: Step)
    requires Reachable(n, s) && Enabled(n, s, step)
    ensures Reachable(n, Next(n, s, step))
  {
    var states, steps :| IsRun(n, states, steps) && states[|states| - 1] == s;
    var states', steps' := states + [Next(n, s, step)], steps + [step];
    forall i {:trigger steps'[i]} | 0 <= i < |steps'| ensures Steps(n, states'[i], steps'[i], states'[i + 1]) {
      assert i < |steps| ==> Steps(n, states[i], steps[i], states[i + 1]);
    }
    assert IsRun(n, states', steps') && states'[|states'| - 1] == Next(n, s, step);
  }

  /** An idle pool, with the counter where it is and these requests in it. */
  function Idle(n: nat, rr: nat, requests: map<int, Request>): State {
    State(rr, map ep: nat | ep in Pool(n) :: 0, requests)
  }

  /** The rest of the round changes nothing: whom it meets is asked already, or no less busy than the idle best. */
  ghost predicate Settled(n: nat, asked: set<nat>, offset: nat, looked: nat, best: Option<(nat, int)>)
    requires n > 0
  {
    if best.Some? then best.value.1 == 0 else forall i: nat :: looked <= i < n ==> Turn(offset, i, n) in asked
  }

  function Zeros(k: nat): seq<int> {
    seq(k, _ => 0)
  }

  /** The scan once it has looked at everyone else of an idle pool. */
  function LookedOn(n: nat, q: Request): Request
    requires q.Scanning? && q.looked <= n
  {
    q.(looked := n, seen := q.seen + Zeros(n - q.looked))
  }

  /** Request 0 looks its way to the end of its round. */
  lemma {:induction false} LooksOn(n: nat, rr: nat, requests: map<int, Request>, q: Request)
    requires n > 0 && q.Scanning? && q.looked <= n && Settled(n, q.asked, q.offset, q.looked, q.best)
    requires 0 in requests && requests[0] == q && Reachable(n, Idle(n, rr, requests))
    ensures Reachable(n, Idle(n, rr, requests[0 := LookedOn(n, q)]))
    decreases n - q.looked
  {
    if q.looked < n {
      var s, q' := Idle(n, rr, requests), q.(looked := q.looked + 1, seen := q.seen + [0]);
      assert Turn(q.offset, q.looked, n) in s.inflight;
      OneMore(n, s, Look(0));
      assert Next(n, s, Look(0)) == Idle(n, rr, requests[0 := q']);
      LooksOn(n, rr, requests[0 := q'], q');
      assert q'.seen + Zeros(n - q'.looked) == q.seen + Zeros(n - q.looked);
      assert requests[0 := q'][0 := LookedOn(n, q)] == requests[0 := LookedOn(n, q)];
    } else {
      assert q.seen + Zeros(0) == q.seen;
      assert requests[0 := q] == requests;
    }
  }

  /** Looking at an idle endpoint with no best yet makes it the best. */
  lemma LooksIdle(n: nat, rr: nat, requests: map<int, Request>, q: Request, ep: nat)
    requires n > 0 && q.Scanning? && q.looked < n && q.best.None? && 0 in requests && requests[0] == q
    requires ep == Turn(q.offset, q.looked, n) && ep !in q.asked && Reachable(n, Idle(n, rr, requests))
    ensures var q' := q.(looked := q.looked + 1, best := Some((ep, 0)), seen := q.seen + [0]);
            Reachable(n, Idle(n, rr, requests[0 := q']))
  {
    var s := Idle(n, rr, requests);
    assert ep in s.inflight && s.inflight[ep] == 0;
    OneMore(n, s, Look(0));
    var q' := q.(looked := q.looked + 1, best := Some((ep, 0)), seen := q.seen + [0]);
    assert Next(n, s, Look(0)) == Idle(n, rr, requests[0 := q']);
  }

  /** On an idle pool request 0 chooses the endpoint its round begins with, unless it has asked that one. */
  lemma ChoosesFirst(n: nat, rr: nat, requests: map<int, Request>, q: Request, ep: nat)
    requires n > 0 && q.Scanning? && q.looked == 0 && q.best.None? && 0 in requests && requests[0] == q
    requires ep == Turn(q.offset, 0, n) && ep !in q.asked && Reachable(n, Idle(n, rr, requests))
    ensures Reachable(n, Idle(n, rr, requests[0 := Chosen(q.asked, q.tries, ep)]))
  {
    LooksIdle(n, rr, requests, q, ep);
    var q' := q.(looked := q.looked + 1, best := Some((ep, 0)), seen := q.seen + [0]);
    LooksOn(n, rr, requests[0 := q'], q');
    var last := LookedOn(n, q');
    assert requests[0 := q'][0 := last] == requests[0 := last];
    var s := Idle(n, rr, requests[0 := last]);
    OneMore(n, s, Decide(0));
    assert Next(n, s, Decide(0)) == Idle(n, rr, requests[0 := Chosen(q.asked, q.tries, ep)]);
  }

  lemma Rotates(n: nat, rr: nat, requests: map<int, Request>, asked: set<nat>, tries: nat)
    requires tries < n && 0 in requests && requests[0] == Choosing(asked, tries) && Reachable(n, Idle(n, rr, requests))
    ensures var offset := (rr + 1) % TWO64;
            Reachable(n, Idle(n, offset, requests[0 := Scanning(asked, tries, offset, 0, None, [])]))
  {
    var s, offset := Idle(n, rr, requests), (rr + 1) % TWO64;
    OneMore(n, s, Rotate(0));
    assert Next(n, s, Rotate(0)) == Idle(n, offset, requests[0 := Scanning(asked, tries, offset, 0, None, [])]);
  }

  /** The pool while request 0 is calling ep. */
  function Calling(n: nat, rr: nat, ep: nat, requests: map<int, Request>): State {
    State(rr, Idle(n, rr, map[]).inflight[ep := 1], requests)
  }

  lemma Calls(n: nat, rr: nat, requests: map<int, Request>, asked: set<nat>, tries: nat, ep: nat)
    requires ep < n && 0 in requests && requests[0] == Chosen(asked, tries, ep) && Reachable(n, Idle(n, rr, requests))
    ensures Reachable(n, Calling(n, rr, ep, requests[0 := Pending(asked + {ep}, tries + 1, ep)]))
  {
    var s := Idle(n, rr, requests);
    assert ep in s.inflight && s.inflight[ep] == 0;
    OneMore(n, s, Count(0));
    assert Next(n, s, Count(0)) == Calling(n, rr, ep, requests[0 := Pending(asked + {ep}, tries + 1, ep)]);
  }

  lemma CannotReach(n: nat, rr: nat, requests: map<int, Request>, asked: set<nat>, tries: nat, ep: nat)
    requires ep < n && 0 in requests && requests[0] == Pending(asked, tries, ep)
    requires Reachable(n, Calling(n, rr, ep, requests))
    ensures Reachable(n, Idle(n, rr, requests[0 := Choosing(asked, tries)]))
  {
    var s, failed := Calling(n, rr, ep, requests), requests[0 := Erred(asked, tries, ep, true)];
    OneMore(n, s, Return(0, DialError));
    var s' := Calling(n, rr, ep, failed);
    assert Next(n, s, Return(0, DialError)) == s';
    OneMore(n, s', Uncount(0));
    assert s'.inflight[ep := 0] == Idle(n, rr, map[]).inflight;
    assert failed[0 := Choosing(asked, tries)] == requests[0 := Choosing(asked, tries)];
    assert Next(n, s', Uncount(0)) == Idle(n, rr, requests[0 := Choosing(asked, tries)]);
  }

  /** On an idle pool request 0 asks whom its next round begins with, in vain, and leaves the pool idle. */
  lemma AsksOne(n: nat, rr: nat, requests: map<int, Request>, asked: set<nat>, tries: nat, ep: nat)
    requires tries < n && 0 in requests && requests[0] == Choosing(asked, tries)
    requires ep == Turn((rr + 1) % TWO64, 0, n) && ep !in asked && Reachable(n, Idle(n, rr, requests))
    ensures Reachable(n, Idle(n, (rr + 1) % TWO64, requests[0 := Choosing(asked + {ep}, tries + 1)]))
  {
    var offset := (rr + 1) % TWO64;
    Rotates(n, rr, requests, asked, tries);
    var q := Scanning(asked, tries, offset, 0, None, []);
    ChoosesFirst(n, offset, requests[0 := q], q, ep);
    var chosen := requests[0 := q][0 := Chosen(asked, tries, ep)];
    Calls(n, offset, chosen, asked, tries, ep);
    var pending := chosen[0 := Pending(asked + {ep}, tries + 1, ep)];
    CannotReach(n, offset, pending, asked + {ep}, tries + 1, ep);
    assert pending[0 := Choosing(asked + {ep}, tries + 1)] == requests[0 := Choosing(asked + {ep}, tries + 1)];
  }

  lemma TurnFirst(k: nat, n: nat)
    requires k < n < TWO64
    ensures Turn(k, 0, n) == k
  {
    Reduce(k, TWO64);
    Reduce(k, n);
  }

  /** Request 0, of those in the pool the only one, has asked the first k endpoints. */
  function Asked(k: nat): map<int, Request> {
    map[0 := Choosing(Pool(k), k)]
  }

  lemma AskedNext(k: nat)
    ensures 0 in Asked(k) && Asked(k)[0] == Choosing(Pool(k), k) && k !in Pool(k)
    ensures Asked(k)[0 := Choosing(Pool(k) + {k}, k + 1)] == Asked(k + 1)
  {
    assert Pool(k + 1) == Pool(k) + {k};
  }

  lemma AsksNext(n: nat, rr: nat, k: nat)
    requires k < n < TWO64 && (rr + 1) % TWO64 == k && Reachable(n, Idle(n, rr, Asked(k)))
    ensures Reachable(n, Idle(n, k, Asked(k + 1)))
  {
    TurnFirst(k, n);
    AskedNext(k);
    AsksOne(n, rr, Asked(k), Pool(k), k, k);
  }

  /** The counter before it is k. */
  function Before(k: nat): nat {
    if k == 0 then TWO64 - 1 else k - 1
  }

  lemma NextIs(k: nat)
    requires k < TWO64
    ensures (Before(k) + 1) % TWO64 == k
  {
  }

  lemma BeginsAtWrap(n: nat)
    ensures Reachable(n, Idle(n, Before(0), Asked(0)))
  {
    var start := Idle(n, Before(0), map[]);
    assert Reachable(n, start) by {
      assert IsRun(n, [start], []);
    }
    OneMore(n, start, Begin(0));
    assert Next(n, start, Begin(0)) == Idle(n, Before(0), Asked(0));
  }

  /** Starting as the counter wraps to zero, request 0 asks one endpoint after another and reaches none. */
  lemma {:induction false} AsksInVain(n: nat, k: nat)
    requires k < n < TWO64
    ensures Reachable(n, Idle(n, Before(k), Asked(k)))
  {
    if k == 0 {
      BeginsAtWrap(n);
    } else {
      AsksInVain(n, k - 1);
      NextIs(k - 1);
      AsksNext(n, Before(k - 1), k - 1);
    }
  }

  /** Requests 1 to m have each taken a turn of the counter and go no further. */
  ghost predicate Ticking(requests: map<int, Request>, m: nat, q: Request) {
    0 in requests && requests[0] == q && forall r :: r in requests ==> 0 <= r <= m
  }

  lemma {:induction false} OthersTick(n: nat, rr: nat, m: nat, q: Request) returns (requests: map<int, Request>)
    requires n > 0 && rr + m < TWO64 && Reachable(n, Idle(n, rr, map[0 := q]))
    ensures Ticking(requests, m, q) && Reachable(n, Idle(n, rr + m, requests))
  {
    if m == 0 {
      return map[0 := q];
    }
    requests := OthersTick(n, rr, m - 1, q);
    var s := Idle(n, rr + m - 1, requests);
    OneMore(n, s, Begin(m));
    requests := requests[m := Choosing({}, 0)];
    assert Next(n, s, Begin(m)) == Idle(n, rr + m - 1, requests);
    s := Idle(n, rr + m - 1, requests);
    OneMore(n, s, Rotate(m));
    requests := requests[m := Scanning({}, 0, rr + m, 0, None, [])];
    assert Next(n, s, Rotate(m)) == Idle(n, rr + m, requests);
  }

  /** The round that starts right before the wrap goes round all but the last endpoint, unless n divides 2^64. */
  lemma LastIsSkipped(n: nat)
    requires 0 < n < TWO64 && TWO64 % n != 0
    ensures n > 1 && MeetsNobody(n, Pool(n - 1), TWO64 - 1)
  {
    var offset := TWO64 - 1;
    WrapMeets(offset, n);
    forall i: nat {:trigger Turn(offset, i, n)} | i < n ensures Turn(offset, i, n) in Pool(n - 1) {
      TurnIs(offset, i, n);
    }
  }

  /** A request has given up without having asked the last endpoint. */
  predicate GaveUpOnOne(n: nat, s: State) {
    && n > 0 && 0 in s.requests && s.requests[0].GaveUp?
    && s.requests[0].failure.Unreachable? && s.requests[0].asked == Pool(n - 1)
  }

  /**
   With any number of endpoints that does not divide 2^64, a request can answer that nobody is
   reachable without having asked the last one: others take turns of the counter in between.
   */
  lemma GivesUpTooSoon(n: nat)
    requires 0 < n < TWO64 && TWO64 % n != 0
    ensures exists states, steps :: IsRun(n, states, steps) && GaveUpOnOne(n, states[|states| - 1])
  {
    LastIsSkipped(n);
    AsksInVain(n, n - 1);
    var asked := Pool(n - 1);
    var requests := OthersTick(n, n - 2, TWO64 - n, Choosing(asked, n - 1));
    var s := Idle(n, TWO64 - 2, requests);
    OneMore(n, s, Rotate(0));
    var q := Scanning(asked, n - 1, TWO64 - 1, 0, None, []);
    assert Next(n, s, Rotate(0)) == Idle(n, TWO64 - 1, requests[0 := q]);
    LooksOn(n, TWO64 - 1, requests[0 := q], q);
    var s' := Idle(n, TWO64 - 1, requests[0 := q][0 := LookedOn(n, q)]);
    OneMore(n, s', Decide(0));
    var end := Next(n, s', Decide(0));
    var states, steps :| IsRun(n, states, steps) && states[|states| - 1] == end;
    assert GaveUpOnOne(n, states[|states| - 1]);
  }

  /** Over every run, whoever gives up without an error of its own has asked everyone. */
  ghost predicate AlwaysAsksAll(n: nat) {
    forall s, r :: Reachable(n, s) && GivesUp(s, r) ==> s.requests[r].asked == Pool(n)
  }

  predicate GivesUp(s: State, r: int) {
    r in s.requests && s.requests[r].GaveUp? && !s.requests[r].failure.Failed?
  }

  /** That is so of exactly the pools that are empty or whose size divides 2^64. */
  lemma UnreachableAfterAll(n: nat)
    requires n < TWO64
    ensures AlwaysAsksAll(n) <==> n == 0 || TWO64 % n == 0
  {
    if n == 0 || TWO64 % n == 0 {
      forall s, r | Reachable(n, s) && GivesUp(s, r) ensures s.requests[r].asked == Pool(n) {
        var states, steps :| IsRun(n, states, steps) && states[|states| - 1] == s;
        UnreachableBeforeWrap(n, states, steps, |states| - 1, r);
      }
    } else {
      GivesUpTooSoon(n);
      var states, steps :| IsRun(n, states, steps) && GaveUpOnOne(n, states[|states| - 1]);
      var s := states[|states| - 1];
      assert Reachable(n, s) && GivesUp(s, 0) && n - 1 !in s.requests[0].asked;
    }
  }

  // --- asking ------------------------------------------------------------------------------------

  /** Whom a request has asked is never forgotten. */
  ghost predicate Remembers(s: State, s': State) {
    forall r :: r in s.requests ==> r in s'.requests && s.requests[r].asked <= s'.requests[r].asked
  }

  lemma StepRemembers(n: nat, s: State, step: Step)
    requires Enabled(n, s, step)
    ensures Remembers(s, Next(n, s, step))
  {
  }

  /** A request asks an endpoint at most once in its life. */
  lemma AskedOnce(n: nat, states: seq<State>, steps: seq<Step>, i: nat, j: nat)
    requires IsRun(n, states, steps) && i < j < |steps|
    requires steps[i].Count? && steps[j].Count? && steps[i].r == steps[j].r
    ensures var r := steps[i].r;
            && r in states[i].requests && r in states[j].requests
            && states[i].requests[r].Chosen? && states[j].requests[r].Chosen?
            && states[i].requests[r].ep != states[j].requests[r].ep
  {
    var r := steps[i].r;
    RunInv(n, states, steps, 0);
    RunInv(n, states, steps, j);
    forall s, l, s' | Inv(n, s) && Steps(n, s, l, s') ensures Inv(n, s') && Remembers(s, s') {
      StepKeeps(n, s, l);
      StepRemembers(n, s, l);
    }
    Runs.Monotone((s: State) => Initial(n, s), (s: State, l: Step, s': State) => Steps(n, s, l, s'),
        (s: State) => Inv(n, s),
                  (s: State, s': State) => Remembers(s, s'), states, steps, i + 1, j);
    assert Steps(n, states[i], steps[i], states[i + 1]) && Steps(n, states[j], steps[j], states[j + 1]);
    assert RequestOK(n, states[j].requests[r]);
  }
}
