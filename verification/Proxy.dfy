/** The least-connections pool of proxy.go: choosing an endpoint, retrying elsewhere and counting what is in flight. */
module Proxy {
  import opened Common

  const TWO64 := 0x1_0000_0000_0000_0000

  // --- the rotation -------------------------------------------------------------------------------

  /** The endpoint looked at i-th: the sum is a uint64 and wraps before it is reduced. */
  function Turn(offset: nat, i: nat, n: nat): (k: nat)
    requires n > 0
    ensures k < n
  {
    (offset + i) % TWO64 % n
  }

  /** Every endpoint has its turn. */
  ghost predicate Covers(offset: nat, n: nat)
    requires n > 0
  {
    forall k :: 0 <= k < n ==> HasTurn(offset, n, k)
  }

  ghost predicate HasTurn(offset: nat, n: nat, k: nat)
    requires n > 0
  {
    exists i: nat :: i < n && Turn(offset, i, n) == k
  }

  lemma ModSum(a: nat, i: nat, n: nat)
    requires n > 0
    ensures (a + i) % n == (a % n + i) % n
  {
    var q := a / n;
    assert a == q * n + a % n;
    ModShift(a % n + i, q, n);
  }

  lemma {:induction false} ModShift(x: nat, q: nat, n: nat)
    requires n > 0
    ensures (x + q * n) % n == x % n
  {
    if q > 0 {
      ModShift(x, q - 1, n);
      assert x + q * n == (x + (q - 1) * n) + n;
      ModOnce(x + (q - 1) * n, n);
    }
  }

  lemma ModOnce(x: nat, n: nat)
    requires n > 0
    ensures (x + n) % n == x % n
  {
    var q, r := x / n, x % n;
    assert x + n == (q + 1) * n + r;
    Unique(x + n, n, q + 1, r);
  }

  lemma Unique(x: nat, n: nat, q: nat, r: nat)
    requires n > 0 && x == q * n + r && r < n
    ensures x % n == r
  {
    var d := x / n - q;
    assert x == (x / n) * n + x % n;
    assert d * n == r - x % n;
    assert d >= 1 ==> d * n >= n;
    assert d <= -1 ==> d * n + n <= 0;
  }

  lemma Reduce(x: nat, n: nat)
    requires 0 < n && x < 2 * n
    ensures x % n == if x < n then x else x - n
  {
    Unique(x, n, if x < n then 0 else 1, if x < n then x else x - n);
  }

  /** Before the wrap the turns go round from offset; after it they start again at endpoint 0. */
  lemma TurnIs(offset: nat, i: nat, n: nat)
    requires n > 0 && offset < TWO64 && i < n <= TWO64
    ensures var a := offset % n;
            Turn(offset, i, n) == if offset + i >= TWO64 then offset + i - TWO64
                                  else if a + i < n then a + i else a + i - n
  {
    Reduce(offset + i, TWO64);
    if offset + i < TWO64 {
      ModSum(offset, i, n);
      Reduce(offset % n + i, n);
    } else {
      Reduce(offset + i - TWO64, n);
    }
  }

  /**
   Every endpoint has its turn, unless the counter wraps in the middle of the round and the
   number of endpoints does not divide 2^64; then some endpoint has none.
   */
  lemma CoversExactly(offset: nat, n: nat)
    requires 0 < n <= TWO64 && offset < TWO64
    ensures Covers(offset, n) <==> offset + n <= TWO64 || TWO64 % n == 0
  {
    if offset + n <= TWO64 {
      RoundCovers(offset, n);
    } else {
      WrapMeets(offset, n);
      if TWO64 % n == 0 {
        WrapCovers(offset, n);
      } else {
        WrapSkips(offset, n);
      }
    }
  }

  lemma RoundCovers(offset: nat, n: nat)
    requires 0 < n <= TWO64 && offset + n <= TWO64
    ensures Covers(offset, n)
  {
    var a := offset % n;
    forall k | 0 <= k < n ensures HasTurn(offset, n, k) {
      var i := if k >= a then k - a else k + n - a;
      TurnIs(offset, i, n);
    }
  }

  /** Where the first part of a round that wraps would go on. */
  lemma WrapMeets(offset: nat, n: nat)
    requires 0 < n <= TWO64 && offset < TWO64 < offset + n
    ensures var a, w := offset % n, TWO64 - offset;
            TWO64 % n == if a + w < n then a + w else a + w - n
  {
    ModSum(offset, TWO64 - offset, n);
    Reduce(offset % n + (TWO64 - offset), n);
  }

  lemma WrapCovers(offset: nat, n: nat)
    requires 0 < n <= TWO64 && offset < TWO64 < offset + n && TWO64 % n == 0
    ensures Covers(offset, n)
  {
    WrapMeets(offset, n);
    var w := TWO64 - offset;
    forall k | 0 <= k < n ensures HasTurn(offset, n, k) {
      var i := if k < n - w then k + w else k - (n - w);
      TurnIs(offset, i, n);
    }
  }

  lemma WrapSkips(offset: nat, n: nat)
    requires 0 < n <= TWO64 && offset < TWO64 < offset + n && TWO64 % n != 0
    ensures !Covers(offset, n)
  {
    WrapMeets(offset, n);
    var w, r := TWO64 - offset, TWO64 % n;
    var k := if r <= w then r + n - w - 1 else n - 1;
    forall i: nat | i < n ensures Turn(offset, i, n) != k {
      TurnIs(offset, i, n);
    }
    assert !HasTurn(offset, n, k);
  }

  /** The counter after k more requests. */
  function Ticked(rr: nat, k: nat): nat {
    if k == 0 then rr else (Ticked(rr, k - 1) + 1) % TWO64
  }

  lemma {:induction false} TickedIs(rr: nat, k: nat)
    requires rr < TWO64 && k <= TWO64
    ensures Ticked(rr, k) == if rr + k < TWO64 then rr + k else rr + k - TWO64
  {
    if k > 0 {
      TickedIs(rr, k - 1);
    }
  }

  /** The counter, which wraps, after so many ticks in all. */
  function Wrapped(ticks: nat): int {
    if ticks < TWO64 then ticks else ticks - TWO64
  }

  // --- the pool -------------------------------------------------------------------------------------

  class UpstreamEndpoint {
    const name: string
    var inflight: int

    constructor (name: string)
      ensures this.name == name && inflight == 0
    {
      this.name, inflight := name, 0;
    }
  }

  /** A round of pick: where it begins and how busy it finds the endpoints, by their positions. */
  datatype Round = Round(offset: nat, loads: seq<int>)

  /** What a transport call comes back with. */
  datatype Outcome = Response | DialError | OtherError

  datatype Failure = Unreachable | Failed | NoUpstream

  function Elements(s: seq<UpstreamEndpoint>): set<UpstreamEndpoint> {
    set i | 0 <= i < |s| :: s[i]
  }

  ghost predicate Unrepeated(s: seq<UpstreamEndpoint>) {
    forall i, j :: 0 <= i < j < |s| ==> s[i] != s[j]
  }

  lemma {:induction false} Size(s: seq<UpstreamEndpoint>)
    ensures |Elements(s)| <= |s|
    ensures Unrepeated(s) ==> |Elements(s)| == |s|
  {
    if s != [] {
      var init := s[..|s| - 1];
      Size(init);
      assert Elements(s) == Elements(init) + {s[|s| - 1]};
    }
  }

  lemma Extended(asked: seq<UpstreamEndpoint>, ep: UpstreamEndpoint)
    ensures Elements(asked + [ep]) == Elements(asked) + {ep}
    ensures Unrepeated(asked) && ep !in Elements(asked) ==> Unrepeated(asked + [ep])
  {
    assert (asked + [ep])[|asked|] == ep;
    forall x | x in Elements(asked) ensures x in Elements(asked + [ep]) {
      var i :| 0 <= i < |asked| && asked[i] == x;
      assert (asked + [ep])[i] == x;
    }
  }

  lemma Subset(a: set<UpstreamEndpoint>, b: set<UpstreamEndpoint>)
    requires a <= b
    ensures |a| <= |b|
  {
    assert b == a + (b - a);
  }

  /** As many different endpoints as there are is all of them. */
  lemma Everyone(asked: seq<UpstreamEndpoint>, endpoints: seq<UpstreamEndpoint>)
    requires Unrepeated(asked) && Elements(asked) <= Elements(endpoints) && |asked| >= |endpoints|
    ensures Elements(asked) == Elements(endpoints)
  {
    Size(asked);
    Size(endpoints);
    var rest := Elements(endpoints) - Elements(asked);
    assert Elements(endpoints) == Elements(asked) + rest;
    assert |rest| == 0;
  }

  /** The response body: closing it releases the endpoint, once. */
  class ReleasingBody {
    const ep: UpstreamEndpoint
    var released: bool

    constructor (ep: UpstreamEndpoint)
      ensures this.ep == ep && !released
    {
      this.ep, released := ep, false;
    }

    /** However often it is called, the endpoint counts one request less. */
    method Close()
      modifies this, ep
      ensures released && ep.inflight == old(ep.inflight) - if old(released) then 0 else 1
    {
      if !released {
        released := true;
        ep.inflight := ep.inflight - 1;
      }
    }
  }

  class Proxy {
    const endpoints: seq<UpstreamEndpoint>
    const shared: bool // other requests go through the pool at the same time
    var rr: nat

    ghost predicate Valid()
      reads this
    {
      Unrepeated(endpoints) && |endpoints| < TWO64 / 2 && rr < TWO64
    }

    constructor (endpoints: seq<UpstreamEndpoint>, shared: bool)
      requires Unrepeated(endpoints) && |endpoints| < TWO64 / 2
      ensures Valid() && this.endpoints == endpoints && this.shared == shared && rr == 0
    {
      this.endpoints, this.shared, rr := endpoints, shared, 0;
    }

    /** What other requests do to the shared counters. */
    method Meanwhile()
      requires Valid()
      modifies this`rr, endpoints
      ensures Valid()
      ensures !shared ==> rr == old(rr) && forall e :: e in endpoints ==> e.inflight == old(e.inflight)
    {
      if shared {
        var ticks: nat := *;
        rr := ticks % TWO64;
        modify endpoints;
      }
    }

    /** The endpoint looked at i-th in a round that starts at offset. */
    function InTurn(offset: nat, i: nat): UpstreamEndpoint
      requires i < |endpoints|
    {
      endpoints[Turn(offset, i, |endpoints|)]
    }

    /** How busy each endpoint is. */
    ghost function Loads(): (loads: seq<int>)
      reads endpoints
      ensures |loads| == |endpoints| && forall i :: 0 <= i < |loads| ==> loads[i] == endpoints[i].inflight
    {
      seq(|endpoints|, i requires 0 <= i < |endpoints| reads endpoints => endpoints[i].inflight)
    }

    /**
     Whoever has the j-th turn has been tried, or is no less busy than the one whose turn is the at-th; busier if its
     turn comes first.
     */
    ghost predicate NoBetter(tried: set<UpstreamEndpoint>, round: Round, j: nat, load: int, at: nat)
      requires j < |endpoints| == |round.loads|
    {
      var k := (round.offset + j) % TWO64 % |endpoints|;
      endpoints[k] in tried || (if j < at then load < round.loads[k] else load <= round.loads[k])
    }

    /** best has the i-th turn, nobody untried is less busy and nobody untried before it is as little busy. */
    ghost predicate FirstLeastBusy(tried: set<UpstreamEndpoint>, round: Round, i: nat, best: UpstreamEndpoint) {
      && i < |endpoints| == |round.loads|
      && var k := (round.offset + i) % TWO64 % |endpoints|;
      && best == endpoints[k] && best !in tried
      && forall j: nat :: j < |endpoints| ==> NoBetter(tried, round, j, round.loads[k], i)
    }

    /** best is whom the round should choose. */
    ghost predicate IsChoice(tried: set<UpstreamEndpoint>, round: Round, best: UpstreamEndpoint) {
      exists i: nat :: FirstLeastBusy(tried, round, i, best)
    }

    lemma BetterThanAll(tried: set<UpstreamEndpoint>, round: Round, i: nat, bestLoad: int, at: nat, load: int)
      requires i <= |endpoints| == |round.loads| && load < bestLoad
      requires forall j: nat :: j < i ==> NoBetter(tried, round, j, bestLoad, at)
      ensures forall j: nat :: j < i ==> NoBetter(tried, round, j, load, i)
    {
      forall j: nat | j < i ensures NoBetter(tried, round, j, load, i) {
        assert NoBetter(tried, round, j, bestLoad, at);
      }
    }

    lemma BetterThanNone(tried: set<UpstreamEndpoint>, round: Round, i: nat, load: int)
      requires i <= |endpoints| == |round.loads|
      requires forall j: nat :: j < i ==> InTurn(round.offset, j) in tried
      ensures forall j: nat :: j < i ==> NoBetter(tried, round, j, load, i)
    {
      forall j: nat | j < i ensures NoBetter(tried, round, j, load, i) {
        assert InTurn(round.offset, j) in tried;
      }
    }

    method Pick(tried: set<UpstreamEndpoint>) returns (best: UpstreamEndpoint?)
      requires Valid()
      modifies this`rr
      ensures Valid() && rr == (old(rr) + 1) % TWO64
      ensures best == null ==> forall i: nat :: i < |endpoints| ==> InTurn(rr, i) in tried
      ensures best != null ==> IsChoice(tried, Round(rr, Loads()), best)
    {
      rr := (rr + 1) % TWO64;
      best := Scan(tried, rr);
    }

    /** The loop of pick. */
    method Scan(tried: set<UpstreamEndpoint>, offset: nat) returns (best: UpstreamEndpoint?)
      ensures best == null ==> forall i: nat :: i < |endpoints| ==> InTurn(offset, i) in tried
      ensures best != null ==> IsChoice(tried, Round(offset, Loads()), best)
    {
      best := null;
      var bestLoad, i := 0, 0;
      ghost var at, round := 0, Round(offset, Loads());
      while i < |endpoints|
        invariant i <= |endpoints|
        invariant best == null ==> forall j: nat :: j < i ==> InTurn(offset, j) in tried
        invariant best != null ==> at < i && best == InTurn(offset, at) && best !in tried && bestLoad == best.inflight
        invariant best != null ==> forall j: nat :: j < i ==> NoBetter(tried, round, j, bestLoad, at)
      {
        var ep := InTurn(offset, i);
        if ep !in tried {
          var load := ep.inflight;
          if best == null || load < bestLoad {
            if best != null {
              BetterThanAll(tried, round, i, bestLoad, at, load);
            } else {
              BetterThanNone(tried, round, i, load);
            }
            best, bestLoad, at := ep, load, i;
          }
          assert load == round.loads[(offset + i) % TWO64 % |endpoints|];
        }
        assert NoBetter(tried, round, i, bestLoad, at);
        i := i + 1;
      }
      assert best != null ==> FirstLeastBusy(tried, round, at, best);
    }

    /** A round that gives everyone a turn and finds nobody untried: all have been tried. */
    lemma NobodyLeft(tried: set<UpstreamEndpoint>, offset: nat)
      requires endpoints != [] && Covers(offset, |endpoints|)
      requires forall i: nat :: i < |endpoints| ==> InTurn(offset, i) in tried
      ensures Elements(endpoints) <= tried
    {
      forall k | 0 <= k < |endpoints| ensures endpoints[k] in tried {
        assert HasTurn(offset, |endpoints|, k);
        var i: nat :| i < |endpoints| && Turn(offset, i, |endpoints|) == k;
        assert InTurn(offset, i) == endpoints[k];
      }
    }

    /** A round that meets nobody untried before all have been asked leaves somebody out. */
    lemma MissLeavesSomeone(asked: seq<UpstreamEndpoint>, offset: nat)
      requires Unrepeated(asked) && Unrepeated(endpoints) && |asked| < |endpoints|
      requires forall i: nat :: i < |endpoints| ==> InTurn(offset, i) in Elements(asked)
      ensures Elements(asked) != Elements(endpoints) && !Covers(offset, |endpoints|)
    {
      Size(asked);
      Size(endpoints);
      if Covers(offset, |endpoints|) {
        NobodyLeft(Elements(asked), offset);
        Subset(Elements(endpoints), Elements(asked));
      }
    }

    ghost predicate ByChoice(asked: seq<UpstreamEndpoint>, rounds: seq<Round>) {
      |rounds| == |asked| && forall k :: 0 <= k < |asked| ==> IsChoice(Elements(asked[..k]), rounds[k], asked[k])
    }

    lemma ByChoiceMore(asked: seq<UpstreamEndpoint>, rounds: seq<Round>, ep: UpstreamEndpoint, round: Round)
      requires ByChoice(asked, rounds) && IsChoice(Elements(asked), round, ep)
      ensures ByChoice(asked + [ep], rounds + [round])
    {
      var asked', rounds' := asked + [ep], rounds + [round];
      forall k | 0 <= k < |asked'| ensures IsChoice(Elements(asked'[..k]), rounds'[k], asked'[k]) {
        assert asked'[..k] == asked[..k];
      }
    }

    /** The k-th round of a request that comes when the counter is at rr, with these loads. */
    ghost predicate IsRound(round: Round, rr: nat, k: nat, loads: seq<int>) {
      round.offset == Wrapped(rr + k + 1) && round.loads == loads
    }

    /** The rounds begin one after another from rr, and all find the same loads. */
    ghost predicate AllFrom(rounds: seq<Round>, rr: nat, loads: seq<int>) {
      forall k: nat :: k < |rounds| ==> IsRound(rounds[k], rr, k, loads)
    }

    lemma AllFromMore(rounds: seq<Round>, rr: nat, loads: seq<int>, round: Round)
      requires AllFrom(rounds, rr, loads) && IsRound(round, rr, |rounds|, loads)
      ensures AllFrom(rounds + [round], rr, loads)
    {
      forall k: nat | k < |rounds + [round]| ensures IsRound((rounds + [round])[k], rr, k, loads) {
        assert k < |rounds| ==> IsRound(rounds[k], rr, k, loads);
      }
    }

    /** In each round a request can need every endpoint has its turn. */
    ghost predicate RoundsCover()
      reads this
    {
      forall k: nat :: 1 <= k <= |endpoints| ==> Covers(Ticked(rr, k), |endpoints|)
    }

    /** That is so unless the counter wraps in the middle of one of those rounds and the wrap matters. */
    lemma RoundsCoverExactly()
      requires Valid() && endpoints != []
      ensures RoundsCover() <==> rr + 2 * |endpoints| <= TWO64 || rr + 1 == TWO64 || TWO64 % |endpoints| == 0
    {
      var n := |endpoints|;
      forall k: nat | 1 <= k <= n
        ensures Covers(Ticked(rr, k), n) <==>
                (if rr + k < TWO64 then rr + k else rr + k - TWO64) + n <= TWO64 || TWO64 % n == 0
      {
        TickedIs(rr, k);
        CoversExactly(Ticked(rr, k), n);
      }
      if rr + 2 * n > TWO64 && rr + 1 < TWO64 {
        var k := if TWO64 - n + 1 - rr >= 1 then TWO64 - n + 1 - rr else 1;
        assert n > 1 ==> (Covers(Ticked(rr, k), n) <==> TWO64 % n == 0);
      }
    }

    /** The pool is undisturbed since a request came, with the counter at from, but for the rounds of its own. */
    ghost predicate OnlyTicked(from: nat, rounds: nat, loads: seq<int>)
      reads this, endpoints
    {
      from < TWO64 && rr == Wrapped(from + rounds) && Loads() == loads
    }

    /** Of the endpoints only ep, if any, is busier than the loads say, by the request it is answering. */
    ghost predicate Answering(loads: seq<int>, ep: UpstreamEndpoint?)
      reads endpoints
    {
      && |loads| == |endpoints|
      && forall i :: 0 <= i < |endpoints| ==> endpoints[i].inflight == loads[i] + if endpoints[i] == ep then 1 else 0
    }

    /** One turn of the loop: whoever is chosen is asked. */
    method TryNext(tried: set<UpstreamEndpoint>, answers: UpstreamEndpoint -> Outcome,
                   ghost from: nat, ghost n: nat, ghost loads: seq<int>)
      returns (ep: UpstreamEndpoint?, body: ReleasingBody?, ghost round: Round)
      requires Valid() && n < TWO64 && (!shared ==> OnlyTicked(from, n, loads))
      modifies this`rr, endpoints
      ensures Valid() && round.offset == rr && |round.loads| == |endpoints|
      ensures ep == null ==> body == null && forall i: nat :: i < |endpoints| ==> InTurn(rr, i) in tried
      ensures ep != null ==> ep in Elements(endpoints) && ep !in tried && IsChoice(tried, round, ep)
      ensures ep != null ==> (body != null <==> answers(ep).Response?)
      ensures body != null ==> fresh(body) && body.ep == ep && !body.released
      ensures !shared ==>
                && IsRound(round, from, n, loads)
                && if body == null then OnlyTicked(from, n + 1, loads) else Answering(loads, ep)
    {
      Meanwhile();
      ep := Pick(tried);
      round := Round(rr, Loads());
      if !shared {
        Reduce(Wrapped(from + n) + 1, TWO64);
      }
      body := null;
      if ep != null {
        ghost var i: nat :| FirstLeastBusy(tried, round, i, ep);
        body := Ask(ep, answers(ep));
      }
    }

    /** Whoever was asked was asked once, by choice, and all before the last could not be reached. */
    ghost predicate AskedWell(answers: UpstreamEndpoint -> Outcome, asked: seq<UpstreamEndpoint>, rounds: seq<Round>) {
      && Unrepeated(asked) && Elements(asked) <= Elements(endpoints) && ByChoice(asked, rounds)
      && forall i :: 0 <= i < |asked| - 1 ==> answers(asked[i]).DialError?
    }

    lemma AskedMore(answers: UpstreamEndpoint -> Outcome, asked: seq<UpstreamEndpoint>, rounds: seq<Round>,
                    ep: UpstreamEndpoint, round: Round)
      requires AskedWell(answers, asked, rounds) && (asked != [] ==> answers(asked[|asked| - 1]).DialError?)
      requires ep in Elements(endpoints) && ep !in Elements(asked) && IsChoice(Elements(asked), round, ep)
      ensures AskedWell(answers, asked + [ep], rounds + [round]) && Elements(asked + [ep]) == Elements(asked) + {ep}
    {
      Extended(asked, ep);
      ByChoiceMore(asked, rounds, ep, round);
    }

    /** A round, with some endpoints not asked yet, met none of them. */
    ghost predicate Missed(asked: seq<UpstreamEndpoint>, offset: nat) {
      |asked| < |endpoints| && forall i: nat :: i < |endpoints| ==> InTurn(offset, i) in Elements(asked)
    }

    method AskNext(tried: set<UpstreamEndpoint>, ghost asked: seq<UpstreamEndpoint>, ghost rounds: seq<Round>,
                   answers: UpstreamEndpoint -> Outcome, ghost from: nat, ghost loads: seq<int>)
      returns (ep: UpstreamEndpoint?, body: ReleasingBody?, ghost round: Round)
      requires Valid() && |asked| < |endpoints| && tried == Elements(asked) && AskedWell(answers, asked, rounds)
      requires asked != [] ==> answers(asked[|asked| - 1]).DialError?
      requires !shared ==> AllFrom(rounds, from, loads) && OnlyTicked(from, |asked|, loads)
      modifies this`rr, endpoints
      ensures Valid()
      ensures ep == null ==>
                body == null && Missed(asked, rr) && (!shared ==> rr == Wrapped(from + |asked| + 1) && Loads() == loads)
      ensures ep != null ==>
                && AskedWell(answers, asked + [ep], rounds + [round]) && Elements(asked + [ep]) == tried + {ep}
                && (body != null <==> answers(ep).Response?)
                && (!shared ==> AllFrom(rounds + [round], from, loads))
      ensures body != null ==> fresh(body) && body.ep == ep && !body.released && (!shared ==> Answering(loads, ep))
      ensures !shared && body == null ==> OnlyTicked(from, |asked| + 1, loads)
    {
      ep, body, round := TryNext(tried, answers, from, |asked|, loads);
      if ep != null {
        AskedMore(answers, asked, rounds, ep, round);
        if !shared {
          AllFromMore(rounds, from, loads, round);
        }
      }
    }

    /** The loop of RoundTrip, up to a response, an error of its own or the last of the tries. */
    method AskInTurn(answers: UpstreamEndpoint -> Outcome)
      returns (body: ReleasingBody?, asked: seq<UpstreamEndpoint>, ghost rounds: seq<Round>,
          ghost lastRound: Option<nat>)
      requires Valid()
      modifies this`rr, endpoints
      ensures Valid() && AskedWell(answers, asked, rounds) && (!shared ==> AllFrom(rounds, old(rr), old(Loads())))
      ensures body != null ==> asked != [] && fresh(body) && body.ep == asked[|asked| - 1] && !body.released
      ensures asked != [] ==> (body != null <==> answers(asked[|asked| - 1]).Response?)
      ensures asked == [] || answers(asked[|asked| - 1]).DialError? ==>
                match lastRound
                case None => |asked| == |endpoints|
                case Some(offset) => Missed(asked, offset) && (!shared ==> offset == Wrapped(old(rr) + |asked| + 1))
      ensures !shared ==> Answering(old(Loads()), if body != null then body.ep else null)
    {
      var tried: set<UpstreamEndpoint> := {};
      body, asked, rounds, lastRound := null, [], [], None;
      ghost var from, loads := rr, Loads();
      while |asked| < |endpoints|
        invariant |asked| <= |endpoints| && Valid() && tried == Elements(asked) && AskedWell(answers, asked, rounds)
        invariant body == null && lastRound.None? && (asked != [] ==> answers(asked[|asked| - 1]).DialError?)
        invariant !shared ==> AllFrom(rounds, from, loads) && OnlyTicked(from, |asked|, loads)
        decreases |endpoints| - |asked|
      {
        var ep;
        ghost var round;
        ep, body, round := AskNext(tried, asked, rounds, answers, from, loads);
        if ep == null {
          lastRound := Some(rr);
          return;
        }
        var next: UpstreamEndpoint := ep;
        tried := tried + {next};
        asked, rounds := asked + [next], rounds + [round];
        if !answers(next).DialError? {
          return;
        }
      }
    }

    /**
     answers says what each endpoint's transport comes back with. Every endpoint is asked at most
     once and all but the last one asked could not be reached. Whoever is asked is the first least busy of
     those not asked before, in a round that begins one further on; undisturbed, every round finds the
     endpoints as busy as at the start. When nobody could be, everybody was
     asked, unless the last round met nobody untried; and then that round had no turn for somebody.
     */
    method RoundTrip(answers: UpstreamEndpoint -> Outcome)
      returns (r: Result<ReleasingBody, Failure>, asked: seq<UpstreamEndpoint>, ghost rounds: seq<Round>,
          ghost lastRound: Option<nat>)
      requires Valid()
      modifies this`rr, endpoints
      ensures Valid() && Unrepeated(asked) && Elements(asked) <= Elements(endpoints)
      ensures |rounds| == |asked|
              && forall k :: 0 <= k < |asked| ==> IsChoice(Elements(asked[..k]), rounds[k], asked[k])
      ensures !shared ==> AllFrom(rounds, old(rr), old(Loads()))
      ensures forall i :: 0 <= i < |asked| - 1 ==> answers(asked[i]).DialError?
      ensures r.Err? && r.error.NoUpstream? <==> endpoints == []
      ensures endpoints != [] ==>
                && asked != []
                && match answers(asked[|asked| - 1])
                   case Response =>
                     r.Ok? && fresh(r.value) && r.value.ep == asked[|asked| - 1] && !r.value.released
                   case OtherError => r == Err(Failed)
                   case DialError =>
                     && r == Err(Unreachable)
                     && (Elements(asked) == Elements(endpoints) <==> lastRound.None?)
                     && (lastRound.Some? ==> !Covers(lastRound.value, |endpoints|))
                     && (!shared && old(RoundsCover()) ==> Elements(asked) == Elements(endpoints))
      ensures !shared ==>
                forall e :: e in endpoints ==> e.inflight == old(e.inflight) + if r.Ok? && r.value.ep == e then 1 else 0
    {
      var body;
      ghost var from := rr;
      body, asked, rounds, lastRound := AskInTurn(answers);
      if body != null {
        return Ok(body), asked, rounds, lastRound;
      }
      if asked != [] && answers(asked[|asked| - 1]).OtherError? {
        return Err(Failed), asked, rounds, lastRound;
      }
      if lastRound.Some? {
        assert InTurn(lastRound.value, 0) in Elements(asked);
        TickedIs(from, |asked| + 1);
        MissLeavesSomeone(asked, lastRound.value);
      } else {
        Everyone(asked, endpoints);
      }
      return Err(if endpoints == [] then NoUpstream else Unreachable), asked, rounds, lastRound;
    }

    /** One transport call: counted while it is pending and, if it answers, until its body is closed. */
    method Ask(ep: UpstreamEndpoint, answer: Outcome) returns (body: ReleasingBody?)
      modifies ep
      ensures body != null <==> answer.Response?
      ensures body != null ==> fresh(body) && body.ep == ep && !body.released
      ensures ep.inflight == old(ep.inflight) + if answer.Response? then 1 else 0
    {
      ep.inflight := ep.inflight + 1;
      if !answer.Response? {
        ep.inflight := ep.inflight - 1;
        return null;
      }
      body := new ReleasingBody(ep);
    }
  }
}
