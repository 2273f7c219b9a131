/**
 The .well-known cache of resolver.go: how long an answer is kept, and FederationTransport's
 fields and the methods that read and write them under its mutex. Times and durations are in
 nanoseconds. Follows the resolution of server names in section 2.1 of the Matrix Server-Server API.
 */
module WellKnown {
  import opened Common

  const SECOND := 1_000_000_000
  const MINUTE := 60 * SECOND
  const HOUR := 60 * MINUTE
  const DEFAULT_CACHE_PERIOD := 24 * HOUR
  const INVALID_CACHE_PERIOD := 1 * HOUR
  const DOWN_CACHE_PERIOD := 2 * MINUTE
  const REMEMBER_HAD_VALID := 2 * HOUR
  const MAX_CACHE_PERIOD := 48 * HOUR
  const MIN_CACHE_PERIOD := 5 * MINUTE
  const RETRY_ATTEMPTS := 3

  // --- how long to keep an answer ------------------------------------------------------------

  /** time.Time.Sub saturates instead. */
  function Saturate64(x: int): int {
    if x < -TWO63 then -TWO63 else if x >= TWO63 then TWO63 - 1 else x
  }

  function Digits(s: string): Option<nat> {
    if s == "" then None
    else if !('0' <= s[|s| - 1] <= '9') then None
    else
      var d := s[|s| - 1] as int - '0' as int;
      if |s| == 1 then Some(d)
      else match Digits(s[..|s| - 1])
        case None => None
        case Some(n) => Some(10 * n + d)
  }

  /** strconv.Atoi: an optional sign, digits, and the range of int64. */
  function Atoi(s: string): Option<int> {
    var negative := s != "" && s[0] == '-';
    var n := Digits(if s != "" && (s[0] == '-' || s[0] == '+') then s[1..] else s);
    if n.None? then None
    else
      var v: int := if negative then -(n.value as int) else n.value;
      if -TWO63 <= v < TWO63 then Some(v) else None
  }

  /**
   The headers of a response: the Cache-Control directives, names in lower case and trimmed, and
   the last Expires value, which is None if it does not parse as a time.
   */
  datatype Headers = Headers(cacheControl: seq<(string, string)>, expires: Option<Option<int>>)

  predicate HasDirective(directives: seq<(string, string)>, name: string) {
    exists i :: 0 <= i < |directives| && directives[i].0 == name
  }

  /** A directive given twice counts with its last value. */
  function Directive(directives: seq<(string, string)>, name: string): string {
    if directives == [] then ""
    else if directives[|directives| - 1].0 == name then directives[|directives| - 1].1
    else Directive(directives[..|directives| - 1], name)
  }

  /** cachePeriodFromHeaders; None when the headers say nothing. */
  function CachePeriodFromHeaders(h: Headers, now: int): Option<int> {
    if HasDirective(h.cacheControl, "no-store") then Some(0)
    else
      var maxAge := Directive(h.cacheControl, "max-age");
      if maxAge != "" && Atoi(maxAge).Some? then Some(Wrap64(Atoi(maxAge).value * SECOND))
      else match h.expires
        case Some(Some(t)) => Some(Saturate64(t - now))
        case Some(None) => Some(0)
        case None => None
  }

  /** jitter() lies in [0.9, 1.1]. */
  type Jitter = j: real | 0.9 <= j <= 1.1 witness 1.0

  function Jittered(period: nat, jitter: Jitter): nat {
    (period as real * jitter).Floor
  }

  /** How long fetchWellKnown says to keep a valid answer. */
  function ValidPeriod(h: Headers, now: int, jitter: Jitter): int {
    match CachePeriodFromHeaders(h, now)
    case None => Jittered(DEFAULT_CACHE_PERIOD, jitter)
    case Some(period) =>
      var capped := if period < MAX_CACHE_PERIOD then period else MAX_CACHE_PERIOD;
      if capped > MIN_CACHE_PERIOD then capped else MIN_CACHE_PERIOD
  }

  lemma JitteredBounds(period: nat, jitter: Jitter)
    ensures 9 * period - 10 < 10 * Jittered(period, jitter) <= 11 * period
  {
    ScaledBounds(period as real, jitter);
    FloorBounds(period, period as real * jitter);
  }

  lemma ScaledBounds(p: real, j: real)
    requires p >= 0.0 && 0.9 <= j <= 1.1
    ensures 0.9 * p <= p * j <= 1.1 * p
  {
    assert p * (j - 0.9) >= 0.0 && p * (1.1 - j) >= 0.0;
  }

  lemma FloorBounds(period: nat, x: real)
    requires 0.9 * (period as real) <= x <= 1.1 * (period as real)
    ensures 9 * period - 10 < 10 * x.Floor <= 11 * period
  {
    var f := x.Floor;
    assert f as real <= x < f as real + 1.0;
    assert (10 * f) as real <= (11 * period) as real && (10 * f) as real > (9 * period - 10) as real;
  }

  /** A valid answer is kept between five minutes and 48 hours whatever its headers say. */
  lemma ValidPeriodBounds(h: Headers, now: int, jitter: Jitter)
    ensures MIN_CACHE_PERIOD <= ValidPeriod(h, now, jitter) <= MAX_CACHE_PERIOD
  {
    JitteredBounds(DEFAULT_CACHE_PERIOD, jitter);
  }

  function Clamp(period: int): int {
    if period >= MAX_CACHE_PERIOD then MAX_CACHE_PERIOD
    else if period <= MIN_CACHE_PERIOD then MIN_CACHE_PERIOD
    else period
  }

  /**
   A max-age of n seconds is kept for n seconds, up to the clamp, if and only if n seconds fit in
   int64 nanoseconds or wrap to something past the end of the clamp they are past themselves.
   */
  lemma MaxAgeClamps(h: Headers, now: int, jitter: Jitter, n: int)
    requires !HasDirective(h.cacheControl, "no-store")
    requires Directive(h.cacheControl, "max-age") != "" && Atoi(Directive(h.cacheControl, "max-age")) == Some(n)
    ensures ValidPeriod(h, now, jitter) == Clamp(n * SECOND) <==>
            || -TWO63 <= n * SECOND < TWO63
            || (n * SECOND >= TWO63 && Wrap64(n * SECOND) >= MAX_CACHE_PERIOD)
            || (n * SECOND < -TWO63 && Wrap64(n * SECOND) <= MIN_CACHE_PERIOD)
    ensures ValidPeriod(h, now, jitter) == Clamp(Wrap64(n * SECOND))
    ensures -9_223_372_036 <= n <= 9_223_372_036 ==>
              ValidPeriod(h, now, jitter) == 1_000_000_000 * if n < 300 then 300 else if n > 172_800 then 172_800 else n
  {
    var x := n * SECOND;
    if -TWO63 <= x < TWO63 {
      assert Wrap64(x) == x;
    }
  }

  /** The last of the directives with the name counts. */
  lemma {:induction false} DirectiveIsLast(directives: seq<(string, string)>, name: string, i: nat)
    requires i < |directives| && directives[i].0 == name
    requires forall j :: i < j < |directives| ==> directives[j].0 != name
    ensures Directive(directives, name) == directives[i].1
  {
    if i < |directives| - 1 {
      DirectiveIsLast(directives[..|directives| - 1], name, i);
    }
  }

  lemma {:induction false} NoDirective(directives: seq<(string, string)>, name: string)
    requires forall i :: 0 <= i < |directives| ==> directives[i].0 != name
    ensures Directive(directives, name) == ""
  {
    if directives != [] {
      NoDirective(directives[..|directives| - 1], name);
    }
  }

  /**
   no-store is five minutes; without a max-age that is a number the Expires time decides, clamped to
   between five minutes and 48 hours, and one that is no time is five minutes; and without either
   header the answer is kept for 24 hours, give or take a tenth.
   */
  lemma ValidPeriodByHeader(h: Headers, now: int, jitter: Jitter)
    ensures (exists i :: 0 <= i < |h.cacheControl| && h.cacheControl[i].0 == "no-store") ==>
              ValidPeriod(h, now, jitter) == 300_000_000_000
    ensures (forall i :: 0 <= i < |h.cacheControl| ==> h.cacheControl[i].0 !in {"no-store", "max-age"}) ==>
              var period := ValidPeriod(h, now, jitter);
              match h.expires
              case Some(Some(t)) =>
                period == if t - now < 300_000_000_000 then 300_000_000_000
                          else if t - now > 172_800_000_000_000 then 172_800_000_000_000
                          else t - now
              case Some(None) => period == 300_000_000_000
              case None => 77_760_000_000_000 <= period + 1 && period <= 95_040_000_000_000
  {
    if forall i :: 0 <= i < |h.cacheControl| ==> h.cacheControl[i].0 !in {"no-store", "max-age"} {
      NoDirective(h.cacheControl, "max-age");
      JitteredBounds(DEFAULT_CACHE_PERIOD, jitter);
    }
  }

  /** n in decimal. */
  function Decimal(n: nat): string {
    if n < 10 then [(n + '0' as int) as char] else Decimal(n / 10) + [(n % 10 + '0' as int) as char]
  }

  /** Reading a number undoes writing it. */
  lemma {:induction false} DigitsOfDecimal(n: nat)
    ensures Digits(Decimal(n)) == Some(n)
    ensures Decimal(n) != "" && '0' <= Decimal(n)[0] <= '9'
  {
    if n >= 10 {
      DigitsOfDecimal(n / 10);
      DigitsEnd(Decimal(n / 10), (n % 10 + '0' as int) as char, n / 10);
    }
  }

  /** Every number of an int64 is read, with a sign or without, and none past it. */
  lemma AtoiOfDecimal(n: nat)
    ensures Atoi(Decimal(n)) == Atoi("+" + Decimal(n)) == if n < TWO63 then Some(n as int) else None
    ensures Atoi("-" + Decimal(n)) == if n <= TWO63 then Some(-(n as int)) else None
  {
    DigitsOfDecimal(n);
    AtoiOfDigits(Decimal(n), n);
  }

  lemma AtoiOfDigits(s: string, n: nat)
    requires Digits(s) == Some(n) && s != "" && '0' <= s[0] <= '9'
    ensures Atoi(s) == Atoi("+" + s) == if n < TWO63 then Some(n as int) else None
    ensures Atoi("-" + s) == if n <= TWO63 then Some(-(n as int)) else None
  {
    assert ("+" + s)[1..] == s && ("-" + s)[1..] == s;
  }

  lemma DigitsEnd(s: string, d: char, n: nat)
    requires Digits(s) == Some(n) && '0' <= d <= '9'
    ensures Digits(s + [d]) == Some(10 * n + (d as int - '0' as int))
  {
    assert (s + [d])[..|s|] == s && s != "";
  }

  lemma DigitsOfTooLong()
    ensures Digits("9223372037") == Some(9_223_372_037)
  {
    assert "9" + ['2'] == "92" && "92" + ['2'] == "922" && "922" + ['3'] == "9223" && "9223" + ['3'] == "92233";
    assert "92233" + ['7'] == "922337" && "922337" + ['2'] == "9223372" && "9223372" + ['0'] == "92233720";
    assert "92233720" + ['3'] == "922337203" && "922337203" + ['7'] == "9223372037";
    assert Digits("9") == Some(9);
    DigitsEnd("9", '2', 9);
    DigitsEnd("92", '2', 92);
    DigitsEnd("922", '3', 922);
    DigitsEnd("9223", '3', 9_223);
    DigitsEnd("92233", '7', 92_233);
    DigitsEnd("922337", '2', 922_337);
    DigitsEnd("9223372", '0', 9_223_372);
    DigitsEnd("92233720", '3', 92_233_720);
    DigitsEnd("922337203", '7', 922_337_203);
  }

  /** max-age=9223372037, some 292 years, wraps: the answer is kept for five minutes instead of 48 hours. */
  lemma LongMaxAgeIsCut(now: int, jitter: Jitter)
    ensures ValidPeriod(Headers([("max-age", "9223372037")], None), now, jitter) == MIN_CACHE_PERIOD
    ensures Clamp(9_223_372_037 * SECOND) == MAX_CACHE_PERIOD
  {
    var h, value := Headers([("max-age", "9223372037")], None), "9223372037";
    DigitsOfTooLong();
    assert value[0] == '9';
    assert Directive(h.cacheControl, "max-age") == value && !HasDirective(h.cacheControl, "no-store");
    var x := 9_223_372_037 * SECOND;
    assert (x + TWO63) % (2 * TWO63) == x - TWO63;
    MaxAgeClamps(h, now, jitter, 9_223_372_037);
  }

  // --- the cache -----------------------------------------------------------------------------

  /** delegated "" is "no delegation", which is also what a failure caches. */
  datatype Entry = Entry(delegated: string, expires: int, ttl: int)

  /** 80% of the way through the entry's life. */
  function RefreshAt(e: Entry): int {
    e.expires - e.ttl / 5
  }

  predicate Live(wellKnown: map<string, Entry>, host: string, now: int) {
    host in wellKnown && now < wellKnown[host].expires
  }

  predicate IsFresh(wellKnown: map<string, Entry>, host: string, now: int) {
    Live(wellKnown, host, now) && now < RefreshAt(wellKnown[host])
  }

  function CachedAnswer(wellKnown: map<string, Entry>, host: string, now: int): (string, bool) {
    if Live(wellKnown, host, now) then (wellKnown[host].delegated, IsFresh(wellKnown, host, now)) else ("", false)
  }

  function Previous(wellKnown: map<string, Entry>, host: string, now: int): Option<Entry> {
    if Live(wellKnown, host, now) then Some(wellKnown[host]) else None
  }

  predicate HadValid(hadValid: map<string, int>, host: string, now: int) {
    host in hadValid && now < hadValid[host]
  }

  /** What a successful fetch remembers: an empty m.server forgets. */
  function Remember(hadValid: map<string, int>, host: string, server: string, now: int, period: int): map<string, int> {
    if server != "" then hadValid[host := now + period + REMEMBER_HAD_VALID] else hadValid - {host}
  }

  /** How long a failure is cached. */
  function FailurePeriod(hadValid: map<string, int>, host: string, now: int, jitter: Jitter): int {
    Jittered(if HadValid(hadValid, host, now) then DOWN_CACHE_PERIOD else INVALID_CACHE_PERIOD, jitter)
  }

  lemma FailurePeriodBounds(hadValid: map<string, int>, host: string, now: int, jitter: Jitter)
    ensures HadValid(hadValid, host, now) <==> FailurePeriod(hadValid, host, now, jitter) <= 132 * SECOND
    ensures !HadValid(hadValid, host, now) <==> FailurePeriod(hadValid, host, now, jitter) >= 54 * MINUTE - 1
    ensures FailurePeriod(hadValid, host, now, jitter) > 0
  {
    JitteredBounds(DOWN_CACHE_PERIOD, jitter);
    JitteredBounds(INVALID_CACHE_PERIOD, jitter);
  }

  // --- one request, with retries -----------------------------------------------------------------

  /** The outcome of one HTTP request. */
  datatype Attempt =
    | Unreachable                                       // no connection, or a 5xx status
    | TooLarge                                          // over 50 KiB
    | Cancelled
    | Rejected                                          // another status, bad JSON or no m.server
    | Answered(server: string, headers: Headers)        // 200 with m.server, possibly empty

  /** What fetchWellKnown makes of it. */
  datatype Outcome = Delegation(server: string, headers: Headers) | Failure(temporary: bool)

  function OutcomeOf(a: Attempt): Outcome {
    match a
    case Answered(server, headers) => Delegation(server, headers)
    case Rejected => Failure(false)
    case _ => Failure(true)
  }

  /** The attempt whose outcome counts, when attempts are numbered from n. */
  function LastAttempt(attempts: nat -> Attempt, asleep: nat -> bool, retry: bool, n: nat): nat
    requires n <= RETRY_ATTEMPTS
    decreases RETRY_ATTEMPTS - n
  {
    if attempts(n).Unreachable? && retry && n < RETRY_ATTEMPTS && asleep(n)
    then LastAttempt(attempts, asleep, retry, n + 1)
    else n
  }

  /**
   made requests are made, the last of which counts: those before it were not reachable, and another would follow
   it only if retries are wanted, it was not reachable either, fewer than three were made and the pause is completed.
   */
  ghost predicate Made(attempts: nat -> Attempt, asleep: nat -> bool, retry: bool, made: nat) {
    && 1 <= made <= 3 && (!retry ==> made == 1)
    && (forall n :: 1 <= n < made ==> attempts(n).Unreachable? && asleep(n))
    && !(attempts(made).Unreachable? && retry && made < 3 && asleep(made))
  }

  /** r is what requests, with retries or without, come to. */
  predicate CameOf(attempts: nat -> Attempt, asleep: nat -> bool, retry: bool, r: Outcome) {
    r == OutcomeOf(attempts(LastAttempt(attempts, asleep, retry, 1)))
  }

  /**
   requestWellKnown. attempts(n) is what the n-th request meets, asleep(n) whether the pause after it is completed.
   */
  method RequestWellKnown(attempts: nat -> Attempt, asleep: nat -> bool, retry: bool) returns (r: Outcome, made: nat)
    ensures made == LastAttempt(attempts, asleep, retry, 1)
    ensures match attempts(made)
            case Answered(server, headers) => r == Delegation(server, headers)
            case Rejected => r == Failure(false)
            case _ => r == Failure(true)
    ensures Made(attempts, asleep, retry, made)
    ensures 1 <= made <= 3 && (!retry ==> made == 1)
    ensures forall n :: 1 <= n < made ==> attempts(n).Unreachable?
    ensures made < 3 && retry && attempts(made).Unreachable? ==> !asleep(made)
  {
    made := 1;
    while true
      invariant 1 <= made <= if retry then RETRY_ATTEMPTS else 1
      invariant LastAttempt(attempts, asleep, retry, 1) == LastAttempt(attempts, asleep, retry, made)
      invariant forall n :: 1 <= n < made ==> attempts(n).Unreachable? && asleep(n)
      decreases RETRY_ATTEMPTS - made
    {
      var a := attempts(made);
      if a.Answered? {
        return Delegation(a.server, a.headers), made;
      }
      if a.Rejected? {
        return Failure(false), made;
      }
      if a.TooLarge? || a.Cancelled? {
        return Failure(true), made;
      }
      if !retry || made >= RETRY_ATTEMPTS {
        return Failure(true), made;
      }
      var slept := asleep(made);
      if !slept {
        return Failure(true), made;
      }
      made := made + 1;
    }
  }

  /**
   What a refresh of host that asked the network does to the cache and the memory of valid answers:
   looked, judged, noted and stored are the times of its clock readings.
   */
  predicate Refreshed(host: string, before: map<string, Entry>, hadBefore: map<string, int>,
                      after: map<string, Entry>, hadAfter: map<string, int>, r: Outcome, result: string,
                      looked: int, judged: int, noted: int, stored: int, jitter: Jitter) {
    match r
    case Delegation(server, headers) =>
      var period := ValidPeriod(headers, judged, jitter);
      && result == server && hadAfter == Remember(hadBefore, host, server, noted, period)
      && after == before[host := Entry(server, stored + period, period)]
    case Failure(temporary) =>
      && hadAfter == hadBefore
      && if temporary && Live(before, host, looked) && before[host].delegated != ""
         then result == before[host].delegated && after == before
         else var period := FailurePeriod(hadBefore, host, judged, jitter);
              result == "" && after == before[host := Entry("", stored + period, period)]
  }

  // --- FederationTransport -------------------------------------------------------------------------

  /** time.Now: a clock that never runs backwards. */
  class Clock {
    var t: int

    constructor (t: int)
      ensures this.t == t
    {
      this.t := t;
    }

    method Now() returns (now: int)
      modifies this
      ensures now == t >= old(t)
    {
      var elapsed: nat :| true;
      t := t + elapsed;
      now := t;
    }
  }

  /** The fields of FederationTransport the cache lives in. */
  class FederationTransport {
    var wellKnown: map<string, Entry>
    var hadValid: map<string, int>

    constructor ()
      ensures wellKnown == map[] && hadValid == map[]
    {
      wellKnown, hadValid := map[], map[];
    }

    method CachedWellKnown(host: string, clock: Clock) returns (delegated: string, isFresh: bool)
      modifies clock
      ensures clock.t >= old(clock.t)
      ensures (delegated, isFresh) == CachedAnswer(wellKnown, host, clock.t)
      ensures var live := host in wellKnown && clock.t < wellKnown[host].expires;
              && delegated == (if live then wellKnown[host].delegated else "")
              && (isFresh <==> live && 5 * (wellKnown[host].expires - clock.t) > wellKnown[host].ttl)
    {
      if host !in wellKnown {
        return "", false;
      }
      var e := wellKnown[host];
      var now := clock.Now();
      if !(now < e.expires) {
        return "", false;
      }
      return e.delegated, now < e.expires - e.ttl / 5;
    }

    method HadValidWellKnown(host: string, clock: Clock) returns (had: bool)
      modifies clock
      ensures clock.t >= old(clock.t) && had == HadValid(hadValid, host, clock.t)
      ensures had <==> host in hadValid && clock.t < hadValid[host]
    {
      if host !in hadValid {
        return false;
      }
      var now := clock.Now();
      return now < hadValid[host];
    }

    /**
     fetchWellKnown: a valid answer is remembered, any failure leaves hadValid alone. It reads the
     clock to decide on retries, to judge the headers and to date the memory: asked, judged and noted.
     */
    method FetchWellKnown(host: string, clock: Clock, attempts: nat -> Attempt, asleep: nat -> bool, jitter: Jitter)
      returns (r: Outcome, period: int, ghost made: nat, ghost asked: int, ghost judged: int, ghost noted: int)
      modifies clock, this`hadValid
      ensures old(clock.t) <= asked <= judged <= noted <= clock.t
      ensures CameOf(attempts, asleep, HadValid(old(hadValid), host, asked), r)
      ensures Made(attempts, asleep, host in old(hadValid) && asked < old(hadValid)[host], made)
      ensures match attempts(made)
              case Answered(server, headers) => r == Delegation(server, headers)
              case Rejected => r == Failure(false)
              case _ => r == Failure(true)
      ensures r.Delegation? ==> period == ValidPeriod(r.headers, judged, jitter)
                                && hadValid == Remember(old(hadValid), host, r.server, noted, period)
      ensures r.Delegation? ==>
                hadValid == if r.server == "" then old(hadValid) - {host}
                            else old(hadValid)[host := noted + period + 7_200_000_000_000]
      ensures r.Failure? ==> hadValid == old(hadValid) && period == 0
    {
      var retry := HadValidWellKnown(host, clock);
      asked := clock.t;
      var n;
      r, n := RequestWellKnown(attempts, asleep, retry);
      made := n;
      if r.Failure? {
        return r, 0, made, asked, asked, asked;
      }
      var now := clock.Now();
      judged := now;
      period := ValidPeriod(r.headers, now, jitter);
      now := clock.Now();
      noted := now;
      if r.server != "" {
        hadValid := hadValid[host := now + period + REMEMBER_HAD_VALID];
      } else {
        hadValid := hadValid - {host};
      }
    }

    /**
     The part of getWellKnown that runs while the host's lock is held; outcome is None if someone else
     had just refreshed the entry. A temporary failure with a delegation still cached keeps it,
     untouched; anything else replaces the entry.
     */
    method Refresh(host: string, clock: Clock, attempts: nat -> Attempt, asleep: nat -> bool, jitter: Jitter)
      returns (result: string, ghost outcome: Option<Outcome>, ghost made: nat, ghost looked: int, ghost judged: int,
          ghost noted: int, ghost stored: int)
      modifies clock, this
      ensures old(clock.t) <= looked <= judged <= noted <= stored <= clock.t
      ensures outcome.None? <==>
              && host in old(wellKnown) && looked < old(wellKnown)[host].expires
              && 5 * (old(wellKnown)[host].expires - looked) > old(wellKnown)[host].ttl
      ensures outcome.Some? ==>
                var before := old(wellKnown);
                var kept := host in before && looked < before[host].expires && before[host].delegated != "";
                match attempts(made)
                case Answered(server, _) =>
                  result == server && host in wellKnown && wellKnown[host].delegated == server
                case Rejected => result == "" && host in wellKnown && wellKnown[host].delegated == ""
                case _ => if kept then result == before[host].delegated && wellKnown == before
                          else result == "" && host in wellKnown && wellKnown[host].delegated == ""
      ensures forall h :: h != host ==> (h in wellKnown <==> h in old(wellKnown))
                                        && (h in wellKnown ==> wellKnown[h] == old(wellKnown)[h])
      ensures outcome.None? ==> IsFresh(wellKnown, host, looked) && result == wellKnown[host].delegated
                                && wellKnown == old(wellKnown) && hadValid == old(hadValid)
      ensures outcome.Some? ==>
                Refreshed(host, old(wellKnown), old(hadValid), wellKnown, hadValid, outcome.value, result,
                          looked, judged, noted, stored, jitter)
      ensures outcome.Some? ==>
                exists asked :: looked <= asked <= judged
                    && CameOf(attempts, asleep, HadValid(old(hadValid), host, asked), outcome.value)
                    && Made(attempts, asleep, host in old(hadValid) && asked < old(hadValid)[host], made)
    {
      var delegated, isFresh := CachedWellKnown(host, clock);
      looked := clock.t;
      if isFresh {
        return delegated, None, 0, looked, looked, looked, looked;
      }
      var now := clock.Now();
      looked := now;
      var prev := Previous(wellKnown, host, now);

      var r, period;
      ghost var asked;
      r, period, made, asked, judged, noted := FetchWellKnown(host, clock, attempts, asleep, jitter);
      outcome := Some(r);
      if r.Failure? {
        if prev.Some? && prev.value.delegated != "" && r.temporary {
          return prev.value.delegated, outcome, made, looked, judged, noted, noted;
        }
        result := "";
        var had := HadValidWellKnown(host, clock);
        judged, noted := clock.t, clock.t;
        period := Jittered(if had then DOWN_CACHE_PERIOD else INVALID_CACHE_PERIOD, jitter);
        FailurePeriodBounds(hadValid, host, judged, jitter);
      } else {
        result := r.server;
        ValidPeriodBounds(r.headers, judged, jitter);
      }
      stored := noted;
      if period > 0 {
        now := clock.Now();
        stored := now;
        wellKnown := wellKnown[host := Entry(result, now + period, period)];
      }
    }
  }
}
