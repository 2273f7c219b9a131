/**
 The rolling-window quota over whole runs (withinUploadLimits in upload.go between the bytes being
 on disk and the row being written). Synchronous uploads write a row dated now; asynchronous ones
 complete a row dated by its reservation.
 */
module Quota {
  import opened Common
  import opened UploadLimits
  import Runs

  /** An upload that has passed its limit check and has yet to write its row; None is a synchronous one. */
  datatype Pass = Pass(user: string, length: nat, reserved: Option<string>)

  datatype State = State(now: int, rows: seq<Row>, passed: seq<Pass>)

  datatype Step =
    | Tick(ms: nat)
    | Reserve(mediaID: string, user: string)  // POST /create
    | Check(pass: Pass)                       // evaluateUploadLimits answers nil
    | Write(k: nat, mediaID: string)          // StoreLocalMedia for passed[k]
    | Complete(k: nat)                        // CompleteLocalMedia for passed[k]
    | Drop(k: nat)                            // passed[k] fails, loses or stops

  predicate Has(rows: seq<Row>, mediaID: string) {
    exists i :: 0 <= i < |rows| && rows[i].mediaID == mediaID
  }

  /** A row the user reserved, as handleAsyncUpload requires before it reads the body. */
  predicate Owns(rows: seq<Row>, mediaID: string, user: string) {
    exists i :: 0 <= i < |rows| && rows[i].mediaID == mediaID && rows[i].user == user
  }

  /** UPDATE ... SET media_length WHERE media_id = id AND media_length IS NULL; media_id is the primary key. */
  function Completed(rows: seq<Row>, mediaID: string, length: nat): seq<Row> {
    if rows == [] then []
    else if rows[0].mediaID == mediaID
    then [if rows[0].length.None? then rows[0].(length := Some(length)) else rows[0]] + rows[1..]
    else [rows[0]] + Completed(rows[1..], mediaID, length)
  }

  function Without(passed: seq<Pass>, k: nat): seq<Pass>
    requires k < |passed|
  {
    passed[..k] + passed[k + 1..]
  }

  predicate PrimaryKey(rows: seq<Row>) {
    forall i, j :: 0 <= i < j < |rows| ==> rows[i].mediaID != rows[j].mediaID
  }

  ghost predicate Next(limits: seq<Limit>, s: State, step: Step, s': State) {
    match step
    case Tick(ms) => s' == s.(now := s.now + ms)
    case Reserve(id, user) => !Has(s.rows, id) && s' == s.(rows := s.rows + [Row(id, user, s.now, None)])
    case Check(pass) =>
      && Evaluate(limits, pass.length, s.now, UsageOf(s.rows, pass.user), None) == Ok(None)
      && (pass.reserved.Some? ==> Owns(s.rows, pass.reserved.value, pass.user))
      && s' == s.(passed := s.passed + [pass])
    case Write(k, id) =>
      && k < |s.passed| && s.passed[k].reserved.None? && !Has(s.rows, id)
      && s' == s.(rows := s.rows + [Row(id, s.passed[k].user, s.now, Some(s.passed[k].length))],
                  passed := Without(s.passed, k))
    case Complete(k) =>
      && k < |s.passed| && s.passed[k].reserved.Some?
      && s' == s.(rows := Completed(s.rows, s.passed[k].reserved.value, s.passed[k].length),
                  passed := Without(s.passed, k))
    case Drop(k) => k < |s.passed| && s' == s.(passed := Without(s.passed, k))
  }

  // --- what the user holds -------------------------------------------------------------------

  /** How many of the user's uploads stand between check and row, and with how many bytes. */
  function Overlap(passed: seq<Pass>, user: string): nat {
    if passed == [] then 0 else (if passed[0].user == user then 1 else 0) + Overlap(passed[1..], user)
  }

  function PassedBytes(passed: seq<Pass>, user: string): nat {
    if passed == [] then 0
    else (if passed[0].user == user then passed[0].length else 0) + PassedBytes(passed[1..], user)
  }

  /** Bytes of the user in the limit's window, as it stands now. */
  function InWindow(s: State, user: string, l: Limit): nat {
    UploadedSince(s.rows, user, s.now - l.window)
  }

  lemma {:induction false} PassedConcat(a: seq<Pass>, b: seq<Pass>, user: string)
    ensures Overlap(a + b, user) == Overlap(a, user) + Overlap(b, user)
    ensures PassedBytes(a + b, user) == PassedBytes(a, user) + PassedBytes(b, user)
  {
    if a == [] {
      assert a + b == b;
    } else {
      PassedConcat(a[1..], b, user);
      assert (a + b)[1..] == a[1..] + b;
    }
  }

  lemma OnePass(p: Pass, user: string)
    ensures Overlap([p], user) == (if p.user == user then 1 else 0)
    ensures PassedBytes([p], user) == (if p.user == user then p.length else 0)
  {
    assert [p][1..] == [];
  }

  lemma WithoutCounts(passed: seq<Pass>, k: nat, user: string)
    requires k < |passed|
    ensures Overlap(passed, user) == Overlap(Without(passed, k), user) + (if passed[k].user == user then 1 else 0)
    ensures PassedBytes(passed, user) == PassedBytes(Without(passed, k), user)
            + (if passed[k].user == user then passed[k].length else 0)
  {
    assert passed == passed[..k] + ([passed[k]] + passed[k + 1..]);
    PassedConcat(passed[..k], [passed[k]] + passed[k + 1..], user);
    PassedConcat([passed[k]], passed[k + 1..], user);
    PassedConcat(passed[..k], passed[k + 1..], user);
    OnePass(passed[k], user);
  }

  lemma {:induction false} BytesByCount(passed: seq<Pass>, user: string, most: nat)
    requires forall p :: p in passed && p.user == user ==> p.length <= most
    ensures PassedBytes(passed, user) <= Overlap(passed, user) * most
  {
    if passed != [] {
      BytesByCount(passed[1..], user, most);
      assert passed[0] in passed;
      assert Overlap(passed, user) * most == (if passed[0].user == user then most else 0)
          + Overlap(passed[1..], user) * most;
    }
  }

  /** Completing a reserved row adds at most the upload's bytes to its owner, and nothing to anyone else. */
  lemma {:induction false} CompletedAdds(rows: seq<Row>, id: string, length: nat, user: string, notBefore: int)
    requires PrimaryKey(rows)
    ensures UploadedSince(rows, user, notBefore) <= UploadedSince(Completed(rows, id, length), user, notBefore)
         <= UploadedSince(rows, user, notBefore) + (if Owns(rows, id, user) then length else 0)
  {
    if rows != [] {
      var rest := rows[1..];
      forall i, j | 0 <= i < j < |rest| ensures rest[i].mediaID != rest[j].mediaID {
        assert rows[i + 1].mediaID != rows[j + 1].mediaID;
      }
      CompletedAdds(rest, id, length, user, notBefore);
      if i :| 0 <= i < |rest| && rest[i].mediaID == id && rest[i].user == user {
        assert rows[i + 1].mediaID == id && rows[i + 1].user == user;
      }
      var done := Completed(rows, id, length);
      assert done[1..] == if rows[0].mediaID == id then rest else Completed(rest, id, length);
    }
  }

  lemma {:induction false} CompletedKeepsRows(rows: seq<Row>, id: string, length: nat)
    ensures |Completed(rows, id, length)| == |rows|
    ensures forall i :: 0 <= i < |rows| ==>
                          && Completed(rows, id, length)[i].mediaID == rows[i].mediaID
                          && Completed(rows, id, length)[i].user == rows[i].user
  {
    if rows != [] {
      CompletedKeepsRows(rows[1..], id, length);
    }
  }

  // --- the invariant -----------------------------------------------------------------------------

  /** A pass never exceeds a limit on its own, and completes a row of its own user. */
  ghost predicate PassesOK(limits: seq<Limit>, s: State) {
    forall p :: p in s.passed ==>
                  && (forall l :: l in limits ==> p.length <= l.maxBytes)
                  && (p.reserved.Some? ==> Owns(s.rows, p.reserved.value, p.user))
  }

  /** Rows in the window and passes under way together stay within `most` times the limit. */
  ghost predicate Held(limits: seq<Limit>, s: State, user: string, most: nat) {
    forall l :: l in limits ==> InWindow(s, user, l) + PassedBytes(s.passed, user) <= most * l.maxBytes
  }

  ghost predicate Inv(limits: seq<Limit>, s: State, user: string, most: nat) {
    PrimaryKey(s.rows) && PassesOK(limits, s) && Held(limits, s, user, most)
  }

  lemma OwnsAppend(rows: seq<Row>, row: Row, id: string, user: string)
    ensures Owns(rows, id, user) ==> Owns(rows + [row], id, user)
  {
    if i :| 0 <= i < |rows| && rows[i].mediaID == id && rows[i].user == user {
      assert (rows + [row])[i].mediaID == id && (rows + [row])[i].user == user;
    }
  }

  lemma KeyIsOneUser(rows: seq<Row>, id: string, a: string, b: string)
    requires PrimaryKey(rows) && Owns(rows, id, a) && Owns(rows, id, b)
    ensures a == b
  {
    var i :| 0 <= i < |rows| && rows[i].mediaID == id && rows[i].user == a;
    var j :| 0 <= j < |rows| && rows[j].mediaID == id && rows[j].user == b;
    assert i == j;
  }

  lemma OneRow(row: Row, user: string, notBefore: int)
    ensures UploadedSince([row], user, notBefore) == Bytes(row, user, notBefore)
  {
    assert [row][1..] == [];
  }

  lemma KeepTick(limits: seq<Limit>, s: State, ms: nat, user: string, most: nat)
    requires Inv(limits, s, user, most)
    ensures Inv(limits, s.(now := s.now + ms), user, most)
  {
    forall l | l in limits ensures InWindow(s.(now := s.now + ms), user, l) <= InWindow(s, user, l) {
      LaterIsLess(s.rows, user, s.now - l.window, s.now + ms - l.window);
    }
  }

  lemma KeepAppend(limits: seq<Limit>, s: State, s': State, row: Row, user: string, most: nat)
    requires Inv(limits, s, user, most) && !Has(s.rows, row.mediaID)
    requires s'.now == s.now && s'.rows == s.rows + [row]
    requires forall p :: p in s'.passed ==> p in s.passed
    requires PassedBytes(s'.passed, user) + (if row.user == user && row.length.Some? then row.length.value else 0)
          <= PassedBytes(s.passed, user)
    ensures Inv(limits, s', user, most)
  {
    forall l | l in limits ensures InWindow(s', user, l) + PassedBytes(s'.passed, user) <= most * l.maxBytes {
      UploadedConcat(s.rows, [row], user, s.now - l.window);
      OneRow(row, user, s.now - l.window);
    }
    forall p | p in s'.passed && p.reserved.Some? ensures Owns(s'.rows, p.reserved.value, p.user) {
      OwnsAppend(s.rows, row, p.reserved.value, p.user);
    }
  }

  lemma KeepComplete(limits: seq<Limit>, s: State, s': State, k: nat, user: string, most: nat)
    requires Inv(limits, s, user, most) && Next(limits, s, Complete(k), s')
    ensures Inv(limits, s', user, most)
  {
    var p := s.passed[k];
    var id := p.reserved.value;
    assert p in s.passed;
    CompletedKeepsRows(s.rows, id, p.length);
    WithoutCounts(s.passed, k, user);
    if Owns(s.rows, id, user) {
      KeyIsOneUser(s.rows, id, user, p.user);
    }
    forall l | l in limits ensures InWindow(s', user, l) + PassedBytes(s'.passed, user) <= most * l.maxBytes {
      CompletedAdds(s.rows, id, p.length, user, s.now - l.window);
    }
    forall q | q in s'.passed && q.reserved.Some? ensures Owns(s'.rows, q.reserved.value, q.user) {
      assert q in s.passed;
      var i :| 0 <= i < |s.rows| && s.rows[i].mediaID == q.reserved.value && s.rows[i].user == q.user;
      assert s'.rows[i].mediaID == q.reserved.value && s'.rows[i].user == q.user;
    }
  }

  lemma KeepCheck(limits: seq<Limit>, s: State, s': State, pass: Pass, user: string, most: nat)
    requires LongestFirst(limits) && Inv(limits, s, user, most) && Next(limits, s, Check(pass), s')
    requires Overlap(s'.passed, user) <= most
    ensures Inv(limits, s', user, most)
  {
    EvaluateOverRows(limits, pass.length, s.now, s.rows, pass.user);
    PassedConcat(s.passed, [pass], user);
    OnePass(pass, user);
    forall l | l in limits ensures InWindow(s', user, l) + PassedBytes(s'.passed, user) <= most * l.maxBytes {
      if pass.user == user {
        BytesByCount(s.passed, user, l.maxBytes);
        Multiples(Overlap(s.passed, user), most - 1, l.maxBytes);
      }
    }
  }

  lemma Multiples(a: nat, b: int, m: nat)
    requires a <= b
    ensures a * m + m <= (b + 1) * m
  {
    assert (b + 1) * m == b * m + m && a * m <= b * m;
  }

  lemma StepKeeps(limits: seq<Limit>, s: State, step: Step, s': State, user: string, most: nat)
    requires LongestFirst(limits) && Inv(limits, s, user, most) && Next(limits, s, step, s')
    requires Overlap(s'.passed, user) <= most
    ensures Inv(limits, s', user, most)
  {
    match step {
      case Tick(ms) => KeepTick(limits, s, ms, user, most);
      case Reserve(id, u) => KeepAppend(limits, s, s', Row(id, u, s.now, None), user, most);
      case Check(pass) => KeepCheck(limits, s, s', pass, user, most);
      case Write(k, id) =>
        WithoutCounts(s.passed, k, user);
        KeepAppend(limits, s, s', Row(id, s.passed[k].user, s.now, Some(s.passed[k].length)), user, most);
      case Complete(k) => KeepComplete(limits, s, s', k, user, most);
      case Drop(k) => WithoutCounts(s.passed, k, user);
    }
  }

  // --- whole runs ---------------------------------------------------------------------------------

  /** Before the run no upload is under way and the user is within every limit. */
  ghost predicate Initial(limits: seq<Limit>, user: string, s: State) {
    PrimaryKey(s.rows) && s.passed == [] && forall l :: l in limits ==> InWindow(s, user, l) <= l.maxBytes
  }

  /** A run in which never more than `most` uploads of the user overlap between check and row. */
  ghost predicate IsRun(limits: seq<Limit>, user: string, most: nat, states: seq<State>, steps: seq<Step>) {
    Runs.IsRun(s => Initial(limits, user, s),
               (s, step, s') => Next(limits, s, step, s') && Overlap(s'.passed, user) <= most, states, steps)
  }

  /**
   However uploads and reservations of any users interleave, the bytes in the user's rolling
   window never exceed MaxBytes times the number of that user's uploads that overlap.
   */
  lemma OverlapBoundsTheWindow(limits: seq<Limit>, user: string, most: nat, states: seq<State>, steps: seq<Step>,
                               i: nat, l: Limit)
    requires LongestFirst(limits) && most > 0 && IsRun(limits, user, most, states, steps)
    requires i < |states| && l in limits
    ensures InWindow(states[i], user, l) <= most * l.maxBytes
  {
    forall l | l in limits ensures InWindow(states[0], user, l) <= most * l.maxBytes {
      Multiples(0, most - 1, l.maxBytes);
    }
    forall s, step, s' | Inv(limits, s, user, most) && Next(limits, s, step, s') && Overlap(s'.passed, user) <= most
      ensures Inv(limits, s', user, most)
    {
      StepKeeps(limits, s, step, s', user, most);
    }
    Runs.Invariant(s => Initial(limits, user, s),
                   (s, step, s') => Next(limits, s, step, s') && Overlap(s'.passed, user) <= most,
                   s => Inv(limits, s, user, most), states, steps, i);
  }

  /** So for a user whose uploads do not overlap, every window is within its limit at every moment. */
  lemma WindowNeverExceeded(limits: seq<Limit>, user: string, states: seq<State>, steps: seq<Step>, i: nat, l: Limit)
    requires LongestFirst(limits) && IsRun(limits, user, 1, states, steps)
    requires i < |states| && l in limits
    ensures InWindow(states[i], user, l) <= l.maxBytes
  {
    OverlapBoundsTheWindow(limits, user, 1, states, steps, i, l);
  }

  // --- overlapping uploads do reach the bound ---

  function Racer(m: nat): Pass {
    Pass("u", m, None)
  }

  function RaceLimit(m: nat): Limit {
    Limit(m, 1000, "", false)
  }

  function Racers(m: nat, j: nat): seq<Pass> {
    seq(j, _ => Racer(m))
  }

  function RaceID(j: nat): string {
    seq(j, _ => 'a')
  }

  function RaceRows(m: nat, j: nat): seq<Row> {
    seq(j, (k: nat) => Row(RaceID(k), "u", 0, Some(m)))
  }

  /** `most` uploads of m bytes each: all of them are checked before any writes its row, one after another. */
  function RaceAt(most: nat, m: nat, i: nat): State
    requires i <= 2 * most
  {
    if i <= most then State(0, [], Racers(m, i)) else State(0, RaceRows(m, i - most), Racers(m, 2 * most - i))
  }

  function RaceStep(most: nat, m: nat, i: nat): Step {
    if i < most then Check(Racer(m)) else Write(0, RaceID(i - most))
  }

  function Race(most: nat, m: nat): seq<State> {
    seq(2 * most + 1, i requires 0 <= i <= 2 * most => RaceAt(most, m, i))
  }

  function RaceSteps(most: nat, m: nat): seq<Step> {
    seq(2 * most, (i: nat) => RaceStep(most, m, i))
  }

  lemma {:induction false} RacersOverlap(m: nat, j: nat)
    ensures Overlap(Racers(m, j), "u") == j
  {
    if j > 0 {
      RacersOverlap(m, j - 1);
      OnePass(Racer(m), "u");
      PassedConcat(Racers(m, j - 1), [Racer(m)], "u");
      assert Racers(m, j) == Racers(m, j - 1) + [Racer(m)];
    }
  }

  lemma RaceRowsSnoc(m: nat, j: nat)
    requires j > 0
    ensures RaceRows(m, j) == RaceRows(m, j - 1) + [Row(RaceID(j - 1), "u", 0, Some(m))]
  {
  }

  lemma {:induction false} RaceTotal(m: nat, j: nat)
    ensures UploadedSince(RaceRows(m, j), "u", -1000) == j * m
  {
    if j > 0 {
      var row := Row(RaceID(j - 1), "u", 0, Some(m));
      RaceTotal(m, j - 1);
      RaceRowsSnoc(m, j);
      OneRow(row, "u", -1000);
      UploadedConcat(RaceRows(m, j - 1), [row], "u", -1000);
      assert j * m == (j - 1) * m + m;
    }
  }

  lemma RaceChecks(most: nat, m: nat, i: nat)
    requires i < most
    ensures Next([RaceLimit(m)], RaceAt(most, m, i), RaceStep(most, m, i), RaceAt(most, m, i + 1))
  {
    EvaluateOverRows([RaceLimit(m)], m, 0, [], "u");
    assert Racers(m, i + 1) == Racers(m, i) + [Racer(m)];
  }

  lemma RaceWrites(most: nat, m: nat, i: nat)
    requires most <= i < 2 * most
    ensures Next([RaceLimit(m)], RaceAt(most, m, i), RaceStep(most, m, i), RaceAt(most, m, i + 1))
  {
    var j := i - most;
    var row := Row(RaceID(j), "u", 0, Some(m));
    assert RaceAt(most, m, i).rows == RaceRows(m, j) && RaceAt(most, m, i).passed == Racers(m, most - j);
    assert RaceRows(m, j + 1) == RaceRows(m, j) + [row];
    assert Without(Racers(m, most - j), 0) == Racers(m, most - j - 1);
    forall k | 0 <= k < j ensures RaceRows(m, j)[k].mediaID != RaceID(j) {
      assert |RaceID(k)| == k && |RaceID(j)| == j;
    }
  }

  /** `most` overlapping uploads reach `most` times the limit: the bound is attained, and serialising is needed. */
  lemma OverlapCanExceed(most: nat, m: nat)
    ensures IsRun([RaceLimit(m)], "u", most, Race(most, m), RaceSteps(most, m))
    ensures InWindow(Race(most, m)[2 * most], "u", RaceLimit(m)) == most * RaceLimit(m).maxBytes
  {
    var states, steps, limits := Race(most, m), RaceSteps(most, m), [RaceLimit(m)];
    forall i {:trigger steps[i]} | 0 <= i < |steps|
      ensures Next(limits, states[i], steps[i], states[i + 1]) && Overlap(states[i + 1].passed, "u") <= most
    {
      if i < most {
        RaceChecks(most, m, i);
        RacersOverlap(m, i + 1);
      } else {
        RaceWrites(most, m, i);
        RacersOverlap(m, 2 * most - i - 1);
      }
      assert states[i] == RaceAt(most, m, i) && states[i + 1] == RaceAt(most, m, i + 1)
          && steps[i] == RaceStep(most, m, i);
    }
    RaceTotal(m, most);
    assert states[0] == State(0, [], []);
    assert states[2 * most] == State(0, RaceRows(m, most), []);
  }
}
