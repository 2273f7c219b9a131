/**
 Reserved, not yet uploaded media IDs: the limit POST /create enforces (handleCreateMedia in
 upload.go) over the table statements of db.go, and the retry_after_ms of a refusal.
 */
module PendingMedia {
  import opened Common
  import opened UploadLimits
  import Quota
  import Runs

  predicate IsPending(row: Row, user: string, notBefore: int) {
    row.user == user && row.createdTS > notBefore && row.length.None?
  }

  /** SELECT COUNT(*) ... WHERE user_id = user AND created_ts > notBefore AND media_length IS NULL. */
  function Pending(rows: seq<Row>, user: string, notBefore: int): nat {
    if rows == [] then 0
    else (if IsPending(rows[0], user, notBefore) then 1 else 0) + Pending(rows[1..], user, notBefore)
  }

  /** The rows of the user without a length that were created after the start. */
  function PendingRows(rows: seq<Row>, user: string, notBefore: int): set<nat> {
    set i: nat | i < |rows| && rows[i].user == user && rows[i].length == None && rows[i].createdTS > notBefore
  }

  lemma {:induction false} PendingIsCount(rows: seq<Row>, user: string, notBefore: int)
    ensures Pending(rows, user, notBefore) == |PendingRows(rows, user, notBefore)|
  {
    if rows != [] {
      var n := |rows| - 1;
      var init, last := rows[..n], [rows[n]];
      PendingIsCount(init, user, notBefore);
      PendingConcat(init, last, user, notBefore);
      assert rows == init + last && last[1..] == [];
      LastIsCounted(rows, user, notBefore);
    }
  }

  lemma LastIsCounted(rows: seq<Row>, user: string, notBefore: int)
    requires rows != []
    ensures var n := |rows| - 1;
            |PendingRows(rows, user, notBefore)| == |PendingRows(rows[..n], user, notBefore)|
              + if rows[n].user == user && rows[n].length == None && rows[n].createdTS > notBefore then 1 else 0
  {
    var n := |rows| - 1;
    var counted: set<nat> := if rows[n].user == user && rows[n].length == None && rows[n].createdTS > notBefore
                             then {n} else {};
    assert PendingRows(rows, user, notBefore) == PendingRows(rows[..n], user, notBefore) + counted;
  }

  /** oldest is the earliest date of those rows. */
  ghost predicate IsEarliest(rows: seq<Row>, user: string, notBefore: int, oldest: int) {
    && (exists i :: i in PendingRows(rows, user, notBefore) && rows[i].createdTS == oldest)
    && forall i :: i in PendingRows(rows, user, notBefore) ==> oldest <= rows[i].createdTS
  }

  lemma OldestIsEarliest(rows: seq<Row>, user: string, notBefore: int, oldest: int)
    requires IsOldest(rows, user, notBefore, oldest)
    ensures IsEarliest(rows, user, notBefore, oldest)
  {
    var i: nat :| i < |rows| && IsPending(rows[i], user, notBefore) && rows[i].createdTS == oldest;
    assert i in PendingRows(rows, user, notBefore);
    forall j | j in PendingRows(rows, user, notBefore) ensures oldest <= rows[j].createdTS {
      assert IsPending(rows[j], user, notBefore);
    }
  }

  /** t is MIN(created_ts) over the rows that count. */
  predicate IsOldest(rows: seq<Row>, user: string, notBefore: int, t: int) {
    && (exists i :: 0 <= i < |rows| && IsPending(rows[i], user, notBefore) && rows[i].createdTS == t)
    && (forall i :: 0 <= i < |rows| && IsPending(rows[i], user, notBefore) ==> t <= rows[i].createdTS)
  }

  lemma {:induction false} PendingConcat(a: seq<Row>, b: seq<Row>, user: string, notBefore: int)
    ensures Pending(a + b, user, notBefore) == Pending(a, user, notBefore) + Pending(b, user, notBefore)
  {
    if a == [] {
      assert a + b == b;
    } else {
      PendingConcat(a[1..], b, user, notBefore);
      assert (a + b)[1..] == a[1..] + b;
    }
  }

  lemma {:induction false} LaterIsFewer(rows: seq<Row>, user: string, a: int, b: int)
    requires a <= b
    ensures Pending(rows, user, b) <= Pending(rows, user, a)
  {
    if rows != [] {
      LaterIsFewer(rows[1..], user, a, b);
    }
  }

  /** Moving the start forward drops nobody, or drops someone, exactly as the rows in between say. */
  lemma {:induction false} SameUntil(rows: seq<Row>, user: string, a: int, b: int)
    requires a <= b
    ensures Pending(rows, user, a) == Pending(rows, user, b) <==>
            forall i :: 0 <= i < |rows| && IsPending(rows[i], user, a) ==> IsPending(rows[i], user, b)
  {
    if rows != [] {
      LaterIsFewer(rows[1..], user, a, b);
      SameUntil(rows[1..], user, a, b);
      forall i | 0 < i < |rows| ensures rows[i] == rows[1..][i - 1] {
      }
      if forall i :: 0 <= i < |rows| && IsPending(rows[i], user, a) ==> IsPending(rows[i], user, b) {
        forall i | 0 <= i < |rows[1..]| && IsPending(rows[1..][i], user, a) ensures IsPending(rows[1..][i], user, b) {
          assert IsPending(rows[i + 1], user, a);
        }
      }
    }
  }

  lemma {:induction false} CompletingRemoves(rows: seq<Row>, id: string, length: nat, user: string, notBefore: int)
    ensures Pending(Quota.Completed(rows, id, length), user, notBefore) <= Pending(rows, user, notBefore)
  {
    if rows != [] {
      CompletingRemoves(rows[1..], id, length, user, notBefore);
      var done := Quota.Completed(rows, id, length);
      assert done[1..] == if rows[0].mediaID == id then rows[1..] else Quota.Completed(rows[1..], id, length);
    }
  }

  // --- the table --------------------------------------------------------------------------------

  /** local_media_repository as db.go writes it: one SQL statement a method. */
  class LocalMediaTable {
    var rows: seq<Row>

    constructor ()
      ensures rows == []
    {
      rows := [];
    }

    method CountPendingMedia(user: string, notBefore: int) returns (count: nat, oldest: int)
      ensures count == Pending(rows, user, notBefore) == |PendingRows(rows, user, notBefore)|
      ensures count > 0 ==> IsEarliest(rows, user, notBefore, oldest)
      ensures if count == 0 then oldest == 0 else IsOldest(rows, user, notBefore, oldest)
    {
      count, oldest := 0, 0;
      for i := 0 to |rows|
        invariant Pending(rows, user, notBefore) == count + Pending(rows[i..], user, notBefore)
        invariant count == 0 ==> oldest == 0 && forall j :: 0 <= j < i ==> !IsPending(rows[j], user, notBefore)
        invariant count > 0 ==> IsOldest(rows[..i], user, notBefore, oldest)
      {
        assert rows[i..][1..] == rows[i + 1..];
        assert forall j :: 0 <= j < i ==> rows[..i + 1][j] == rows[..i][j];
        if IsPending(rows[i], user, notBefore) {
          assert rows[..i + 1][i] == rows[i];
          ghost var before := oldest;
          if count == 0 || rows[i].createdTS < oldest {
            oldest := rows[i].createdTS;
          } else {
            ghost var j :| 0 <= j < |rows[..i]| && IsPending(rows[..i][j], user, notBefore)
                && rows[..i][j].createdTS == before;
            assert IsPending(rows[..i + 1][j], user, notBefore);
          }
          count := count + 1;
        } else if count > 0 {
          ghost var j :| 0 <= j < |rows[..i]| && IsPending(rows[..i][j], user, notBefore)
              && rows[..i][j].createdTS == oldest;
          assert IsPending(rows[..i + 1][j], user, notBefore);
        }
      }
      assert rows[..|rows|] == rows;
      PendingIsCount(rows, user, notBefore);
      if count > 0 {
        OldestIsEarliest(rows, user, notBefore, oldest);
      }
    }

    /** The reservation: a plain INSERT, so a taken media ID is an error and changes nothing. */
    method StoreLocalMediaID(mediaID: string, createdTS: int, user: string) returns (ok: bool)
      modifies this
      ensures ok <==> !Quota.Has(old(rows), mediaID)
      ensures rows == if ok then old(rows) + [Row(mediaID, user, createdTS, None)] else old(rows)
    {
      ok := !Quota.Has(rows, mediaID);
      if ok {
        rows := rows + [Row(mediaID, user, createdTS, None)];
      }
    }

    method UploadedSizeForUser(user: string, notBefore: int) returns (total: nat)
      ensures total == UploadedSince(rows, user, notBefore)
    {
      total := 0;
      for i := 0 to |rows|
        invariant UploadedSince(rows, user, notBefore) == total + UploadedSince(rows[i..], user, notBefore)
      {
        assert rows[i..][1..] == rows[i + 1..];
        total := total + Bytes(rows[i], user, notBefore);
      }
    }
  }

  // --- POST /create --------------------------------------------------------------------------------

  /** unused_expiration_time in milliseconds and max_pending_media_uploads, where zero or less is no limit. */
  datatype Config = Config(expiration: nat, maxPending: int)

  datatype Answer =
    | Reserved(mediaID: string, unusedExpiresAt: int)
    | Limited(retryAfter: int)
    | Failed

  predicate Refused(cfg: Config, rows: seq<Row>, user: string, now: int) {
    cfg.maxPending > 0 && Pending(rows, user, now - cfg.expiration) >= cfg.maxPending
  }

  /** What a refusal answers: the time until the oldest pending ID expires, or zero if that has passed by now. */
  predicate IsRetry(cfg: Config, rows: seq<Row>, user: string, before: int, after: int, oldest: int, retryAfter: int) {
    && IsOldest(rows, user, before - cfg.expiration, oldest)
    && retryAfter == if oldest + cfg.expiration > after then oldest + cfg.expiration - after else 0
  }

  /** handleCreateMedia. It reads the clock before the count and again after it; either statement may fail. */
  method HandleCreateMedia(cfg: Config, table: LocalMediaTable, user: string, newID: string, before: int, after: int,
                           countFails: bool, insertFails: bool)
    returns (answer: Answer)
    modifies table
    ensures var refused := Refused(cfg, old(table.rows), user, before);
      var taken := insertFails || Quota.Has(old(table.rows), newID);
      match answer
      case Limited(retryAfter) =>
        && !countFails && refused && table.rows == old(table.rows) && retryAfter >= 0
        && exists oldest :: IsRetry(cfg, table.rows, user, before, after, oldest, retryAfter)
      case Reserved(id, expires) =>
        && !countFails && !refused && !taken && id == newID && expires == after + cfg.expiration
        && table.rows == old(table.rows) + [Row(newID, user, after, None)]
      case Failed => (countFails || (!refused && taken)) && table.rows == old(table.rows)
    ensures var pending := PendingRows(old(table.rows), user, before - cfg.expiration);
      match answer
      case Limited(retryAfter) =>
        && 0 < cfg.maxPending <= |pending|
        && exists i :: i in pending && (forall j :: j in pending ==> table.rows[i].createdTS <= table.rows[j].createdTS)
                       && retryAfter == Later(0, table.rows[i].createdTS + cfg.expiration - after)
      case Reserved(_, _) => cfg.maxPending <= 0 || |pending| < cfg.maxPending
      case Failed => countFails || insertFails || exists i :: 0 <= i < |table.rows| && table.rows[i].mediaID == newID
  {
    PendingIsCount(table.rows, user, before - cfg.expiration);
    if countFails {
      return Failed;
    }
    var pending, oldest := table.CountPendingMedia(user, before - cfg.expiration);
    if cfg.maxPending > 0 && pending >= cfg.maxPending {
      var retryAfter := oldest + cfg.expiration - after;
      if retryAfter < 0 {
        retryAfter := 0;
      }
      assert IsRetry(cfg, table.rows, user, before, after, oldest, retryAfter);
      return Limited(retryAfter);
    }
    if insertFails {
      return Failed;
    }
    var ok := table.StoreLocalMediaID(newID, after, user);
    if !ok {
      return Failed;
    }
    return Reserved(newID, after + cfg.expiration);
  }

  lemma RefusedUntilOldestExpires(cfg: Config, rows: seq<Row>, user: string, before: int, oldest: int)
    requires Refused(cfg, rows, user, before) && IsOldest(rows, user, before - cfg.expiration, oldest)
    ensures forall t :: before <= t < oldest + cfg.expiration ==> Refused(cfg, rows, user, t)
    ensures Pending(rows, user, oldest) < Pending(rows, user, before - cfg.expiration)
  {
    forall t | before <= t < oldest + cfg.expiration ensures Refused(cfg, rows, user, t) {
      SameUntil(rows, user, before - cfg.expiration, t - cfg.expiration);
    }
    var i :| 0 <= i < |rows| && IsPending(rows[i], user, before - cfg.expiration) && rows[i].createdTS == oldest;
    assert !IsPending(rows[i], user, oldest);
    LaterIsFewer(rows, user, before - cfg.expiration, oldest);
    SameUntil(rows, user, before - cfg.expiration, oldest);
  }

  function Later(a: int, b: int): int {
    if a < b then b else a
  }

  /**
   What retry_after_ms is worth. While the table stays as it is, a create is refused at every
   millisecond from the answer until that long after it. At that millisecond it succeeds if and
   only if fewer than the limit were reserved since the oldest expired, or since the answer if
   that is later; which holds for every user within the limit.
   */
  lemma RetryAfterIsExact(cfg: Config, rows: seq<Row>, user: string, before: int, after: int, oldest: int,
                          retryAfter: int)
    requires before <= after && Refused(cfg, rows, user, before)
    requires IsRetry(cfg, rows, user, before, after, oldest, retryAfter)
    ensures forall t :: after <= t < after + retryAfter ==> Refused(cfg, rows, user, t)
    ensures !Refused(cfg, rows, user, after + retryAfter) <==>
            Pending(rows, user, Later(oldest, after - cfg.expiration)) < cfg.maxPending
    ensures Pending(rows, user, before - cfg.expiration) <= cfg.maxPending
            ==> !Refused(cfg, rows, user, after + retryAfter)
  {
    RefusedUntilOldestExpires(cfg, rows, user, before, oldest);
    LaterIsFewer(rows, user, oldest, after + retryAfter - cfg.expiration);
  }

  /** Two pending IDs under a limit of one, with one clock reading: the time answered is too short. */
  lemma RetryAfterTooShort()
    ensures var cfg, rows := Config(10, 1), [Row("a", "u", 1, None), Row("b", "u", 2, None)];
            && Refused(cfg, rows, "u", 5) && IsRetry(cfg, rows, "u", 5, 5, 1, 6) && Refused(cfg, rows, "u", 5 + 6)
  {
    var rows := [Row("a", "u", 1, None), Row("b", "u", 2, None)];
    assert rows[1..] == [Row("b", "u", 2, None)] && rows[1..][1..] == [];
    assert Pending(rows, "u", -5) == 2 && Pending(rows, "u", 1) == 1;
    assert IsPending(rows[0], "u", -5) && IsPending(rows[1], "u", -5);
  }

  // --- whole runs -----------------------------------------------------------------------------------

  /** creating holds the users of creates that have passed their count and not yet inserted. */
  datatype State = State(now: int, rows: seq<Row>, creating: seq<string>)

  datatype Step =
    | Tick(ms: nat)
    | Admit(user: string)
    | Insert(k: nat, mediaID: string)
    | Abandon(k: nat)
    | Fill(mediaID: string, length: nat)      // a PUT completes a reservation
    | Upload(row: Row)                        // a synchronous upload

  ghost predicate Next(cfg: Config, s: State, step: Step, s': State) {
    match step
    case Tick(ms) => s' == s.(now := s.now + ms)
    case Admit(user) => !Refused(cfg, s.rows, user, s.now) && s' == s.(creating := s.creating + [user])
    case Insert(k, id) =>
      && k < |s.creating|
      && s' == s.(rows := s.rows + [Row(id, s.creating[k], s.now, None)],
                  creating := s.creating[..k] + s.creating[k + 1..])
    case Abandon(k) => k < |s.creating| && s' == s.(creating := s.creating[..k] + s.creating[k + 1..])
    case Fill(id, length) => s' == s.(rows := Quota.Completed(s.rows, id, length))
    case Upload(row) => row.length.Some? && s' == s.(rows := s.rows + [row])
  }

  function Creating(users: seq<string>, user: string): nat {
    if users == [] then 0 else (if users[0] == user then 1 else 0) + Creating(users[1..], user)
  }

  lemma {:induction false} CreatingConcat(a: seq<string>, b: seq<string>, user: string)
    ensures Creating(a + b, user) == Creating(a, user) + Creating(b, user)
  {
    if a == [] {
      assert a + b == b;
    } else {
      CreatingConcat(a[1..], b, user);
      assert (a + b)[1..] == a[1..] + b;
    }
  }

  lemma CreatingWithout(users: seq<string>, k: nat, user: string)
    requires k < |users|
    ensures Creating(users, user) == Creating(users[..k] + users[k + 1..], user) + (if users[k] == user then 1 else 0)
  {
    assert users == users[..k] + ([users[k]] + users[k + 1..]);
    CreatingConcat(users[..k], [users[k]] + users[k + 1..], user);
    CreatingConcat([users[k]], users[k + 1..], user);
    CreatingConcat(users[..k], users[k + 1..], user);
    assert [users[k]][1..] == [];
  }

  /** Unexpired pending IDs, plus the creates about to add one, stay below the limit plus the overlap. */
  ghost predicate Inv(cfg: Config, s: State, user: string, most: nat) {
    Pending(s.rows, user, s.now - cfg.expiration) + Creating(s.creating, user) < cfg.maxPending + most
  }

  lemma StepKeeps(cfg: Config, s: State, step: Step, s': State, user: string, most: nat)
    requires cfg.maxPending > 0 && Inv(cfg, s, user, most) && Next(cfg, s, step, s')
    requires Creating(s'.creating, user) <= most
    ensures Inv(cfg, s', user, most)
  {
    var notBefore := s.now - cfg.expiration;
    match step {
      case Tick(ms) => LaterIsFewer(s.rows, user, notBefore, notBefore + ms);
      case Admit(u) => CreatingConcat(s.creating, [u], user);
        assert [u][1..] == [];
      case Insert(k, id) =>
        var row := Row(id, s.creating[k], s.now, None);
        CreatingWithout(s.creating, k, user);
        PendingConcat(s.rows, [row], user, notBefore);
        assert [row][1..] == [];
      case Abandon(k) => CreatingWithout(s.creating, k, user);
      case Fill(id, length) => CompletingRemoves(s.rows, id, length, user, notBefore);
      case Upload(row) => PendingConcat(s.rows, [row], user, notBefore);
        assert [row][1..] == [];
    }
  }

  ghost predicate IsRun(cfg: Config, user: string, most: nat, states: seq<State>, steps: seq<Step>) {
    Runs.IsRun((s: State) => s.creating == [] && Pending(s.rows, user, s.now - cfg.expiration) <= cfg.maxPending,
               (s, step, s') => Next(cfg, s, step, s') && Creating(s'.creating, user) <= most, states, steps)
  }

  /**
   With at most `most` of the user's creates overlapping, the unexpired pending IDs stay below
   MaxPendingMediaUploads + most; with creates one at a time they never exceed the limit.
   */
  lemma PendingStaysBounded(cfg: Config, user: string, most: nat, states: seq<State>, steps: seq<Step>, i: nat)
    requires cfg.maxPending > 0 && most > 0 && IsRun(cfg, user, most, states, steps) && i < |states|
    ensures Pending(states[i].rows, user, states[i].now - cfg.expiration) < cfg.maxPending + most
  {
    forall s, step, s' | Inv(cfg, s, user, most) && Next(cfg, s, step, s') && Creating(s'.creating, user) <= most
      ensures Inv(cfg, s', user, most)
    {
      StepKeeps(cfg, s, step, s', user, most);
    }
    Runs.Invariant((s: State) => s.creating == [] && Pending(s.rows, user, s.now - cfg.expiration) <= cfg.maxPending,
                   (s, step, s') => Next(cfg, s, step, s') && Creating(s'.creating, user) <= most,
                   s => Inv(cfg, s, user, most), states, steps, i);
  }

  /**
   So a refusal to a user whose creates come one at a time is exact: counted at any moment of a run
   and answered then or later, it gives the first millisecond at which a create would succeed if
   nothing else happened.
   */
  lemma SerialRefusalsAreExact(cfg: Config, user: string, states: seq<State>, steps: seq<Step>, i: nat,
                               after: int, oldest: int, retryAfter: int)
    requires cfg.maxPending > 0 && IsRun(cfg, user, 1, states, steps) && i < |states|
    requires var s := states[i];
             && s.now <= after && Refused(cfg, s.rows, user, s.now)
             && IsRetry(cfg, s.rows, user, s.now, after, oldest, retryAfter)
    ensures forall t :: after <= t ==> (Refused(cfg, states[i].rows, user, t) <==> t < after + retryAfter)
  {
    var rows := states[i].rows;
    PendingStaysBounded(cfg, user, 1, states, steps, i);
    RetryAfterIsExact(cfg, rows, user, states[i].now, after, oldest, retryAfter);
    forall t | after + retryAfter <= t ensures !Refused(cfg, rows, user, t) {
      LaterIsFewer(rows, user, after + retryAfter - cfg.expiration, t - cfg.expiration);
    }
  }
}
