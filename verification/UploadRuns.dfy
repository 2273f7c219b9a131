/**
 Who uploads and when, kept beside the store: the columns user_id and created_ts of
 local_media_repository, the clock, and the uploads that withinUploadLimits (upload.go) has let pass
 and that have yet to write their row. The limit check reads the store's own rows, and every history
 of the store so kept is a run of Quota over them.
 */
module UploadRuns {
  import opened Common
  import opened MediaStore
  import opened UploadLimits
  import Quota
  import Runs

  /** What a history is given: the store's configuration, the upload limits, and whose request each client serves. */
  datatype Setup = Setup(cfg: Config, limits: seq<Limit>, userOf: int -> string)

  /** The columns of a row that never change. */
  datatype Account = Account(user: string, createdTS: int)

  /** order lists the media IDs in the order of their rows; passed, the clients between limit check and row. */
  datatype Book = Book(now: int, accounts: map<string, Account>, order: seq<string>, passed: seq<int>)

  datatype Moment = Moment(store: State, book: Book)

  datatype Event =
    | Wait(ms: nat)
    | Act(step: Step, creator: string) // creator asks, if the step is a Create
    | Pass(t: int)                     // withinUploadLimits lets the upload pass

  /** The table as the usage query reads it. */
  function RowOf(m: Moment, id: string): Row {
    if id in m.book.accounts && id in m.store.local
    then Row(id, m.book.accounts[id].user, m.book.accounts[id].createdTS, m.store.local[id].length)
    else Row(id, "", 0, None)
  }

  function Rows(m: Moment): seq<Row> {
    seq(|m.book.order|, i requires 0 <= i < |m.book.order| => RowOf(m, m.book.order[i]))
  }

  /** evaluateUploadLimits finds nothing against so many bytes of the user. */
  predicate Allows(setup: Setup, m: Moment, user: string, length: nat) {
    Evaluate(setup.limits, length, m.book.now, UsageOf(Rows(m), user), None) == Ok(None)
  }

  predicate IsOwner(m: Moment, id: string, user: string) {
    id in m.book.accounts && m.book.accounts[id].user == user
  }

  /** What a handler has made sure of before it takes a step: that the row is its user's, and that its upload passed. */
  predicate Permitted(setup: Setup, m: Moment, step: Step)
    requires Enabled(setup.cfg, m.store, step)
  {
    match step
    case BeginPut(t, id, refused) => !refused && id in m.store.local ==> IsOwner(m, id, setup.userOf(t))
    case Rename(t, _) =>
      m.store.clients[t].Sealed? && !m.store.clients[t].job.Fetch? ==> t in m.book.passed
    case Insert(t, _) => !m.store.clients[t].job.Fetch? ==> t in m.book.passed
    case Complete(t, _) => t in m.book.passed
    case _ => true
  }

  predicate Possible(setup: Setup, m: Moment, e: Event) {
    match e
    case Wait(_) => true
    case Act(step, _) => Enabled(setup.cfg, m.store, step) && Permitted(setup, m, step)
    case Pass(t) =>
      && Running(m.store, t) && m.store.clients[t].Sealed? && !m.store.clients[t].job.Fetch? && t !in m.book.passed
      && Allows(setup, m, setup.userOf(t), |m.store.clients[t].body|)
  }

  /** The row a step inserts into local_media_repository, dated now. */
  function Inserted(setup: Setup, m: Moment, step: Step, creator: string): Option<(string, Account)>
    requires Enabled(setup.cfg, m.store, step)
  {
    match step
    case Create(id) => Some((id, Account(creator, m.book.now)))
    case Insert(t, dbFails) =>
      var job := m.store.clients[t].job;
      if dbFails || job.Fetch? || job.mediaID in m.store.local then None
      else Some((job.mediaID, Account(setup.userOf(t), m.book.now)))
    case _ => None
  }

  function IndexOf(passed: seq<int>, t: int): (k: nat)
    requires t in passed
    ensures k < |passed| && passed[k] == t
  {
    if passed[0] == t then 0 else IndexOf(passed[1..], t) + 1
  }

  function Minus(passed: seq<int>, t: int): seq<int> {
    if t in passed then passed[..IndexOf(passed, t)] + passed[IndexOf(passed, t) + 1..] else passed
  }

  /** A client's next step takes it past its row or ends it, save the rename a synchronous upload begins with. */
  predicate Leaves(step: Step) {
    !step.Create? && !(step.Rename? && step.ok)
  }

  function Booked(setup: Setup, m: Moment, step: Step, creator: string): Book
    requires Enabled(setup.cfg, m.store, step)
  {
    var passed := if Leaves(step) then Minus(m.book.passed, step.t) else m.book.passed;
    match Inserted(setup, m, step, creator)
    case None => m.book.(passed := passed)
    case Some((id, account)) =>
      Book(m.book.now, m.book.accounts[id := account], m.book.order + [id], passed)
  }

  function NextMoment(setup: Setup, m: Moment, e: Event): Moment
    requires Possible(setup, m, e)
  {
    match e
    case Wait(ms) => m.(book := m.book.(now := m.book.now + ms))
    case Act(step, creator) => Moment(MediaStore.Next(setup.cfg, m.store, step), Booked(setup, m, step, creator))
    case Pass(t) => m.(book := m.book.(passed := m.book.passed + [t]))
  }

  // --- nobody moves a client but itself --------------------------------------------------------------

  /** The client a step belongs to. */
  predicate IsBy(step: Step, t: int) {
    !step.Create? && step.t == t
  }

  ghost predicate LeavesAlone(s: State, s': State, t: int) {
    && (t in s'.clients <==> t in s.clients) && (t in s.clients ==> s'.clients[t] == s.clients[t])
    && (t in s'.stopped <==> t in s.stopped)
  }

  predicate Writes(step: Step) {
    || step.Rename? || step.Insert? || step.Complete? || step.Remove? || step.Append? || step.Seal? || step.OpenTemp?
  }

  lemma WritersLeave(cfg: Config, s: State, step: Step, t: int)
    requires Enabled(cfg, s, step) && !IsBy(step, t)
    requires Writes(step)
    ensures LeavesAlone(s, MediaStore.Next(cfg, s, step), t)
  {
  }

  lemma ReadersLeave(cfg: Config, s: State, step: Step, t: int)
    requires Enabled(cfg, s, step) && !IsBy(step, t)
    requires !Writes(step)
    ensures LeavesAlone(s, MediaStore.Next(cfg, s, step), t)
  {
  }

  lemma OthersLeave(cfg: Config, s: State, step: Step, t: int)
    requires Enabled(cfg, s, step) && !IsBy(step, t)
    ensures LeavesAlone(s, MediaStore.Next(cfg, s, step), t)
  {
    if Writes(step) {
      WritersLeave(cfg, s, step, t);
    } else {
      ReadersLeave(cfg, s, step, t);
    }
  }

  lemma MinusKeeps(passed: seq<int>, t: int, u: int)
    requires t != u
    ensures u in Minus(passed, t) <==> u in passed
  {
    if t in passed {
      var k := IndexOf(passed, t);
      assert passed == passed[..k] + [t] + passed[k + 1..];
    }
  }

  predicate IsOthers(e: Event, t: int) {
    match e
    case Wait(_) => true
    case Act(step, _) => !IsBy(step, t)
    case Pass(u) => u != t
  }

  /** What other clients do leaves a client where it is, between check and row or not. */
  lemma OthersPass(setup: Setup, m: Moment, e: Event, t: int)
    requires Possible(setup, m, e) && IsOthers(e, t)
    ensures var m' := NextMoment(setup, m, e);
            LeavesAlone(m.store, m'.store, t) && (t in m'.book.passed <==> t in m.book.passed)
  {
    if e.Act? {
      OthersLeave(setup.cfg, m.store, e.step, t);
      if Leaves(e.step) {
        MinusKeeps(m.book.passed, e.step.t, t);
      }
    }
  }

  // --- what the book keeps ----------------------------------------------------------------------------

  /** The book has an account for every row, and lists each once. */
  ghost predicate Covers(m: Moment) {
    && m.book.accounts.Keys == m.store.local.Keys
    && (forall id :: id in m.book.accounts <==> id in m.book.order)
    && (forall i, j :: 0 <= i < j < |m.book.order| ==> m.book.order[i] != m.book.order[j])
  }

  /** A client that passed has its upload whole, and its row is not written yet. */
  predicate PassedOK(m: Moment, t: int) {
    && t in m.store.clients
    && var c := m.store.clients[t];
    (c.Sealed? && !c.job.Fetch?) || (c.InPlace? && c.job.Sync?)
  }

  /** The job a client has from its beginning to its row. */
  function JobOf(s: State, t: int): Option<Job> {
    if t in s.clients && (s.clients[t].Ready? || s.clients[t].Copying? || s.clients[t].Sealed?)
    then Some(s.clients[t].job) else None
  }

  /** A PUT that goes on is the owner's. */
  ghost predicate PutsOwned(setup: Setup, m: Moment) {
    forall t :: JobOf(m.store, t).Some? && JobOf(m.store, t).value.Put? ==>
                  IsOwner(m, JobOf(m.store, t).value.mediaID, setup.userOf(t))
  }

  ghost predicate Once(passed: seq<int>) {
    forall i, j :: 0 <= i < j < |passed| ==> passed[i] != passed[j]
  }

  ghost predicate BookOK(setup: Setup, m: Moment) {
    && Covers(m) && PutsOwned(setup, m)
    && Once(m.book.passed) && (forall t :: t in m.book.passed ==> PassedOK(m, t))
  }

  ghost predicate MomentOK(setup: Setup, init: State, m: Moment) {
    MediaStore.Inv(setup.cfg, init, m.store) && BookOK(setup, m)
  }

  /** No other step writes a row of local_media_repository. */
  lemma RowsStay(cfg: Config, s: State, step: Step)
    requires Enabled(cfg, s, step) && !step.Create? && !step.Insert? && !step.Complete?
    ensures MediaStore.Next(cfg, s, step).local == s.local
  {
  }

  /** Rows are inserted as the book says, and none goes. */
  ghost predicate Inserts(s: State, s': State, new_: Option<(string, Account)>) {
    && s'.local.Keys == s.local.Keys + (if new_.Some? then {new_.value.0} else {})
    && (new_.Some? ==> new_.value.0 !in s.local)
  }

  lemma InsertInserts(setup: Setup, m: Moment, step: Step, creator: string)
    requires Enabled(setup.cfg, m.store, step) && step.Insert?
    ensures Inserts(m.store, MediaStore.Next(setup.cfg, m.store, step), Inserted(setup, m, step, creator))
  {
  }

  lemma CompleteInserts(setup: Setup, m: Moment, step: Step, creator: string)
    requires Enabled(setup.cfg, m.store, step) && step.Complete?
    ensures Inserts(m.store, MediaStore.Next(setup.cfg, m.store, step), Inserted(setup, m, step, creator))
  {
  }

  lemma StepInserts(setup: Setup, m: Moment, step: Step, creator: string)
    requires Enabled(setup.cfg, m.store, step) && UsedCovers(setup.cfg, m.store)
    ensures Inserts(m.store, MediaStore.Next(setup.cfg, m.store, step), Inserted(setup, m, step, creator))
  {
    if step.Insert? {
      InsertInserts(setup, m, step, creator);
    } else if step.Complete? {
      CompleteInserts(setup, m, step, creator);
    } else if !step.Create? {
      RowsStay(setup.cfg, m.store, step);
    }
  }

  lemma CoversAfter(m: Moment, m': Moment, new_: Option<(string, Account)>)
    requires Covers(m) && Inserts(m.store, m'.store, new_)
    requires match new_
             case None => m'.book.accounts == m.book.accounts && m'.book.order == m.book.order
             case Some((id, account)) =>
               m'.book.accounts == m.book.accounts[id := account] && m'.book.order == m.book.order + [id]
    ensures Covers(m')
  {
  }

  /** Only a PUT that begins has a media ID it did not have before. */
  ghost predicate PutsOn(s: State, step: Step, s': State)
    requires !step.Create?
  {
    JobOf(s', step.t).Some? && JobOf(s', step.t).value.Put? ==>
      || JobOf(s', step.t) == JobOf(s, step.t)
      || (step.BeginPut? && !step.refused && step.mediaID in s.local
          && JobOf(s', step.t) == Some(Put(step.mediaID)))
  }

  lemma WritersPutOn(cfg: Config, s: State, step: Step)
    requires Enabled(cfg, s, step) && Writes(step)
    ensures PutsOn(s, step, MediaStore.Next(cfg, s, step))
  {
  }

  lemma StepPutsOn(cfg: Config, s: State, step: Step)
    requires Enabled(cfg, s, step) && !step.Create?
    ensures PutsOn(s, step, MediaStore.Next(cfg, s, step))
  {
    if Writes(step) {
      WritersPutOn(cfg, s, step);
    }
  }

  lemma PutsOwnedAfter(setup: Setup, m: Moment, step: Step, m': Moment)
    requires Enabled(setup.cfg, m.store, step) && Permitted(setup, m, step) && PutsOwned(setup, m)
    requires m'.store == MediaStore.Next(setup.cfg, m.store, step)
    requires forall id :: id in m.book.accounts ==>
                            id in m'.book.accounts && m'.book.accounts[id] == m.book.accounts[id]
    ensures PutsOwned(setup, m')
  {
    forall t | JobOf(m'.store, t).Some? && JobOf(m'.store, t).value.Put?
      ensures IsOwner(m', JobOf(m'.store, t).value.mediaID, setup.userOf(t))
    {
      if IsBy(step, t) {
        StepPutsOn(setup.cfg, m.store, step);
      } else {
        OthersLeave(setup.cfg, m.store, step, t);
      }
    }
  }

  // --- the uploads that have passed ---------------------------------------------------------------------

  lemma MinusOnce(passed: seq<int>, t: int)
    requires Once(passed)
    ensures Once(Minus(passed, t)) && t !in Minus(passed, t)
  {
  }

  /** The rename of a synchronous upload leaves it between check and row. */
  lemma RenamedOK(cfg: Config, m: Moment, step: Step, m': Moment)
    requires Enabled(cfg, m.store, step) && step.Rename? && step.ok && PassedOK(m, step.t)
    requires m'.store == MediaStore.Next(cfg, m.store, step)
    ensures PassedOK(m', step.t)
    ensures m'.store.clients[step.t].body == m.store.clients[step.t].body
         && m'.store.clients[step.t].job == m.store.clients[step.t].job
  {
  }

  lemma PassedAfter(cfg: Config, m: Moment, step: Step, m': Moment)
    requires Enabled(cfg, m.store, step) && Once(m.book.passed) && forall t :: t in m.book.passed ==> PassedOK(m, t)
    requires m'.store == MediaStore.Next(cfg, m.store, step)
    requires m'.book.passed == if Leaves(step) then Minus(m.book.passed, step.t) else m.book.passed
    ensures Once(m'.book.passed) && forall t :: t in m'.book.passed ==> PassedOK(m', t)
  {
    if Leaves(step) {
      MinusOnce(m.book.passed, step.t);
    }
    forall t | t in m'.book.passed ensures PassedOK(m', t) {
      if IsBy(step, t) {
        RenamedOK(cfg, m, step, m');
      } else {
        if Leaves(step) {
          MinusKeeps(m.book.passed, step.t, t);
        }
        OthersLeave(cfg, m.store, step, t);
      }
    }
  }

  lemma ActKeeps(setup: Setup, init: State, m: Moment, step: Step, creator: string)
    requires Sound(setup.cfg) && MomentOK(setup, init, m) && Possible(setup, m, Act(step, creator))
    ensures MomentOK(setup, init, NextMoment(setup, m, Act(step, creator)))
  {
    var m' := NextMoment(setup, m, Act(step, creator));
    MediaStore.StepKeeps(setup.cfg, init, m.store, step);
    StepInserts(setup, m, step, creator);
    CoversAfter(m, m', Inserted(setup, m, step, creator));
    PassedAfter(setup.cfg, m, step, m');
    PutsOwnedAfter(setup, m, step, m');
  }

  lemma EventKeeps(setup: Setup, init: State, m: Moment, e: Event)
    requires Sound(setup.cfg) && MomentOK(setup, init, m) && Possible(setup, m, e)
    ensures MomentOK(setup, init, NextMoment(setup, m, e))
  {
    match e
    case Act(step, creator) => ActKeeps(setup, init, m, step, creator);
    case _ =>
  }

  // --- every history is a run of Quota --------------------------------------------------------------------

  /** The upload a passed client stands for. */
  function PassOf(setup: Setup, s: State, t: int): Quota.Pass {
    if t in s.clients && (s.clients[t].Sealed? || s.clients[t].InPlace?)
    then Quota.Pass(setup.userOf(t), |s.clients[t].body|,
                    if s.clients[t].job.Put? then Some(s.clients[t].job.mediaID) else None)
    else Quota.Pass("", 0, None)
  }

  function Passes(setup: Setup, m: Moment): seq<Quota.Pass> {
    seq(|m.book.passed|, i requires 0 <= i < |m.book.passed| => PassOf(setup, m.store, m.book.passed[i]))
  }

  /** The moment as Quota sees it: the rows of the store, and the uploads between check and row. */
  function Abstract(setup: Setup, m: Moment): Quota.State {
    Quota.State(m.book.now, Rows(m), Passes(setup, m))
  }

  /** An event is one step of Quota, or none if it has to do with neither. */
  function Label(setup: Setup, m: Moment, e: Event): Quota.Step
    requires Possible(setup, m, e)
  {
    match e
    case Wait(ms) => Quota.Tick(ms)
    case Pass(t) => Quota.Check(PassOf(setup, m.store, t))
    case Act(Create(id), creator) => Quota.Reserve(id, creator)
    case Act(step, creator) =>
      if !Leaves(step) || step.t !in m.book.passed then Quota.Tick(0)
      else
        var k, new_ := IndexOf(m.book.passed, step.t), Inserted(setup, m, step, creator);
        if new_.Some? then Quota.Write(k, new_.value.0)
        else if WinsRow(m.store, step) then Quota.Complete(k)
        else Quota.Drop(k)
  }

  /** CompleteLocalMedia finds the row without a length. */
  predicate WinsRow(s: State, step: Step) {
    && step.Complete? && !step.dbFails && step.t in s.clients && s.clients[step.t].Sealed?
    && var id := s.clients[step.t].job.mediaID; id in s.local && s.local[id].length.None?
  }

  lemma {:induction false} CompletedAt(rows: seq<Row>, id: string, length: nat)
    requires Quota.PrimaryKey(rows)
    ensures var done := Quota.Completed(rows, id, length);
            && |done| == |rows|
            && forall i :: 0 <= i < |rows| ==>
                 done[i] == if rows[i].mediaID == id && rows[i].length.None? then rows[i].(length := Some(length))
                            else rows[i]
  {
    if rows != [] {
      var rest := rows[1..];
      assert Quota.PrimaryKey(rest);
      CompletedAt(rest, id, length);
    }
  }

  lemma RowsAreKeyed(m: Moment)
    requires Covers(m)
    ensures Quota.PrimaryKey(Rows(m))
    ensures forall id :: id in m.store.local <==> Quota.Has(Rows(m), id)
    ensures forall id, user :: IsOwner(m, id, user) ==> Quota.Owns(Rows(m), id, user)
  {
    forall id | id in m.store.local
      ensures exists i :: 0 <= i < |Rows(m)| && Rows(m)[i].mediaID == id && Rows(m)[i].user == m.book.accounts[id].user
    {
      var i :| 0 <= i < |m.book.order| && m.book.order[i] == id;
      assert Rows(m)[i] == RowOf(m, id);
    }
    forall id | Quota.Has(Rows(m), id) ensures id in m.store.local {
      var i :| 0 <= i < |Rows(m)| && Rows(m)[i].mediaID == id;
      assert m.book.order[i] in m.book.accounts;
    }
  }

  /** The rows the check reads are the store's, each once, with its owner, its date and its length. */
  lemma RowsAreTheStores(m: Moment, id: string)
    requires Covers(m) && id in m.store.local
    ensures exists i :: 0 <= i < |Rows(m)| && Rows(m)[i].mediaID == id
                        && (forall j :: 0 <= j < |Rows(m)| && j != i ==> Rows(m)[j].mediaID != id)
                        && id in m.book.accounts && Rows(m)[i].user == m.book.accounts[id].user
                        && Rows(m)[i].createdTS == m.book.accounts[id].createdTS
                        && Rows(m)[i].length == m.store.local[id].length
  {
    RowsAreKeyed(m);
    var i :| 0 <= i < |m.book.order| && m.book.order[i] == id;
    assert Rows(m)[i] == RowOf(m, id);
  }

  /** A step that leaves the rows and the uploads between check and row alone. */
  lemma SameRows(m: Moment, m': Moment)
    requires m'.store.local == m.store.local && m'.book.accounts == m.book.accounts && m'.book.order == m.book.order
    ensures Rows(m') == Rows(m)
  {
  }

  /** One more row, at the end. */
  lemma RowsAppend(m: Moment, m': Moment, id: string, account: Account)
    requires Covers(m) && id !in m.store.local && id in m'.store.local
    requires m'.book.accounts == m.book.accounts[id := account] && m'.book.order == m.book.order + [id]
    requires forall other :: other in m.store.local ==>
                               other in m'.store.local && m'.store.local[other] == m.store.local[other]
    ensures Rows(m') == Rows(m) + [Row(id, account.user, account.createdTS, m'.store.local[id].length)]
  {
    forall i | 0 <= i < |m.book.order| ensures Rows(m')[i] == Rows(m)[i] {
      assert m.book.order[i] in m.book.accounts;
    }
  }

  lemma RowCompletes(m: Moment, m': Moment, id: string, row: LocalRow, other: string)
    requires other in m.book.accounts && m.book.accounts.Keys == m.store.local.Keys
    requires id in m.store.local && m.store.local[id].length.None?
    requires m'.store.local == m.store.local[id := row] && m'.book.accounts == m.book.accounts
    ensures RowOf(m', other) == if other == id then RowOf(m, other).(length := row.length) else RowOf(m, other)
    ensures RowOf(m, other).mediaID == other && RowOf(m, id).length.None?
  {
  }

  /** The row of id gets its length. */
  lemma RowsComplete(m: Moment, m': Moment, id: string, row: LocalRow)
    requires Covers(m) && id in m.store.local && m.store.local[id].length.None? && row.length.Some?
    requires m'.store.local == m.store.local[id := row]
    requires m'.book.accounts == m.book.accounts && m'.book.order == m.book.order
    ensures Rows(m') == Quota.Completed(Rows(m), id, row.length.value)
  {
    var rows, rows' := Rows(m), Rows(m');
    RowsAreKeyed(m);
    CompletedAt(rows, id, row.length.value);
    forall i | 0 <= i < |m.book.order| ensures rows'[i] == Quota.Completed(rows, id, row.length.value)[i] {
      RowCompletes(m, m', id, row, m.book.order[i]);
    }
  }

  /** Whoever stays between check and row stands for the same upload. */
  lemma SamePasses(setup: Setup, m: Moment, step: Step, m': Moment)
    requires Enabled(setup.cfg, m.store, step) && Once(m.book.passed)
    requires forall t :: t in m.book.passed ==> PassedOK(m, t)
    requires m'.store == MediaStore.Next(setup.cfg, m.store, step)
    requires m'.book.passed == if Leaves(step) then Minus(m.book.passed, step.t) else m.book.passed
    ensures Passes(setup, m') == if Leaves(step) && step.t in m.book.passed
                                 then Quota.Without(Passes(setup, m), IndexOf(m.book.passed, step.t))
                                 else Passes(setup, m)
  {
    forall t | t in m.book.passed && !(Leaves(step) && t == step.t)
      ensures PassOf(setup, m'.store, t) == PassOf(setup, m.store, t)
    {
      SamePass(setup, m, step, m', t);
    }
    if Leaves(step) && step.t in m.book.passed {
      PassesMinus(setup, m, m', step.t);
    }
  }

  lemma SkipsOne<T>(s: seq<T>, k: nat, i: nat)
    requires k < |s| && i < |s| - 1
    ensures (s[..k] + s[k + 1..])[i] == s[if i < k then i else i + 1]
  {
  }

  lemma PassesMinus(setup: Setup, m: Moment, m': Moment, t: int)
    requires Once(m.book.passed) && t in m.book.passed && m'.book.passed == Minus(m.book.passed, t)
    requires forall u :: u in m.book.passed && u != t ==> PassOf(setup, m'.store, u) == PassOf(setup, m.store, u)
    ensures Passes(setup, m') == Quota.Without(Passes(setup, m), IndexOf(m.book.passed, t))
  {
    var k, was, passes := IndexOf(m.book.passed, t), Passes(setup, m), Passes(setup, m');
    forall i | 0 <= i < |passes| ensures passes[i] == Quota.Without(was, k)[i] {
      var j := if i < k then i else i + 1;
      SkipsOne(m.book.passed, k, i);
      SkipsOne(was, k, i);
      assert m.book.passed[j] in m.book.passed && m.book.passed[j] != t;
    }
  }

  lemma SamePass(setup: Setup, m: Moment, step: Step, m': Moment, t: int)
    requires Enabled(setup.cfg, m.store, step) && PassedOK(m, t) && !(Leaves(step) && t == step.t)
    requires m'.store == MediaStore.Next(setup.cfg, m.store, step)
    ensures PassOf(setup, m'.store, t) == PassOf(setup, m.store, t)
  {
    if IsBy(step, t) {
      RenamedOK(setup.cfg, m, step, m');
    } else {
      OthersLeave(setup.cfg, m.store, step, t);
    }
  }

  /** The event is the step of Quota that Label says. */
  ghost predicate Refines(setup: Setup, m: Moment, e: Event)
    requires Possible(setup, m, e)
  {
    Quota.Next(setup.limits, Abstract(setup, m), Label(setup, m, e), Abstract(setup, NextMoment(setup, m, e)))
  }

  lemma PassRefines(setup: Setup, init: State, m: Moment, t: int)
    requires MomentOK(setup, init, m) && Possible(setup, m, Pass(t))
    ensures Refines(setup, m, Pass(t))
  {
    var m', pass := NextMoment(setup, m, Pass(t)), PassOf(setup, m.store, t);
    SameRows(m, m');
    assert Passes(setup, m') == Passes(setup, m) + [pass];
    PassOwns(setup, init, m, t);
  }

  lemma PassOwns(setup: Setup, init: State, m: Moment, t: int)
    requires MomentOK(setup, init, m) && t in m.store.clients && m.store.clients[t].Sealed?
    ensures var pass := PassOf(setup, m.store, t);
            pass.reserved.Some? ==> Quota.Owns(Rows(m), pass.reserved.value, pass.user)
  {
    RowsAreKeyed(m);
    assert JobOf(m.store, t) == Some(m.store.clients[t].job);
  }

  lemma CreateRefines(setup: Setup, init: State, m: Moment, id: string, creator: string)
    requires MomentOK(setup, init, m) && Possible(setup, m, Act(Create(id), creator))
    ensures Refines(setup, m, Act(Create(id), creator))
  {
    var e := Act(Create(id), creator);
    RowsAreKeyed(m);
    RowsAppend(m, NextMoment(setup, m, e), id, Account(creator, m.book.now));
    SamePasses(setup, m, Create(id), NextMoment(setup, m, e));
  }

  /** StoreLocalMedia writes the row of an upload that passed. */
  lemma InsertRefines(setup: Setup, init: State, m: Moment, t: int, creator: string)
    requires MomentOK(setup, init, m) && Possible(setup, m, Act(Insert(t, false), creator))
    requires Inserted(setup, m, Insert(t, false), creator).Some?
    ensures Refines(setup, m, Act(Insert(t, false), creator))
  {
    var step := Insert(t, false);
    var m' := NextMoment(setup, m, Act(step, creator));
    var (id, account) := Inserted(setup, m, step, creator).value;
    assert PassedOK(m, t);
    SamePasses(setup, m, step, m');
    RowsAreKeyed(m);
    InsertedRow(setup.cfg, m.store, t);
    RowsAppend(m, m', id, account);
  }

  lemma InsertedRow(cfg: Config, s: State, t: int)
    requires t in s.clients && s.clients[t].InPlace? && s.clients[t].job.Sync? && s.clients[t].job.mediaID !in s.local
    ensures var c := s.clients[t];
            DoInsert(cfg, s, t, false).local == s.local[c.job.mediaID := LocalRow(Some(|c.body|), cfg.hash(c.body))]
  {
  }

  /** CompleteLocalMedia completes the row of one. */
  lemma CompleteRefines(setup: Setup, init: State, m: Moment, t: int, creator: string)
    requires MomentOK(setup, init, m) && Possible(setup, m, Act(Complete(t, false), creator))
    requires WinsRow(m.store, Complete(t, false))
    ensures Refines(setup, m, Act(Complete(t, false), creator))
  {
    var step, c := Complete(t, false), m.store.clients[t];
    var m' := NextMoment(setup, m, Act(step, creator));
    assert PassedOK(m, t);
    SamePasses(setup, m, step, m');
    RowsComplete(m, m', c.job.mediaID, LocalRow(Some(|c.body|), setup.cfg.hash(c.body)));
  }

  /** Whatever else a client does writes no row, and at most gives its pass up. */
  lemma OtherRefines(setup: Setup, init: State, m: Moment, step: Step, creator: string)
    requires MomentOK(setup, init, m) && Possible(setup, m, Act(step, creator)) && !step.Create?
    requires Inserted(setup, m, step, creator).None? && !WinsRow(m.store, step)
    ensures Refines(setup, m, Act(step, creator))
  {
    var m' := NextMoment(setup, m, Act(step, creator));
    SamePasses(setup, m, step, m');
    WritesNoRow(setup, m, step, creator);
    SameRows(m, m');
  }

  lemma WritesNoRow(setup: Setup, m: Moment, step: Step, creator: string)
    requires Enabled(setup.cfg, m.store, step) && !step.Create?
    requires Inserted(setup, m, step, creator).None? && !WinsRow(m.store, step)
    ensures MediaStore.Next(setup.cfg, m.store, step).local == m.store.local
  {
    if !step.Insert? && !step.Complete? {
      RowsStay(setup.cfg, m.store, step);
    }
  }

  lemma EventRefines(setup: Setup, init: State, m: Moment, e: Event)
    requires MomentOK(setup, init, m) && Possible(setup, m, e)
    ensures Refines(setup, m, e)
  {
    match e
    case Wait(ms) =>
      SameRows(m, NextMoment(setup, m, e));
      assert Passes(setup, NextMoment(setup, m, e)) == Passes(setup, m);
    case Pass(t) => PassRefines(setup, init, m, t);
    case Act(step, creator) =>
      if step.Create? {
        CreateRefines(setup, init, m, step.mediaID, creator);
      } else if Inserted(setup, m, step, creator).Some? {
        InsertRefines(setup, init, m, step.t, creator);
      } else if WinsRow(m.store, step) {
        CompleteRefines(setup, init, m, step.t, creator);
      } else {
        OtherRefines(setup, init, m, step, creator);
      }
  }

  // --- whole histories ---------------------------------------------------------------------------------------

  /** Before a history nobody is at work, and every row has its account. */
  ghost predicate Opening(setup: Setup, m: Moment) {
    MediaStore.Initial(setup.cfg, m.store) && Covers(m) && m.book.passed == []
  }

  ghost predicate Happens(setup: Setup, m: Moment, e: Event, m': Moment) {
    Possible(setup, m, e) && m' == NextMoment(setup, m, e)
  }

  ghost predicate IsHistory(setup: Setup, moments: seq<Moment>, events: seq<Event>) {
    Runs.IsRun(m => Opening(setup, m), (m, e, m') => Happens(setup, m, e, m'), moments, events)
  }

  /** A history without what is only in the book. */
  function StepsOf(events: seq<Event>): seq<Step> {
    if events == [] then []
    else
      var before, last := StepsOf(events[..|events| - 1]), events[|events| - 1];
      if last.Act? then before + [last.step] else before
  }

  function StatesOf(moments: seq<Moment>, events: seq<Event>): seq<State>
    requires |moments| == |events| + 1
  {
    if events == [] then [moments[0].store]
    else
      var n := |events| - 1;
      var before := StatesOf(moments[..n + 1], events[..n]);
      if events[n].Act? then before + [moments[n + 1].store] else before
  }

  /** The store goes through a run of the protocol, to the same end. */
  lemma {:induction false} HistoryIsRun(setup: Setup, moments: seq<Moment>, events: seq<Event>)
    requires IsHistory(setup, moments, events)
    ensures var states, steps := StatesOf(moments, events), StepsOf(events);
            && MediaStore.IsRun(setup.cfg, states, steps)
            && states[0] == moments[0].store && states[|states| - 1] == moments[|events|].store
  {
    if events != [] {
      var n := |events| - 1;
      HistoryPrefix(setup, moments, events);
      HistoryIsRun(setup, moments[..n + 1], events[..n]);
      if events[n].Act? {
        RunExtends(setup.cfg, StatesOf(moments[..n + 1], events[..n]), StepsOf(events[..n]), events[n].step,
                   moments[n + 1].store);
      }
    }
  }

  lemma HistoryPrefix(setup: Setup, moments: seq<Moment>, events: seq<Event>)
    requires IsHistory(setup, moments, events) && events != []
    ensures var n := |events| - 1;
            && IsHistory(setup, moments[..n + 1], events[..n])
            && (events[n].Act? ==> Steps(setup.cfg, moments[n].store, events[n].step, moments[n + 1].store))
            && (!events[n].Act? ==> moments[n + 1].store == moments[n].store)
  {
    var n := |events| - 1;
    assert forall i :: 0 <= i < n ==> moments[..n + 1][i] == moments[i] && events[..n][i] == events[i];
    assert Happens(setup, moments[n], events[n], moments[n + 1]);
  }

  lemma RunExtends(cfg: Config, states: seq<State>, steps: seq<Step>, step: Step, s': State)
    requires MediaStore.IsRun(cfg, states, steps) && Steps(cfg, states[|states| - 1], step, s')
    ensures MediaStore.IsRun(cfg, states + [s'], steps + [step])
  {
    var states', steps' := states + [s'], steps + [step];
    forall i {:trigger steps'[i]} | 0 <= i < |steps'| ensures Steps(cfg, states'[i], steps'[i], states'[i + 1]) {
      assert i < |steps| ==> Steps(cfg, states[i], steps[i], states[i + 1]);
    }
  }

  lemma HistoryOK(setup: Setup, moments: seq<Moment>, events: seq<Event>, i: nat)
    requires Sound(setup.cfg) && IsHistory(setup, moments, events) && i < |moments|
    ensures MomentOK(setup, moments[0].store, moments[i])
  {
    var init := moments[0].store;
    MediaStore.InitialInv(setup.cfg, init);
    forall m, e, m' | MomentOK(setup, init, m) && Happens(setup, m, e, m') ensures MomentOK(setup, init, m') {
      EventKeeps(setup, init, m, e);
    }
    Runs.Invariant(m => Opening(setup, m), (m, e, m') => Happens(setup, m, e, m'), m => MomentOK(setup, init, m),
                   moments, events, i);
  }

  /** Rows only come into being, a row with a length never changes, and no account ever does. */
  ghost predicate Keeps(m: Moment, m': Moment) {
    && Grows(m.store, m'.store)
    && forall id :: id in m.book.accounts ==> id in m'.book.accounts && m'.book.accounts[id] == m.book.accounts[id]
  }

  lemma EventGrows(setup: Setup, init: State, m: Moment, e: Event)
    requires MomentOK(setup, init, m) && Possible(setup, m, e)
    ensures Keeps(m, NextMoment(setup, m, e))
  {
    if e.Act? {
      StepGrows(setup.cfg, m.store, e.step);
      StepInserts(setup, m, e.step, e.creator);
    }
  }

  lemma HistoryKeeps(setup: Setup, moments: seq<Moment>, events: seq<Event>, i: nat, j: nat)
    requires Sound(setup.cfg) && IsHistory(setup, moments, events) && i <= j < |moments|
    ensures Keeps(moments[i], moments[j])
  {
    var init := moments[0].store;
    MediaStore.InitialInv(setup.cfg, init);
    forall m, e, m' | MomentOK(setup, init, m) && Happens(setup, m, e, m')
      ensures MomentOK(setup, init, m') && Keeps(m, m')
    {
      EventKeeps(setup, init, m, e);
      EventGrows(setup, init, m, e);
    }
    Runs.Monotone(m => Opening(setup, m), (m, e, m') => Happens(setup, m, e, m'), m => MomentOK(setup, init, m),
                  (m, m') => Keeps(m, m'), moments, events, i, j);
  }

  /** Remote media stays available, by the same row, and what is not available never becomes so by its row. */
  ghost predicate KeepsFile(cfg: Config, key: (string, string), m: Moment, m': Moment) {
    Described(cfg, m.store, key) ==>
      && Described(cfg, m'.store, key) && m'.store.remote[key] == m.store.remote[key]
      && (Available(cfg, m.store, key) <==> Available(cfg, m'.store, key))
  }

  lemma EventKeepsFile(setup: Setup, init: State, m: Moment, e: Event, key: (string, string))
    requires Sound(setup.cfg) && MomentOK(setup, init, m) && Possible(setup, m, e)
    ensures KeepsFile(setup.cfg, key, m, NextMoment(setup, m, e))
  {
    if e.Act? && Described(setup.cfg, m.store, key) {
      StepKeepsFile(setup.cfg, init, m.store, e.step, key);
    }
  }

  lemma FileStays(setup: Setup, moments: seq<Moment>, events: seq<Event>, i: nat, j: nat, key: (string, string))
    requires Sound(setup.cfg) && IsHistory(setup, moments, events) && i <= j < |moments|
    ensures KeepsFile(setup.cfg, key, moments[i], moments[j])
  {
    var init := moments[0].store;
    MediaStore.InitialInv(setup.cfg, init);
    forall m, e, m' | MomentOK(setup, init, m) && Happens(setup, m, e, m')
      ensures MomentOK(setup, init, m') && KeepsFile(setup.cfg, key, m, m')
    {
      EventKeeps(setup, init, m, e);
      EventKeepsFile(setup, init, m, e, key);
    }
    Runs.Monotone(m => Opening(setup, m), (m, e, m') => Happens(setup, m, e, m'), m => MomentOK(setup, init, m),
                  (m, m') => KeepsFile(setup.cfg, key, m, m'), moments, events, i, j);
  }

  /** With the longest window first, the check lets an upload pass exactly if it breaches no limit over the rows. */
  lemma AllowsExactly(setup: Setup, m: Moment, user: string, length: nat)
    requires LongestFirst(setup.limits)
    ensures Allows(setup, m, user, length) <==>
            forall l :: l in setup.limits ==> Used(m, user, l) + length <= l.maxBytes
  {
    EvaluateOverRows(setup.limits, length, m.book.now, Rows(m), user);
  }

  /** Bytes of the user in the limit's window, by the rows of the store. */
  function Used(m: Moment, user: string, l: Limit): nat {
    UploadedSince(Rows(m), user, m.book.now - l.window)
  }

  /** How many of the user's uploads stand between limit check and row. */
  function Overlapping(setup: Setup, m: Moment, user: string): nat {
    Quota.Overlap(Passes(setup, m), user)
  }

  function Moments(setup: Setup, moments: seq<Moment>): seq<Quota.State> {
    seq(|moments|, i requires 0 <= i < |moments| => Abstract(setup, moments[i]))
  }

  function LabelOf(setup: Setup, m: Moment, e: Event): Quota.Step {
    if Possible(setup, m, e) then Label(setup, m, e) else Quota.Tick(0)
  }

  function Labels(setup: Setup, moments: seq<Moment>, events: seq<Event>): seq<Quota.Step>
    requires |moments| == |events| + 1
  {
    seq(|events|, i requires 0 <= i < |events| => LabelOf(setup, moments[i], events[i]))
  }

  lemma HistoryStep(setup: Setup, moments: seq<Moment>, events: seq<Event>, i: nat)
    requires Sound(setup.cfg) && IsHistory(setup, moments, events) && i < |events|
    ensures Quota.Next(setup.limits, Abstract(setup, moments[i]), LabelOf(setup, moments[i], events[i]),
                       Abstract(setup, moments[i + 1]))
  {
    assert Happens(setup, moments[i], events[i], moments[i + 1]);
    HistoryOK(setup, moments, events, i);
    EventRefines(setup, moments[0].store, moments[i], events[i]);
  }

  /** The user starts within every limit, and never has more than `most` uploads between check and row. */
  ghost predicate Serialised(setup: Setup, moments: seq<Moment>, user: string, most: nat) {
    && moments != [] && (forall l :: l in setup.limits ==> Used(moments[0], user, l) <= l.maxBytes)
    && (forall i :: 0 <= i < |moments| ==> Overlapping(setup, moments[i], user) <= most)
  }

  lemma UsedInWindow(setup: Setup, m: Moment, user: string, l: Limit)
    ensures Quota.InWindow(Abstract(setup, m), user, l) == Used(m, user, l)
  {
  }

  lemma OpensQuota(setup: Setup, user: string, m: Moment)
    requires Covers(m) && m.book.passed == [] && forall l :: l in setup.limits ==> Used(m, user, l) <= l.maxBytes
    ensures Quota.Initial(setup.limits, user, Abstract(setup, m))
  {
    RowsAreKeyed(m);
    forall l | l in setup.limits ensures Quota.InWindow(Abstract(setup, m), user, l) <= l.maxBytes {
      UsedInWindow(setup, m, user, l);
    }
  }

  /** Every history is a run of Quota over the rows of the store. */
  lemma HistoryIsQuotaRun(setup: Setup, user: string, most: nat, moments: seq<Moment>, events: seq<Event>)
    requires Sound(setup.cfg) && IsHistory(setup, moments, events) && Serialised(setup, moments, user, most)
    ensures Quota.IsRun(setup.limits, user, most, Moments(setup, moments), Labels(setup, moments, events))
  {
    var states, steps := Moments(setup, moments), Labels(setup, moments, events);
    OpensQuota(setup, user, moments[0]);
    forall i {:trigger steps[i]} | 0 <= i < |steps|
      ensures Quota.Next(setup.limits, states[i], steps[i], states[i + 1])
           && Quota.Overlap(states[i + 1].passed, user) <= most
    {
      HistoryStep(setup, moments, events, i);
      assert Overlapping(setup, moments[i + 1], user) <= most;
    }
  }

  /**
   So over every history of the store, with the limit check reading the store's own rows, the bytes
   in the user's window stay within MaxBytes times the number of that user's uploads that overlap
   between check and row; and within MaxBytes if they never do.
   */
  lemma StoreKeepsWindows(setup: Setup, user: string, most: nat, moments: seq<Moment>, events: seq<Event>,
                          i: nat, l: Limit)
    requires Sound(setup.cfg) && LongestFirst(setup.limits) && most > 0 && IsHistory(setup, moments, events)
    requires Serialised(setup, moments, user, most) && i < |moments| && l in setup.limits
    ensures Used(moments[i], user, l) <= most * l.maxBytes
  {
    HistoryIsQuotaRun(setup, user, most, moments, events);
    var states, steps := Moments(setup, moments), Labels(setup, moments, events);
    assert states[i] == Abstract(setup, moments[i]);
    Quota.OverlapBoundsTheWindow(setup.limits, user, most, states, steps, i, l);
    UsedInWindow(setup, moments[i], user, l);
  }
}
