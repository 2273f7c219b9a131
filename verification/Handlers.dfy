/**
 The handlers of store.go and upload.go as the code writes them, one effect after another, over a
 file system and tables that other clients change in between. Every execution of a handler is a
 part of a run of the protocol, so what holds of every run holds of it.
 */
module Handlers {
  import opened Common
  import opened MediaPathNames
  import opened MediaStore
  import opened UploadLimits
  import opened UploadRuns
  import Copying = Fetch

  /** The i-th moment is the opening one, over a sound naming of files, or follows from the one before. */
  ghost predicate MomentAt(setup: Setup, moments: seq<Moment>, events: seq<Event>, i: nat)
    requires i < |moments| == |events| + 1
  {
    if i == 0 then Sound(setup.cfg) && Opening(setup, moments[0])
    else Happens(setup, moments[i - 1], events[i - 1], moments[i])
  }

  /** What a world records of itself: a history of the store and its book. */
  ghost predicate Recorded(setup: Setup, moments: seq<Moment>, events: seq<Event>) {
    |moments| == |events| + 1 && forall i: nat :: i < |moments| ==> MomentAt(setup, moments, events, i)
  }

  lemma RecordedIsHistory(setup: Setup, moments: seq<Moment>, events: seq<Event>)
    requires Recorded(setup, moments, events)
    ensures Sound(setup.cfg) && IsHistory(setup, moments, events)
  {
    assert MomentAt(setup, moments, events, 0);
    forall i: nat | i < |events| ensures Happens(setup, moments[i], events[i], moments[i + 1]) {
      assert MomentAt(setup, moments, events, i + 1);
    }
  }

  lemma RecordExtends(setup: Setup, moments: seq<Moment>, events: seq<Event>, e: Event)
    requires Recorded(setup, moments, events) && Possible(setup, moments[|moments| - 1], e)
    ensures Recorded(setup, moments + [NextMoment(setup, moments[|moments| - 1], e)], events + [e])
  {
    var moments', events' := moments + [NextMoment(setup, moments[|moments| - 1], e)], events + [e];
    forall i: nat | i < |moments'| ensures MomentAt(setup, moments', events', i) {
      assert i < |moments| ==> MomentAt(setup, moments, events, i);
    }
  }

  /** What holds of every moment of a history holds of the last one recorded. */
  lemma LastIsOK(setup: Setup, moments: seq<Moment>, events: seq<Event>)
    requires Recorded(setup, moments, events)
    ensures MomentOK(setup, moments[0].store, moments[|moments| - 1])
  {
    RecordedIsHistory(setup, moments, events);
    HistoryOK(setup, moments, events, |moments| - 1);
  }

  /** The media ID is known and the user's. */
  predicate IsReserved(m: Moment, mediaID: string, user: string) {
    mediaID in m.store.local && IsOwner(m, mediaID, user)
  }

  /** Rows and accounts that were there at the end of a shorter record are there still. */
  lemma StillKept(setup: Setup, before: seq<Moment>, moments: seq<Moment>, events: seq<Event>)
    requires Recorded(setup, moments, events) && before != [] && before <= moments
    ensures Keeps(before[|before| - 1], moments[|moments| - 1])
  {
    RecordedIsHistory(setup, moments, events);
    HistoryKeeps(setup, moments, events, |before| - 1, |moments| - 1);
    assert moments[|before| - 1] == before[|before| - 1];
  }

  lemma RemoteRowStays(setup: Setup, before: seq<Moment>, moments: seq<Moment>, events: seq<Event>,
                       key: (string, string))
    requires Recorded(setup, moments, events) && before != [] && before <= moments
    requires key in before[|before| - 1].store.remote
    ensures key in moments[|moments| - 1].store.remote
  {
    StillKept(setup, before, moments, events);
  }

  /** A media ID keeps its owner, and a completed row is not completed again. */
  lemma LocalRowStays(setup: Setup, before: seq<Moment>, moments: seq<Moment>, events: seq<Event>, id: string,
                      user: string)
    requires Recorded(setup, moments, events) && before != [] && before <= moments
    requires IsReserved(before[|before| - 1], id, user)
    ensures var m, m' := before[|before| - 1], moments[|moments| - 1];
            IsReserved(m', id, user) && (m.store.local[id].length.Some? ==> m'.store.local[id] == m.store.local[id])
  {
    StillKept(setup, before, moments, events);
  }

  lemma CompletedStays(setup: Setup, before: seq<Moment>, moments: seq<Moment>, events: seq<Event>, id: string)
    requires Recorded(setup, moments, events) && before != [] && before <= moments
    ensures var s, s' := before[|before| - 1].store, moments[|moments| - 1].store;
            id in s.local && s.local[id].length.Some? ==> id in s'.local && s'.local[id] == s.local[id]
  {
    StillKept(setup, before, moments, events);
  }

  /** The temp file of a client that is about to rename it is there. */
  lemma TempIsThere(setup: Setup, moments: seq<Moment>, events: seq<Event>, t: int)
    requires Recorded(setup, moments, events)
    requires var s := moments[|moments| - 1].store; t in s.clients && (s.clients[t].Sealed? || s.clients[t].Won?)
    ensures var s, c := moments[|moments| - 1].store, moments[|moments| - 1].store.clients[t];
            && MediaStore.Holds(setup.cfg, s, c.tmp, c.body)
            && (c.Won? ==>
                  && c.job.mediaID in s.local
                  && s.local[c.job.mediaID] == LocalRow(Some(|c.body|), setup.cfg.hash(c.body)))
  {
    LastIsOK(setup, moments, events);
    var s := moments[|moments| - 1].store;
    assert ClientOK(setup.cfg, s, s.clients[t]);
  }

  /** A client that is still copying has not passed the limit check. */
  lemma NotPassedYet(setup: Setup, moments: seq<Moment>, events: seq<Event>, t: int)
    requires Recorded(setup, moments, events)
    requires var s := moments[|moments| - 1].store; t in s.clients && s.clients[t].Copying?
    ensures t !in moments[|moments| - 1].book.passed
  {
    LastIsOK(setup, moments, events);
    assert !PassedOK(moments[|moments| - 1], t);
  }

  /** While t was still at work the media ID already had a row. */
  ghost predicate Beaten(moments: seq<Moment>, t: int, key: (string, string)) {
    exists k :: 0 <= k < |moments| && HadRow(moments[k].store, t, key)
  }

  predicate HadRow(s: State, t: int, key: (string, string)) {
    t in s.clients && !s.clients[t].Finished? && key in s.remote
  }

  lemma StillBeaten(before: seq<Moment>, moments: seq<Moment>, t: int, key: (string, string))
    requires before <= moments && Beaten(before, t, key)
    ensures Beaten(moments, t, key)
  {
    var k :| 0 <= k < |before| && HadRow(before[k].store, t, key);
    assert moments[k] == before[k];
  }

  // --- what is drawn at random, and what may fail --------------------------------------------------

  function As(n: nat): string {
    seq(n + 5, _ => 'a')
  }

  /** Of endlessly many strings one is outside a finite set. */
  lemma Outside(f: nat -> string, s: set<string>, from: nat) returns (n: nat)
    requires forall i: nat, j: nat {:trigger f(i), f(j)} :: f(i) == f(j) ==> i == j
    ensures n >= from && f(n) !in s
    decreases s
  {
    if f(from) !in s {
      return from;
    }
    n := Outside(f, s - {f(from)}, from + 1);
    assert f(n) != f(from);
  }

  lemma DifferentAs(i: nat, j: nat)
    ensures As(i) == As(j) ==> i == j
    ensures LetterID(As(i))
  {
    assert |As(i)| == i + 5 && |As(j)| == j + 5;
  }

  /** There always is an ID to draw. */
  lemma FreshIDs(s: State)
    ensures exists id :: Fresh(s, id)
  {
    forall i: nat, j: nat {:trigger As(i), As(j)} | As(i) == As(j) ensures i == j {
      DifferentAs(i, j);
    }
    var n := Outside((n: nat) => As(n), s.used, 0);
    DifferentAs(n, n);
    ShardsArePlain(As(n));
    assert Fresh(s, As(n));
  }

  predicate IsFree(cfg: Config, s: State, job: Job, name: string) {
    WellNamed(TempOf(job, name)) && cfg.fileOf(TempOf(job, name)) !in s.files
  }

  /** And a name for a temp file. */
  lemma FreeNames(cfg: Config, s: State, job: Job)
    requires Sound(cfg)
    ensures exists name :: IsFree(cfg, s, job, name)
  {
    forall i: nat ensures WellNamed(TempOf(job, As(i))) {
      DifferentAs(i, i);
      assert forall k :: 0 <= k < |As(i)| ==> Letter(As(i)[k]) && ValidChar(As(i)[k]);
    }
    forall i: nat, j: nat {:trigger cfg.fileOf(TempOf(job, As(i))), cfg.fileOf(TempOf(job, As(j)))} |
      cfg.fileOf(TempOf(job, As(i))) == cfg.fileOf(TempOf(job, As(j)))
      ensures i == j
    {
      assert TempOf(job, As(i)) == TempOf(job, As(j));
      DifferentAs(i, j);
    }
    var n := Outside((n: nat) => cfg.fileOf(TempOf(job, As(n))), s.files.Keys, 0);
    assert IsFree(cfg, s, job, As(n));
  }

  /** How many of the first n effects fail. */
  function Failures(fails: nat -> bool, n: nat): nat {
    if n == 0 then 0 else Failures(fails, n - 1) + if fails(n - 1) then 1 else 0
  }

  /** A fault counted is an effect that failed. */
  lemma {:induction false} FaultsHappen(fails: nat -> bool, from: nat, n: nat)
    requires from <= n
    ensures Failures(fails, from) < Failures(fails, n) <==> exists k :: from <= k < n && fails(k)
    ensures Failures(fails, from) <= Failures(fails, n)
  {
    if from < n {
      FaultsHappen(fails, from, n - 1);
    }
  }

  class World {
    const cfg: Config
    const limits: seq<Limit>
    const userOf: int -> string      // whose request each client serves
    const fails: nat -> bool         // whether the n-th effect of this client will fail
    var done: nat                    // effects it has tried
    var state: State
    var book: Book
    var plan: seq<Event>             // what the other clients will try next
    ghost var moments: seq<Moment>   // the history so far
    ghost var events: seq<Event>
    ghost var faults: nat            // how many of them failed

    function Rules(): Setup {
      Setup(cfg, limits, userOf)
    }

    function Now(): Moment
      reads this
    {
      Moment(state, book)
    }

    ghost predicate Valid()
      reads this
    {
      && Recorded(Rules(), moments, events) && moments[|moments| - 1] == Now()
      && faults == Failures(fails, done)
    }

    /** Client t is at c. */
    predicate Is(t: int, c: Client)
      reads this
    {
      Running(state, t) && state.clients[t] == c
    }

    predicate Absent(t: int)
      reads this
    {
      t !in state.clients && t !in state.stopped
    }

    method Happen(e: Event)
      requires Valid() && Possible(Rules(), Now(), e)
      modifies this`state, this`book, this`moments, this`events
      ensures Valid() && Now() == NextMoment(Rules(), old(Now()), e) && old(moments) <= moments
    {
      RecordExtends(Rules(), moments, events, e);
      var next := NextMoment(Rules(), Now(), e);
      state, book := next.store, next.book;
      moments := moments + [next];
      events := events + [e];
    }

    method Take(step: Step)
      requires Valid() && Enabled(cfg, state, step) && Permitted(Rules(), Now(), step)
      modifies this`state, this`book, this`moments, this`events
      ensures Valid() && state == Next(cfg, old(state), step) && book == Booked(Rules(), old(Now()), step, "")
      ensures old(moments) <= moments
    {
      Happen(Act(step, ""));
    }

    /** The upload of t passes the limit check. */
    method Admit(t: int, job: Job, tmp: Place, ghost body: seq<byte>)
      requires Valid() && Is(t, Sealed(job, tmp, body)) && !job.Fetch? && t !in book.passed
      requires Allows(Rules(), Now(), userOf(t), |body|)
      modifies this`state, this`book, this`moments, this`events
      ensures Valid() && Is(t, Sealed(job, tmp, body)) && t in book.passed && old(moments) <= moments
    {
      Happen(Pass(t));
    }

    /** Other clients go on for a while; t stays where it is. */
    method Others(t: int)
      requires Valid()
      modifies this
      ensures Valid() && old(moments) <= moments && faults == old(faults) && done == old(done)
      ensures (t in state.clients <==> t in old(state).clients) && (t in state.stopped <==> t in old(state).stopped)
      ensures t in state.clients ==> state.clients[t] == old(state).clients[t]
      ensures t in book.passed <==> t in old(book).passed
    {
      var n: nat :| n <= |plan|;
      for i := 0 to n
        invariant Valid() && old(moments) <= moments && plan == old(plan) && faults == old(faults) && done == old(done)
        invariant (t in state.clients <==> t in old(state).clients) && (t in state.stopped <==> t in old(state).stopped)
        invariant t in state.clients ==> state.clients[t] == old(state).clients[t]
        invariant t in book.passed <==> t in old(book).passed
      {
        if IsOthers(plan[i], t) && Possible(Rules(), Now(), plan[i]) {
          OthersPass(Rules(), Now(), plan[i], t);
          Happen(plan[i]);
        }
      }
      plan := plan[n..];
    }

    // --- effects, each at its own moment ------------------------------------------------------------

    /** Whether an effect succeeds is not this client's choice. */
    method Attempt() returns (ok: bool)
      requires Valid()
      modifies this`faults, this`done
      ensures Valid() && done == old(done) + 1 && (ok <==> !fails(old(done)))
      ensures faults == old(faults) + if ok then 0 else 1
    {
      ok := !fails(done);
      done := done + 1;
      if !ok {
        faults := faults + 1;
      }
    }

    method GetRemoteMedia(t: int, origin: string, mediaID: string) returns (r: Result<Option<RemoteRow>, ()>)
      requires Valid() && Absent(t)
      modifies this
      ensures Valid() && old(moments) <= moments && faults == old(faults) + if r.Err? then 1 else 0
      ensures r.Err? <==> fails(old(done))
      ensures match r
              case Err(_) => Is(t, Finished(Answer.Failed))
              case Ok(None) => (origin, mediaID) !in state.remote && Is(t, Choosing(origin, mediaID))
              case Ok(Some(row)) =>
                && (origin, mediaID) in state.remote && row == state.remote[(origin, mediaID)]
                && Is(t, if row.length.Some? then Statting(origin, mediaID, row) else Choosing(origin, mediaID))
    {
      Others(t);
      var ok := Attempt();
      var key := (origin, mediaID);
      r := if !ok then Err(()) else if key in state.remote then Ok(Some(state.remote[key])) else Ok(None);
      Take(BeginFetch(t, origin, mediaID, !ok));
    }

    method Stat(t: int, origin: string, mediaID: string, row: RemoteRow) returns (there: bool)
      requires Valid() && Is(t, Statting(origin, mediaID, row))
      modifies this
      ensures Valid() && old(moments) <= moments && faults == old(faults)
      ensures exists k :: |old(moments)| - 1 <= k < |moments|
                          && (there <==> cfg.fileOf(Remote(origin, row.fsid)) in moments[k].store.files)
      ensures Is(t, if there then Finished(Got(origin, mediaID, row)) else Choosing(origin, mediaID))
    {
      Others(t);
      there := cfg.fileOf(Remote(origin, row.fsid)) in state.files;
      ghost var k := |moments| - 1;
      Take(Step.Stat(t));
      assert there <==> cfg.fileOf(Remote(origin, row.fsid)) in moments[k].store.files;
    }

    /** newFilesystemID, RemoteMedia, WritablePath and MkdirAll. */
    method ChooseFile(t: int, origin: string, mediaID: string) returns (fsid: string, ok: bool)
      requires Valid() && Is(t, Choosing(origin, mediaID))
      modifies this
      ensures Valid() && old(moments) <= moments && faults >= old(faults)
      ensures if ok then ValidComponent(origin) && Is(t, Ready(Fetch(origin, mediaID, fsid)))
              else Is(t, Finished(Answer.Failed)) && (faults > old(faults) || !ValidComponent(origin))
    {
      Others(t);
      FreshIDs(state);
      fsid :| Fresh(state, fsid);
      var made := Attempt();
      ok := made && WellNamed(Remote(origin, fsid));
      Take(ChooseID(t, fsid, made));
    }

    method CreateTemp(t: int, job: Job) returns (tmp: Option<Place>)
      requires Valid() && Is(t, Ready(job))
      modifies this
      ensures Valid() && old(moments) <= moments && faults == old(faults) + if tmp.Some? then 0 else 1
      ensures Is(t, if tmp.Some? then Copying(job, tmp.value, []) else Finished(Answer.Failed))
    {
      Others(t);
      RecordedIsHistory(Rules(), moments, events);
      FreeNames(cfg, state, job);
      var name :| IsFree(cfg, state, job, name);
      var ok := Attempt();
      Take(OpenTemp(t, name, ok));
      return if ok then Some(TempOf(job, name)) else None;
    }

    method Remove(t: int, what: Place, after: After)
      requires Valid() && Is(t, Removing(what, after))
      modifies this
      ensures Valid() && old(moments) <= moments && faults == old(faults)
      ensures Is(t, match after case Answering(a) => Finished(a) case Deferring(o, m) => Rereading(o, m))
    {
      Others(t);
      Take(Step.Remove(t));
    }

    /**
     copyBody, or the same in Uploader.store. What it writes is seen by nobody else, for nobody else
     answers for the temp file, so it is one step. That the disk takes the copy is an effect like the others.
     */
    method Receive(t: int, job: Job, tmp: Place, src: Copying.Reader)
      returns (r: Result<Copying.Info, Copying.Error>, ghost content: seq<byte>)
      requires Valid() && Is(t, Copying(job, tmp, []))
      modifies this, src
      ensures Valid() && old(moments) <= moments && Is(t, Copying(job, tmp, content))
      ensures faults >= old(faults)
      ensures r == Err(Copying.FetchFailed) ==> src.breaks || faults > old(faults)
      ensures r.Ok? ==> content == old(src.left) && r.value == Copying.Info(|content|, cfg.hash(content))
                        && |content| <= cfg.maxBytes && src.left == []
      ensures r == Err(Copying.TooLarge) ==> |old(src.left)| > cfg.maxBytes
    {
      var room: nat := *;
      var enough := Attempt();
      if enough {
        room := cfg.maxBytes + 1;
      }
      var dst := new Copying.File(room);
      r := Copying.CopyBody(src, dst, cfg.maxBytes, cfg.hash);
      content := dst.content;
      Write(t, job, tmp, dst.content);
    }

    method Write(t: int, job: Job, tmp: Place, content: seq<byte>)
      requires Valid() && Is(t, Copying(job, tmp, [])) && |content| <= cfg.maxBytes + 1
      modifies this
      ensures Valid() && old(moments) <= moments && faults == old(faults) && Is(t, Copying(job, tmp, content))
    {
      Others(t);
      Take(Append(t, content));
    }

    /** Sync, Close and Chmod of what was received; whatever failed, cleanup removes the temp file. */
    method Finish(t: int, job: Job, tmp: Place, ghost body: seq<byte>, received: bool) returns (ok: bool)
      requires Valid() && Is(t, Copying(job, tmp, body)) && (received ==> |body| <= cfg.maxBytes)
      modifies this
      ensures Valid() && old(moments) <= moments && faults == old(faults) + (if received && !ok then 1 else 0)
      ensures Is(t, if ok then Sealed(job, tmp, body) else Finished(Answer.Failed))
      ensures ok ==> received && t !in book.passed
    {
      ok := received;
      if ok {
        ok := Attempt();
      }
      Others(t);
      NotPassedYet(Rules(), moments, events, t);
      Take(if received then Seal(t, ok) else BreakOff(t));
      if !ok {
        Remove(t, tmp, Answering(Answer.Failed));
      }
    }

    /** download, or Uploader.store: the body in a temp file, complete and durable, or nothing. */
    method Download(t: int, job: Job, src: Copying.Reader) returns (r: Option<(Place, Copying.Info)>)
      requires Valid() && Is(t, Ready(job))
      modifies this, src
      ensures Valid() && old(moments) <= moments && faults >= old(faults)
      ensures match r
              case None =>
                && Is(t, Finished(Answer.Failed))
                && (faults > old(faults) || src.breaks || |old(src.left)| > cfg.maxBytes)
              case Some((tmp, info)) =>
                && src.left == [] && Is(t, Sealed(job, tmp, old(src.left)))
                && info == Copying.Info(|old(src.left)|, cfg.hash(old(src.left)))
                && t !in book.passed
    {
      var tmp := CreateTemp(t, job);
      if tmp.None? {
        return None;
      }
      var copied;
      ghost var content;
      copied, content := Receive(t, job, tmp.value, src);
      assert copied.Err? ==> copied.error.FetchFailed? || copied.error.TooLarge?;
      var ok := Finish(t, job, tmp.value, content, copied.Ok?);
      return if ok then Some((tmp.value, copied.value)) else None;
    }

    /** os.Rename onto the final path, with the removal of the temp file if it fails. */
    method Install(t: int, job: Job, tmp: Place, ghost body: seq<byte>) returns (ok: bool)
      requires Valid() && ((Is(t, Sealed(job, tmp, body)) && !job.Put?) || Is(t, Won(job, tmp, body)))
      requires job.Sync? ==> t in book.passed
      modifies this
      ensures Valid() && old(moments) <= moments && faults == old(faults) + if ok then 0 else 1
      ensures Is(t, if !ok then Finished(Answer.Failed)
                    else if old(state.clients[t].Won?) then Finished(Stored(job.mediaID)) else InPlace(job, body))
      ensures ok ==> MediaStore.Holds(cfg, state, Target(job), body) && (job.Sync? ==> t in book.passed)
      ensures ok && old(state.clients[t].Won?) ==>
                job.mediaID in state.local && state.local[job.mediaID] == LocalRow(Some(|body|), cfg.hash(body))
    {
      Others(t);
      TempIsThere(Rules(), moments, events, t);
      ok := Attempt();
      Take(Rename(t, ok));
      if !ok {
        Remove(t, tmp, Answering(Answer.Failed));
      }
    }
  }

  // --- fetching remote media ----------------------------------------------------------------------------

  /** The answer names this media ID, with a row of these bytes unless another was there first. */
  ghost predicate GotRight(w: World, t: int, origin: string, mediaID: string, body: seq<byte>, a: Answer)
    reads w
  {
    && a.Got? && a == Got(origin, mediaID, a.row)
    && ((a.row.length == Some(|body|) && a.row.sha == w.cfg.hash(body)) || Beaten(w.moments, t, (origin, mediaID)))
  }

  /** At some moment since the given one the file of the row was there. */
  ghost predicate WasThere(cfg: Config, moments: seq<Moment>, since: int, origin: string, row: RemoteRow) {
    exists k :: 0 <= since <= k < |moments| && cfg.fileOf(Remote(origin, row.fsid)) in moments[k].store.files
  }

  /** Media described at the end of a shorter record is, and is available or not, at every moment since. */
  lemma StillAvailable(setup: Setup, before: seq<Moment>, moments: seq<Moment>, events: seq<Event>, k: nat,
                       key: (string, string))
    requires Recorded(setup, moments, events) && before != [] && before <= moments && |before| - 1 <= k < |moments|
    requires Described(setup.cfg, before[|before| - 1].store, key)
    ensures Described(setup.cfg, moments[k].store, key)
    ensures Available(setup.cfg, moments[k].store, key) <==> Available(setup.cfg, before[|before| - 1].store, key)
    ensures moments[k].store.remote[key] == before[|before| - 1].store.remote[key]
  {
    RecordedIsHistory(setup, moments, events);
    FileStays(setup, moments, events, |before| - 1, k, key);
    assert moments[|before| - 1] == before[|before| - 1];
  }

  /** A client's answer is the row in the table, and its file is intact unless it was broken at the start. */
  lemma AnswerIsTheRow(setup: Setup, moments: seq<Moment>, events: seq<Event>, t: int, origin: string, mediaID: string,
                       row: RemoteRow)
    requires Recorded(setup, moments, events) && t in moments[|moments| - 1].store.clients
    requires moments[|moments| - 1].store.clients[t] == Finished(Got(origin, mediaID, row))
    ensures var (s, init, key) := (moments[|moments| - 1].store, moments[0].store, (origin, mediaID));
            && key in s.remote && s.remote[key] == row
            && (key !in init.remote || IntactRemote(setup.cfg, init, key) ==> IntactRemote(setup.cfg, s, key))
  {
    RecordedIsHistory(setup, moments, events);
    HistoryIsRun(setup, moments, events);
    var states, steps := StatesOf(moments, events), StepsOf(events);
    FetchersAgree(setup.cfg, states, steps, |states| - 1, |states| - 1, t, t, origin, mediaID, row, row);
  }

  /**
   FetchAndStore: the file in place, then the row; a loser removes its file and answers with the
   winner's row. Media that is available is answered from the store and nothing is downloaded. Without
   a fault, a valid server name, an unbroken connection and a body within the limit always succeed, and
   the answer is a row of those bytes unless another was there first. A row whose file is missing is not
   mended: the download loses to it, and it is the answer.
   */
  method FetchAndStore(w: World, t: int, origin: string, mediaID: string, src: Copying.Reader) returns (r: Answer)
    requires w.Valid() && w.Absent(t)
    modifies w, src
    ensures w.Valid() && old(w.moments) <= w.moments
    ensures w.Is(t, Finished(r)) && (r.Got? || r.Failed?)
    ensures Available(w.cfg, old(w.state), (origin, mediaID)) ==>
              && src.left == old(src.left)
              && r == if w.fails(old(w.done)) then Answer.Failed
                      else Got(origin, mediaID, old(w.state).remote[(origin, mediaID)])
    ensures r.Failed? ==>
              w.faults > old(w.faults) || !ValidComponent(origin) || src.breaks || |old(src.left)| > w.cfg.maxBytes
    ensures r.Got? ==>
              var key := (origin, mediaID);
              && GotRight(w, t, origin, mediaID, old(src.left), r)
              && key in w.state.remote && w.state.remote[key] == r.row
              && (key !in w.moments[0].store.remote || IntactRemote(w.cfg, w.moments[0].store, key)
                  ==> IntactRemote(w.cfg, w.state, key))
    ensures r.Got? && src.left != [] ==> WasThere(w.cfg, w.moments, |old(w.moments)| - 1, origin, r.row)
    ensures Described(w.cfg, old(w.state), (origin, mediaID)) && !Available(w.cfg, old(w.state), (origin, mediaID)) ==>
              && Described(w.cfg, w.state, (origin, mediaID)) && !Available(w.cfg, w.state, (origin, mediaID))
              && (r.Got? ==> r.row == old(w.state).remote[(origin, mediaID)])
  {
    ghost var start, key := w.moments, (origin, mediaID);
    r := FindOrFetch(w, t, origin, mediaID, src);
    if Described(w.cfg, start[|start| - 1].store, key) {
      StillAvailable(w.Rules(), start, w.moments, w.events, |w.moments| - 1, key);
    }
    if r.Got? {
      AnswerIsTheRow(w.Rules(), w.moments, w.events, t, origin, mediaID, r.row);
    }
  }

  /** Another request may have stored it already; a row whose file is gone does not count. */
  method FindStored(w: World, t: int, origin: string, mediaID: string) returns (r: Option<Answer>)
    requires w.Valid() && w.Absent(t)
    modifies w
    ensures w.Valid() && old(w.moments) <= w.moments && w.faults >= old(w.faults)
    ensures Available(w.cfg, old(w.state), (origin, mediaID)) ==>
              r == Some(if w.fails(old(w.done)) then Answer.Failed
                        else Got(origin, mediaID, old(w.state).remote[(origin, mediaID)]))
    ensures match r case None => w.Is(t, Choosing(origin, mediaID))
                    case Some(a) =>
                      && w.Is(t, Finished(a))
                      && if a.Failed? then w.faults > old(w.faults)
                         else && a.Got? && a == Got(origin, mediaID, a.row) && Beaten(w.moments, t, (origin, mediaID))
                              && WasThere(w.cfg, w.moments, |old(w.moments)| - 1, origin, a.row)
  {
    ghost var start, key, stored := w.moments, (origin, mediaID), Available(w.cfg, w.state, (origin, mediaID));
    var existing := w.GetRemoteMedia(t, origin, mediaID);
    if existing.Err? {
      return Some(Answer.Failed);
    }
    ghost var before := w.moments;
    if stored {
      StillAvailable(w.Rules(), start, w.moments, w.events, |w.moments| - 1, key);
    }
    if existing.value.Some? && existing.value.value.length.Some? {
      var row := existing.value.value;
      assert HadRow(before[|before| - 1].store, t, key);
      var there := w.Stat(t, origin, mediaID, row);
      ghost var k :| |before| - 1 <= k < |w.moments|
          && (there <==> w.cfg.fileOf(Remote(origin, row.fsid)) in w.moments[k].store.files);
      if stored {
        StillAvailable(w.Rules(), start, w.moments, w.events, k, key);
      }
      if there {
        StillBeaten(before, w.moments, t, key);
        return Some(Got(origin, mediaID, row));
      }
    }
    return None;
  }

  method FindOrFetch(w: World, t: int, origin: string, mediaID: string, src: Copying.Reader) returns (r: Answer)
    requires w.Valid() && w.Absent(t)
    modifies w, src
    ensures w.Valid() && old(w.moments) <= w.moments
    ensures w.Is(t, Finished(r)) && (r.Got? || r.Failed?)
    ensures Available(w.cfg, old(w.state), (origin, mediaID)) ==>
              && src.left == old(src.left)
              && r == if w.fails(old(w.done)) then Answer.Failed
                      else Got(origin, mediaID, old(w.state).remote[(origin, mediaID)])
    ensures r.Failed? ==>
              w.faults > old(w.faults) || !ValidComponent(origin) || src.breaks || |old(src.left)| > w.cfg.maxBytes
    ensures r.Got? ==> GotRight(w, t, origin, mediaID, old(src.left), r)
    ensures r.Got? && src.left != [] ==> WasThere(w.cfg, w.moments, |old(w.moments)| - 1, origin, r.row)
  {
    var early := FindStored(w, t, origin, mediaID);
    if early.Some? {
      return early.value;
    }
    var fsid, ok := w.ChooseFile(t, origin, mediaID);
    if !ok {
      return Answer.Failed;
    }
    r := DownloadAndStore(w, t, Fetch(origin, mediaID, fsid), src);
  }

  method DownloadAndStore(w: World, t: int, job: Job, src: Copying.Reader) returns (r: Answer)
    requires w.Valid() && job.Fetch? && w.Is(t, Ready(job))
    modifies w, src
    ensures w.Valid() && old(w.moments) <= w.moments && w.Is(t, Finished(r))
    ensures if r.Failed? then w.faults > old(w.faults) || src.breaks || |old(src.left)| > w.cfg.maxBytes
            else GotRight(w, t, job.origin, job.mediaID, old(src.left), r) && src.left == []
  {
    ghost var body := src.left;
    var got := w.Download(t, job, src);
    if got.None? {
      return Answer.Failed;
    }
    var (tmp, info) := got.value;
    var installed := w.Install(t, job, tmp, body);
    if !installed {
      return Answer.Failed;
    }
    r := StoreRemote(w, t, job, info, body);
  }

  /** StoreRemoteMedia: INSERT ... ON CONFLICT DO NOTHING. */
  method InsertRemote(w: World, t: int, job: Job, ghost body: seq<byte>) returns (won: Result<bool, ()>)
    requires w.Valid() && job.Fetch? && w.Is(t, InPlace(job, body))
    modifies w
    ensures w.Valid() && old(w.moments) <= w.moments && w.faults == old(w.faults) + if won.Err? then 1 else 0
    ensures match won
            case Err(_) => w.Is(t, Removing(Target(job), Answering(Answer.Failed)))
            case Ok(true) =>
              w.Is(t, Finished(Got(job.origin, job.mediaID, RemoteRow(job.fsid, Some(|body|), w.cfg.hash(body)))))
            case Ok(false) =>
              && w.Is(t, Removing(Target(job), Deferring(job.origin, job.mediaID)))
              && HadRow(w.state, t, (job.origin, job.mediaID))
  {
    w.Others(t);
    var ok := w.Attempt();
    won := if !ok then Err(()) else Ok((job.origin, job.mediaID) !in w.state.remote);
    w.Take(Insert(t, !ok));
  }

  /** The row second, and what follows it. */
  method StoreRemote(w: World, t: int, job: Job, info: Copying.Info, ghost body: seq<byte>) returns (r: Answer)
    requires w.Valid() && job.Fetch? && w.Is(t, InPlace(job, body)) && info == Copying.Info(|body|, w.cfg.hash(body))
    modifies w
    ensures w.Valid() && old(w.moments) <= w.moments && w.faults >= old(w.faults) && w.Is(t, Finished(r))
    ensures if r.Failed? then w.faults > old(w.faults) else GotRight(w, t, job.origin, job.mediaID, body, r)
  {
    var won := InsertRemote(w, t, job, body);
    if won.Err? {
      w.Remove(t, Target(job), Answering(Answer.Failed));
      return Answer.Failed;
    }
    if won.value {
      return Got(job.origin, job.mediaID, RemoteRow(job.fsid, Some(info.length), info.sha256));
    }
    r := Defer(w, t, job, body);
  }

  /** A loser discards its copy and defers to the winner's. */
  method Defer(w: World, t: int, job: Job, ghost body: seq<byte>) returns (r: Answer)
    requires w.Valid() && job.Fetch? && w.Is(t, Removing(Target(job), Deferring(job.origin, job.mediaID)))
    requires HadRow(w.state, t, (job.origin, job.mediaID))
    modifies w
    ensures w.Valid() && old(w.moments) <= w.moments && w.faults >= old(w.faults) && w.Is(t, Finished(r))
    ensures if r.Failed? then w.faults > old(w.faults) else GotRight(w, t, job.origin, job.mediaID, body, r)
  {
    ghost var before := w.moments;
    w.Remove(t, Target(job), Deferring(job.origin, job.mediaID));
    r := RereadWinner(w, t, job.origin, job.mediaID, before);
  }

  /** A loser reads the winner's row again; it is there, for rows are never deleted during a run. */
  method RereadWinner(w: World, t: int, origin: string, mediaID: string, ghost before: seq<Moment>) returns (r: Answer)
    requires w.Valid() && w.Is(t, Rereading(origin, mediaID))
    requires before <= w.moments && before != [] && HadRow(before[|before| - 1].store, t, (origin, mediaID))
    modifies w
    ensures w.Valid() && old(w.moments) <= w.moments && w.faults == old(w.faults) + (if r.Failed? then 1 else 0)
    ensures w.Is(t, Finished(r)) && Beaten(w.moments, t, (origin, mediaID))
    ensures r.Failed? || (r.Got? && r == Got(origin, mediaID, r.row))
  {
    w.Others(t);
    RemoteRowStays(w.Rules(), before, w.moments, w.events, (origin, mediaID));
    var ok := w.Attempt();
    r := if !ok then Answer.Failed else Got(origin, mediaID, w.state.remote[(origin, mediaID)]);
    w.Take(Reread(t, !ok));
    assert Beaten(before, t, (origin, mediaID));
    StillBeaten(before, w.moments, t, (origin, mediaID));
  }

  // --- uploads --------------------------------------------------------------------------------------------

  /** Bytes written to a temporary file, not yet visible at their final path (storedUpload). */
  class StoredUpload {
    const job: Job
    const length: nat
    const sha256: string
    ghost const body: seq<byte>
    var tmpPath: Option<Place>

    constructor (job: Job, tmp: Place, info: Copying.Info, ghost body: seq<byte>)
      ensures this.job == job && this.body == body && tmpPath == Some(tmp)
      ensures length == info.length && sha256 == info.sha256
    {
      this.job, this.body, tmpPath := job, body, Some(tmp);
      length, sha256 := info.length, info.sha256;
    }

    /** It describes its bytes. */
    ghost predicate Describes(cfg: Config) {
      length == |body| && sha256 == cfg.hash(body)
    }

    method Commit(w: World, t: int) returns (ok: bool)
      requires tmpPath.Some? && w.Valid()
      requires (w.Is(t, Sealed(job, tmpPath.value, body)) && !job.Put?) || w.Is(t, Won(job, tmpPath.value, body))
      requires job.Sync? ==> t in w.book.passed
      modifies w, this
      ensures w.Valid() && old(w.moments) <= w.moments && w.faults == old(w.faults) + if ok then 0 else 1
      ensures tmpPath.None? <==> ok
      ensures w.Is(t, if !ok then Finished(Answer.Failed)
                      else if old(w.state.clients[t].Won?) then Finished(Stored(job.mediaID)) else InPlace(job, body))
      ensures ok ==> MediaStore.Holds(w.cfg, w.state, Target(job), body) && (job.Sync? ==> t in w.book.passed)
      ensures ok && old(w.state.clients[t].Won?) ==>
                && job.mediaID in w.state.local
                && w.state.local[job.mediaID] == LocalRow(Some(|body|), w.cfg.hash(body))
    {
      ok := w.Install(t, job, tmpPath.value, body);
      if ok {
        tmpPath := None;
      }
    }

    /** Throws the bytes away without touching the final path; a second discard does nothing. */
    method Discard(w: World, t: int, after: After)
      requires w.Valid() && (tmpPath.Some? ==> w.Is(t, Removing(tmpPath.value, after)))
      modifies w, this
      ensures w.Valid() && old(w.moments) <= w.moments && w.faults == old(w.faults) && tmpPath.None?
      ensures old(tmpPath.Some?) ==>
                w.Is(t, match after case Answering(a) => Finished(a) case Deferring(o, m) => Rereading(o, m))
      ensures old(tmpPath.None?) ==> w.state == old(w.state)
    {
      if tmpPath.Some? {
        w.Remove(t, tmpPath.value, after);
        tmpPath := None;
      }
    }
  }

  /** At some moment since the given one the limit check would let so many bytes of the user pass. */
  ghost predicate Allowed(setup: Setup, moments: seq<Moment>, since: int, user: string, length: nat) {
    exists k :: 0 <= since <= k < |moments| && Allows(setup, moments[k], user, length)
  }

  /** At some moment since the given one it would refuse them. */
  ghost predicate Refused(setup: Setup, moments: seq<Moment>, since: int, user: string, length: nat) {
    exists k :: 0 <= since <= k < |moments| && !Allows(setup, moments[k], user, length)
  }

  lemma StillJudged(setup: Setup, before: seq<Moment>, moments: seq<Moment>, since: int, from: int, user: string,
                    length: nat)
    requires before <= moments && 0 <= from <= since
    ensures Allowed(setup, before, since, user, length) ==> Allowed(setup, moments, from, user, length)
    ensures Refused(setup, before, since, user, length) ==> Refused(setup, moments, from, user, length)
  {
    if k :| 0 <= since <= k < |before| && Allows(setup, before[k], user, length) {
      assert moments[k] == before[k];
    }
    if k :| 0 <= since <= k < |before| && !Allows(setup, before[k], user, length) {
      assert moments[k] == before[k];
    }
  }

  /** The verdict of the last moment of a shorter record. */
  lemma JudgedNow(setup: Setup, before: seq<Moment>, moments: seq<Moment>, since: int, user: string, length: nat)
    requires before <= moments && 0 <= since < |before|
    ensures if Allows(setup, before[|before| - 1], user, length) then Allowed(setup, moments, since, user, length)
            else Refused(setup, moments, since, user, length)
  {
    assert moments[|before| - 1] == before[|before| - 1];
  }

  /**
   Uploader.store, and the checks between the bytes being on disk and the row being written: the
   quarantine query, which can fail, and withinUploadLimits. A refused upload is discarded.
   */
  method StoreAndCheck(w: World, t: int, job: Job, src: Copying.Reader) returns (stored: StoredUpload?)
    requires w.Valid() && w.Is(t, Ready(job)) && !job.Fetch?
    modifies w, src
    ensures w.Valid() && old(w.moments) <= w.moments && w.faults >= old(w.faults)
    ensures stored == null ==>
              && w.Is(t, Finished(Answer.Failed))
              && (w.faults > old(w.faults) || src.breaks || |old(src.left)| > w.cfg.maxBytes
                  || Refused(w.Rules(), w.moments, |old(w.moments)| - 1, w.userOf(t), |old(src.left)|))
    ensures stored != null ==>
              && fresh(stored) && stored.job == job && stored.body == old(src.left) && stored.Describes(w.cfg)
              && Allowed(w.Rules(), w.moments, |old(w.moments)| - 1, w.userOf(t), |old(src.left)|)
              && stored.tmpPath.Some? && w.Is(t, Sealed(job, stored.tmpPath.value, stored.body)) && t in w.book.passed
  {
    ghost var body, start := src.left, |w.moments| - 1;
    var got := w.Download(t, job, src);
    if got.None? {
      return null;
    }
    var (tmp, info) := got.value;
    stored := new StoredUpload(job, tmp, info, body);
    ghost var since := |w.moments| - 1;
    var ok := Check(w, t, stored);
    StillJudged(w.Rules(), w.moments, w.moments, since, start, w.userOf(t), |body|);
    if !ok {
      return null;
    }
  }

  method Reject(w: World, t: int, stored: StoredUpload)
    requires w.Valid() && stored.tmpPath.Some? && !stored.job.Fetch?
    requires w.Is(t, Sealed(stored.job, stored.tmpPath.value, stored.body))
    modifies w, stored
    ensures w.Valid() && old(w.moments) <= w.moments && w.faults == old(w.faults)
    ensures w.Is(t, Finished(Answer.Failed)) && stored.tmpPath.None?
  {
    w.Others(t);
    w.Take(Refuse(t));
    stored.Discard(w, t, Answering(Answer.Failed));
  }

  /** The quarantine query and withinUploadLimits, which reads the rows there are by then. */
  method Check(w: World, t: int, stored: StoredUpload) returns (ok: bool)
    requires w.Valid() && stored.tmpPath.Some? && !stored.job.Fetch? && stored.Describes(w.cfg)
    requires w.Is(t, Sealed(stored.job, stored.tmpPath.value, stored.body)) && t !in w.book.passed
    modifies w, stored
    ensures w.Valid() && old(w.moments) <= w.moments && w.faults >= old(w.faults)
    ensures ok ==>
              && Allowed(w.Rules(), w.moments, |old(w.moments)| - 1, w.userOf(t), stored.length)
              && stored.tmpPath == old(stored.tmpPath) && t in w.book.passed
              && w.Is(t, Sealed(stored.job, stored.tmpPath.value, stored.body))
    ensures !ok ==>
              && w.Is(t, Finished(Answer.Failed)) && stored.tmpPath.None?
              && (w.faults > old(w.faults)
                  || Refused(w.Rules(), w.moments, |old(w.moments)| - 1, w.userOf(t), stored.length))
  {
    ghost var start := |w.moments| - 1;
    ok := w.Attempt();
    if ok {
      ok := Judge(w, t, stored.job, stored.tmpPath.value, stored.length, stored.body);
    }
    if !ok {
      ghost var before := w.moments;
      Reject(w, t, stored);
      StillJudged(w.Rules(), before, w.moments, start, start, w.userOf(t), stored.length);
    }
  }

  /** exceededLimit, over the rows of one moment. */
  method Judge(w: World, t: int, job: Job, tmp: Place, length: nat, ghost body: seq<byte>) returns (ok: bool)
    requires w.Valid() && !job.Fetch? && w.Is(t, Sealed(job, tmp, body)) && t !in w.book.passed && length == |body|
    modifies w
    ensures w.Valid() && old(w.moments) <= w.moments && w.faults == old(w.faults)
    ensures w.Is(t, Sealed(job, tmp, body)) && (t in w.book.passed <==> ok)
    ensures if ok then Allowed(w.Rules(), w.moments, |old(w.moments)| - 1, w.userOf(t), length)
            else Refused(w.Rules(), w.moments, |old(w.moments)| - 1, w.userOf(t), length)
  {
    ghost var start := |w.moments| - 1;
    w.Others(t);
    var verdict, asked := EvaluateUploadLimits(w.limits, length, w.book.now, UsageOf(Rows(w.Now()), w.userOf(t)));
    ok := verdict.Ok? && verdict.value.None?;
    ghost var before := w.moments;
    if ok {
      w.Admit(t, job, tmp, body);
    }
    JudgedNow(w.Rules(), before, w.moments, start, w.userOf(t), length);
  }

  /** The media ID has a completed row of these bytes in the user's name, and its file holds them. */
  predicate HasUpload(w: World, mediaID: string, user: string, body: seq<byte>)
    reads w
  {
    && mediaID in w.state.local && w.state.local[mediaID] == LocalRow(Some(|body|), w.cfg.hash(body))
    && MediaStore.Holds(w.cfg, w.state, Local(mediaID), body) && IsOwner(w.Now(), mediaID, user)
  }

  /** newFilesystemID. */
  method DrawID(w: World, t: int) returns (mediaID: string)
    requires w.Valid() && w.Absent(t)
    modifies w
    ensures w.Valid() && old(w.moments) <= w.moments && w.faults == old(w.faults)
    ensures w.Is(t, Ready(Sync(mediaID)))
  {
    w.Others(t);
    FreshIDs(w.state);
    mediaID :| Fresh(w.state, mediaID);
    w.Take(BeginSync(t, mediaID));
  }

  /**
   handleUpload: nobody else can hold the media ID, so the file lands before the row. It fails only
   if an effect failed, the connection broke, the body is too large or the limit check refused it.
   */
  method HandleUpload(w: World, t: int, src: Copying.Reader) returns (r: Answer)
    requires w.Valid() && w.Absent(t)
    modifies w, src
    ensures w.Valid() && old(w.moments) <= w.moments
    ensures w.Is(t, Finished(r)) && (r.Failed? || r.Stored?)
    ensures r.Failed? ==>
              || w.faults > old(w.faults) || src.breaks || |old(src.left)| > w.cfg.maxBytes
              || Refused(w.Rules(), w.moments, |old(w.moments)| - 1, w.userOf(t), |old(src.left)|)
    ensures r.Stored? ==>
              && Allowed(w.Rules(), w.moments, |old(w.moments)| - 1, w.userOf(t), |old(src.left)|)
              && HasUpload(w, r.mediaID, w.userOf(t), old(src.left))
  {
    ghost var body, start := src.left, |w.moments| - 1;
    var mediaID := DrawID(w, t);
    ghost var since := |w.moments| - 1;
    r := StoreAndInsert(w, t, Sync(mediaID), src);
    StillJudged(w.Rules(), w.moments, w.moments, since, start, w.userOf(t), |body|);
  }

  method StoreAndInsert(w: World, t: int, job: Job, src: Copying.Reader) returns (r: Answer)
    requires w.Valid() && job.Sync? && w.Is(t, Ready(job))
    modifies w, src
    ensures w.Valid() && old(w.moments) <= w.moments && w.faults >= old(w.faults) && w.Is(t, Finished(r))
    ensures if r.Failed?
            then || w.faults > old(w.faults) || src.breaks || |old(src.left)| > w.cfg.maxBytes
                 || Refused(w.Rules(), w.moments, |old(w.moments)| - 1, w.userOf(t), |old(src.left)|)
            else && Allowed(w.Rules(), w.moments, |old(w.moments)| - 1, w.userOf(t), |old(src.left)|)
                 && r == Stored(job.mediaID) && HasUpload(w, job.mediaID, w.userOf(t), old(src.left))
  {
    ghost var body, start := src.left, |w.moments| - 1;
    var stored := StoreAndCheck(w, t, job, src);
    if stored == null {
      return Answer.Failed;
    }
    ghost var before := w.moments;
    r := CommitAndInsert(w, t, stored);
    StillJudged(w.Rules(), before, w.moments, start, start, w.userOf(t), |body|);
  }

  method CommitAndInsert(w: World, t: int, stored: StoredUpload) returns (r: Answer)
    requires w.Valid() && stored.job.Sync? && stored.tmpPath.Some? && t in w.book.passed
    requires w.Is(t, Sealed(stored.job, stored.tmpPath.value, stored.body))
    modifies w, stored
    ensures w.Valid() && old(w.moments) <= w.moments && w.faults >= old(w.faults) && w.Is(t, Finished(r))
    ensures if r.Failed? then w.faults > old(w.faults)
            else r == Stored(stored.job.mediaID) && HasUpload(w, stored.job.mediaID, w.userOf(t), stored.body)
  {
    var ok := stored.Commit(w, t);
    if !ok {
      return Answer.Failed;
    }
    r := InsertLocal(w, t, stored.job, stored.body);
  }

  /** The row of a file in place cannot be there yet. */
  lemma IDIsFree(setup: Setup, moments: seq<Moment>, events: seq<Event>, t: int)
    requires Recorded(setup, moments, events)
    requires var s := moments[|moments| - 1].store; t in s.clients && s.clients[t].InPlace? && s.clients[t].job.Sync?
    ensures var s := moments[|moments| - 1].store;
            && s.clients[t].job.mediaID !in s.local
            && MediaStore.Holds(setup.cfg, s, Target(s.clients[t].job), s.clients[t].body)
  {
    LastIsOK(setup, moments, events);
    var s := moments[|moments| - 1].store;
    assert ClientOK(setup.cfg, s, s.clients[t]);
  }

  /** StoreLocalMedia, and the removal of the file if it fails. */
  method InsertLocal(w: World, t: int, job: Job, ghost body: seq<byte>) returns (r: Answer)
    requires w.Valid() && job.Sync? && w.Is(t, InPlace(job, body)) && t in w.book.passed
    modifies w
    ensures w.Valid() && old(w.moments) <= w.moments && w.Is(t, Finished(r))
    ensures w.faults == old(w.faults) + if r.Failed? then 1 else 0
    ensures r.Failed? || r == Stored(job.mediaID)
    ensures r.Stored? ==> HasUpload(w, job.mediaID, w.userOf(t), body)
  {
    w.Others(t);
    IDIsFree(w.Rules(), w.moments, w.events, t);
    var ok := w.Attempt();
    w.Take(Insert(t, !ok));
    if !ok {
      w.Remove(t, Target(job), Answering(Answer.Failed));
      return Answer.Failed;
    }
    return Stored(job.mediaID);
  }

  // --- asynchronous uploads -----------------------------------------------------------------------------

  /** Why a PUT is refused before its body is read. */
  datatype Refusal = Unknown | Foreign | AlreadyUploaded | Expired | Broken

  /** The reason holds, and none of those tested before it. Broken is the failure of the query. */
  predicate Stands(m: Moment, why: Refusal, mediaID: string, user: string, expiration: nat) {
    match why
    case Unknown => mediaID !in m.store.local
    case Foreign => mediaID in m.store.local && !IsOwner(m, mediaID, user)
    case AlreadyUploaded => IsReserved(m, mediaID, user) && m.store.local[mediaID].length.Some?
    case Expired =>
      && IsReserved(m, mediaID, user) && m.store.local[mediaID].length.None?
      && m.book.accounts[mediaID].createdTS < m.book.now - expiration
    case Broken => true
  }

  /** At most one of the four reasons stands, and none against a pending media ID of the user's that has not expired. */
  lemma OneReasonStands(m: Moment, why: Refusal, other: Refusal, mediaID: string, user: string, expiration: nat)
    requires !why.Broken? && !other.Broken? && Stands(m, why, mediaID, user, expiration)
    ensures Stands(m, other, mediaID, user, expiration) ==> other == why
    ensures !(&& mediaID in m.store.local && m.store.local[mediaID].length.None?
              && mediaID in m.book.accounts && m.book.accounts[mediaID].user == user
              && m.book.now - m.book.accounts[mediaID].createdTS <= expiration)
    ensures why.Unknown? <==> mediaID !in m.store.local
    ensures why.AlreadyUploaded? ==> m.store.local[mediaID].length.Some? && m.book.accounts[mediaID].user == user
  {
  }

  /** GetLocalMedia and the checks on the row, in Synapse's order: unknown, ownership, already uploaded, expired. */
  method LookUpReserved(w: World, t: int, mediaID: string, expiration: nat) returns (r: Option<Refusal>)
    requires w.Valid() && w.Absent(t)
    modifies w
    ensures w.Valid() && old(w.moments) <= w.moments
    ensures w.faults == old(w.faults) + if r == Some(Broken) then 1 else 0
    ensures match r
            case None =>
              && w.Is(t, Ready(Put(mediaID)))
              && IsReserved(w.Now(), mediaID, w.userOf(t)) && w.state.local[mediaID].length.None?
              && w.book.accounts[mediaID].createdTS >= w.book.now - expiration
            case Some(why) =>
              && w.Is(t, Finished(if why.AlreadyUploaded? then Conflict else Answer.Failed))
              && Stands(w.Now(), why, mediaID, w.userOf(t), expiration)
  {
    w.Others(t);
    var ok := w.Attempt();
    r := None;
    if !ok {
      r := Some(Broken);
    } else if mediaID !in w.state.local {
      r := Some(Unknown);
    } else if !IsOwner(w.Now(), mediaID, w.userOf(t)) {
      r := Some(Foreign);
    } else if w.state.local[mediaID].length.Some? {
      r := Some(AlreadyUploaded);
    } else if w.book.accounts[mediaID].createdTS < w.book.now - expiration {
      r := Some(Expired);
    }
    w.Take(BeginPut(t, mediaID, r.Some? && !r.value.AlreadyUploaded?));
  }

  /** At some moment since the given one the reason stood. */
  ghost predicate Stood(moments: seq<Moment>, since: int, why: Refusal, mediaID: string, user: string,
                        expiration: nat) {
    exists k :: 0 <= since <= k < |moments| && Stands(moments[k], why, mediaID, user, expiration)
  }

  /**
   handleAsyncUpload: the media ID is shared, so the row is won before the bytes land. A success
   leaves these bytes and their row; a conflict means the row is completed, by someone's bytes.
   */
  method HandleAsyncUpload(w: World, t: int, mediaID: string, src: Copying.Reader, expiration: nat)
    returns (r: Answer, refusal: Option<Refusal>)
    requires w.Valid() && w.Absent(t)
    modifies w, src
    ensures w.Valid() && old(w.moments) <= w.moments
    ensures w.Is(t, Finished(r)) && !r.Got?
    ensures refusal.Some? ==>
              && (r.Conflict? <==> refusal.value.AlreadyUploaded?)
              && (refusal.value.Broken? ==> w.faults > old(w.faults))
              && Stood(w.moments, |old(w.moments)| - 1, refusal.value, mediaID, w.userOf(t), expiration)
    ensures r.Failed? ==>
              || refusal.Some? || w.faults > old(w.faults) || src.breaks || |old(src.left)| > w.cfg.maxBytes
              || Refused(w.Rules(), w.moments, |old(w.moments)| - 1, w.userOf(t), |old(src.left)|)
    ensures r.Stored? ==>
              && Allowed(w.Rules(), w.moments, |old(w.moments)| - 1, w.userOf(t), |old(src.left)|)
              && refusal.None? && r.mediaID == mediaID && HasUpload(w, mediaID, w.userOf(t), old(src.left))
    ensures r.Conflict? ==> IsReserved(w.Now(), mediaID, w.userOf(t)) && w.state.local[mediaID].length.Some?
  {
    ghost var body, start := src.left, |w.moments| - 1;
    refusal := LookUpReserved(w, t, mediaID, expiration);
    if refusal.Some? {
      assert Stands(w.moments[|w.moments| - 1], refusal.value, mediaID, w.userOf(t), expiration);
      return if refusal.value.AlreadyUploaded? then Conflict else Answer.Failed, refusal;
    }
    ghost var since := |w.moments| - 1;
    r := StoreAndComplete(w, t, mediaID, src);
    StillJudged(w.Rules(), w.moments, w.moments, since, start, w.userOf(t), |body|);
  }

  method StoreAndComplete(w: World, t: int, mediaID: string, src: Copying.Reader) returns (r: Answer)
    requires w.Valid() && w.Is(t, Ready(Put(mediaID))) && IsReserved(w.Now(), mediaID, w.userOf(t))
    modifies w, src
    ensures w.Valid() && old(w.moments) <= w.moments && w.faults >= old(w.faults)
    ensures w.Is(t, Finished(r)) && !r.Got?
    ensures r.Failed? ==>
              || w.faults > old(w.faults) || src.breaks || |old(src.left)| > w.cfg.maxBytes
              || Refused(w.Rules(), w.moments, |old(w.moments)| - 1, w.userOf(t), |old(src.left)|)
    ensures r.Stored? ==>
              && Allowed(w.Rules(), w.moments, |old(w.moments)| - 1, w.userOf(t), |old(src.left)|)
              && r.mediaID == mediaID && HasUpload(w, mediaID, w.userOf(t), old(src.left))
    ensures r.Conflict? ==> IsReserved(w.Now(), mediaID, w.userOf(t)) && w.state.local[mediaID].length.Some?
  {
    ghost var body, start, reserved := src.left, |w.moments| - 1, w.moments;
    var stored := StoreAndCheck(w, t, Put(mediaID), src);
    if stored == null {
      return Answer.Failed;
    }
    ghost var before := w.moments;
    LocalRowStays(w.Rules(), reserved, before, w.events, mediaID, w.userOf(t));
    r := CompleteAndCommit(w, t, stored);
    StillJudged(w.Rules(), before, w.moments, start, start, w.userOf(t), |body|);
  }

  method CompleteAndCommit(w: World, t: int, stored: StoredUpload) returns (r: Answer)
    requires w.Valid() && stored.job.Put? && stored.tmpPath.Some? && t in w.book.passed
    requires w.Is(t, Sealed(stored.job, stored.tmpPath.value, stored.body))
    requires IsReserved(w.Now(), stored.job.mediaID, w.userOf(t))
    modifies w, stored
    ensures w.Valid() && old(w.moments) <= w.moments && w.faults >= old(w.faults)
    ensures w.Is(t, Finished(r)) && !r.Got?
    ensures r.Failed? ==> w.faults > old(w.faults)
    ensures r.Stored? ==> r.mediaID == stored.job.mediaID && HasUpload(w, r.mediaID, w.userOf(t), stored.body)
    ensures r.Conflict? ==>
              && IsReserved(w.Now(), stored.job.mediaID, w.userOf(t))
              && w.state.local[stored.job.mediaID].length.Some?
  {
    ghost var before := w.moments;
    r := TryComplete(w, t, stored);
    LocalRowStays(w.Rules(), before, w.moments, w.events, stored.job.mediaID, w.userOf(t));
  }

  method TryComplete(w: World, t: int, stored: StoredUpload) returns (r: Answer)
    requires w.Valid() && stored.job.Put? && stored.tmpPath.Some? && t in w.book.passed
    requires w.Is(t, Sealed(stored.job, stored.tmpPath.value, stored.body))
    modifies w, stored
    ensures w.Valid() && old(w.moments) <= w.moments && w.faults >= old(w.faults)
    ensures w.Is(t, Finished(r)) && (r.Failed? || r.Conflict? || r == Stored(stored.job.mediaID))
    ensures r.Failed? ==> w.faults > old(w.faults)
    ensures r.Stored? ==>
              && r.mediaID in w.state.local
              && w.state.local[r.mediaID] == LocalRow(Some(|stored.body|), w.cfg.hash(stored.body))
              && MediaStore.Holds(w.cfg, w.state, Local(r.mediaID), stored.body)
    ensures r.Conflict? ==> stored.job.mediaID in w.state.local && w.state.local[stored.job.mediaID].length.Some?
  {
    var lost := CompleteLocal(w, t, stored);
    if lost.Some? {
      return lost.value;
    }
    r := CommitWon(w, t, stored);
  }

  /** The winner's rename. */
  method CommitWon(w: World, t: int, stored: StoredUpload) returns (r: Answer)
    requires w.Valid() && stored.job.Put? && stored.tmpPath.Some?
    requires w.Is(t, Won(stored.job, stored.tmpPath.value, stored.body))
    modifies w, stored
    ensures w.Valid() && old(w.moments) <= w.moments && w.faults >= old(w.faults)
    ensures w.Is(t, Finished(r)) && (r == Answer.Failed || r == Stored(stored.job.mediaID))
    ensures r.Failed? ==> w.faults > old(w.faults)
    ensures r.Stored? ==>
              && r.mediaID in w.state.local
              && w.state.local[r.mediaID] == LocalRow(Some(|stored.body|), w.cfg.hash(stored.body))
              && MediaStore.Holds(w.cfg, w.state, Local(r.mediaID), stored.body)
  {
    var ok := stored.Commit(w, t);
    r := if ok then Stored(stored.job.mediaID) else Answer.Failed;
  }

  /** CompleteLocalMedia: UPDATE ... WHERE media_id = $1 AND media_length IS NULL. */
  method UpdateRow(w: World, t: int, job: Job, tmp: Place, ghost body: seq<byte>) returns (won: Result<bool, ()>)
    requires w.Valid() && job.Put? && w.Is(t, Sealed(job, tmp, body)) && t in w.book.passed
    modifies w
    ensures w.Valid() && old(w.moments) <= w.moments && w.faults == old(w.faults) + if won.Err? then 1 else 0
    ensures match won
            case Err(_) => w.Is(t, Removing(tmp, Answering(Answer.Failed)))
            case Ok(true) => w.Is(t, Won(job, tmp, body))
            case Ok(false) =>
              && w.Is(t, Removing(tmp, Answering(Conflict)))
              && job.mediaID in w.state.local && w.state.local[job.mediaID].length.Some?
  {
    w.Others(t);
    RowIsThere(w.Rules(), w.moments, w.events, t);
    var ok := w.Attempt();
    won := if !ok then Err(()) else Ok(job.mediaID in w.state.local && w.state.local[job.mediaID].length.None?);
    w.Take(Complete(t, !ok));
  }

  /** A loser and a failed statement discard their bytes. None means the row is won. */
  method CompleteLocal(w: World, t: int, stored: StoredUpload) returns (r: Option<Answer>)
    requires w.Valid() && stored.job.Put? && stored.tmpPath.Some? && t in w.book.passed
    requires w.Is(t, Sealed(stored.job, stored.tmpPath.value, stored.body))
    modifies w, stored
    ensures w.Valid() && old(w.moments) <= w.moments
    ensures w.faults == old(w.faults) + if r == Some(Answer.Failed) then 1 else 0
    ensures r.Some? ==> r.value in {Answer.Failed, Conflict} && w.Is(t, Finished(r.value)) && stored.tmpPath.None?
    ensures r == Some(Conflict) ==>
              stored.job.mediaID in w.state.local && w.state.local[stored.job.mediaID].length.Some?
    ensures r.None? ==>
              stored.tmpPath == old(stored.tmpPath) && w.Is(t, Won(stored.job, stored.tmpPath.value, stored.body))
  {
    var won := UpdateRow(w, t, stored.job, stored.tmpPath.value, stored.body);
    if won == Ok(true) {
      return None;
    }
    ghost var before := w.moments;
    var answer := if won.Ok? then Conflict else Answer.Failed;
    stored.Discard(w, t, Answering(answer));
    CompletedStays(w.Rules(), before, w.moments, w.events, stored.job.mediaID);
    return Some(answer);
  }

  /** A PUT was let in because its media ID has a row. */
  lemma RowIsThere(setup: Setup, moments: seq<Moment>, events: seq<Event>, t: int)
    requires Recorded(setup, moments, events)
    requires var s := moments[|moments| - 1].store; t in s.clients && s.clients[t].Sealed? && s.clients[t].job.Put?
    ensures var s := moments[|moments| - 1].store; s.clients[t].job.mediaID in s.local
  {
    LastIsOK(setup, moments, events);
    var s := moments[|moments| - 1].store;
    assert ClientOK(setup.cfg, s, s.clients[t]);
  }

  /**
   The handlers keep the quota: at every moment of what a world records, whoever's handlers and in
   whatever order, a user with at most `most` uploads between limit check and row is within `most`
   times every limit.
   */
  lemma HandlersKeepWindows(w: World, user: string, most: nat, i: nat, l: Limit)
    requires w.Valid() && LongestFirst(w.limits) && most > 0 && Serialised(w.Rules(), w.moments, user, most)
    requires i < |w.moments| && l in w.limits
    ensures Used(w.moments[i], user, l) <= most * l.maxBytes
  {
    RecordedIsHistory(w.Rules(), w.moments, w.events);
    StoreKeepsWindows(w.Rules(), user, most, w.moments, w.events, i, l);
  }
}
