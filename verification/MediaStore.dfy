/**
 The write protocol of upload.go and store.go over the tables of db.go, as a system of steps.
 Any number of remote fetches, synchronous uploads and asynchronous PUTs run at once; each step
 below is one effect on the file system or one SQL statement, and a client may stop for good
 between any two of its steps.
 */
module MediaStore {
  import opened Common
  import opened MediaPathNames
  import PathNames
  import Runs

  /** What the protocol is given: paths.go's naming, SHA-256, and max_upload_size. */
  datatype Config = Config(fileOf: Place -> string, hash: seq<byte> -> string, maxBytes: nat)

  /** Distinct places have distinct files. MediaPathNames.FilesAreDistinct shows it of paths.go. */
  ghost predicate Sound(cfg: Config) {
    forall p: Place, q: Place {:trigger cfg.fileOf(p), cfg.fileOf(q)} ::
      WellNamed(p) && WellNamed(q) && cfg.fileOf(p) == cfg.fileOf(q) ==> p == q
  }

  // --- state ------------------------------------------------------------------------------

  /** A row of remote_media_cache, as far as the protocol reads it. */
  datatype RemoteRow = RemoteRow(fsid: string, length: Option<nat>, sha: string)

  /** A row of local_media_repository; length None is a reserved, not yet uploaded, media ID. */
  datatype LocalRow = LocalRow(length: Option<nat>, sha: string)

  datatype Job =
    | Fetch(origin: string, mediaID: string, fsid: string)
    | Sync(mediaID: string)
    | Put(mediaID: string)

  function Target(job: Job): Place {
    match job
    case Fetch(origin, _, fsid) => Remote(origin, fsid)
    case Sync(id) => Local(id)
    case Put(id) => Local(id)
  }

  datatype Answer =
    | Got(origin: string, mediaID: string, row: RemoteRow)
    | Stored(mediaID: string)
    | Conflict
    | Failed

  /** What a client does once it has removed a file. */
  datatype After = Answering(answer: Answer) | Deferring(origin: string, mediaID: string)

  /** Where one client is in its handler. */
  datatype Client =
    | Statting(origin: string, mediaID: string, row: RemoteRow) // row found, about to stat its file
    | Choosing(origin: string, mediaID: string)                 // about to generate a filesystem ID
    | Ready(job: Job)                                           // about to create the temp file
    | Copying(job: Job, tmp: Place, body: seq<byte>)
    | Sealed(job: Job, tmp: Place, body: seq<byte>)             // synced and closed
    | InPlace(job: Job, body: seq<byte>)                        // renamed; row not yet written
    | Won(job: Job, tmp: Place, body: seq<byte>)                // row completed; not yet renamed
    | Removing(what: Place, after: After)
    | Rereading(origin: string, mediaID: string)
    | Finished(answer: Answer)

  datatype State = State(
    files: map<string, seq<byte>>,
    local: map<string, LocalRow>,
    remote: map<(string, string), RemoteRow>,
    used: set<string>,          // IDs that random generation will not produce again
    renameFailed: set<string>,  // media IDs whose winner could not rename
    clients: map<int, Client>,
    stopped: set<int>)

  // --- steps --------------------------------------------------------------------------------

  datatype Step =
    | BeginFetch(t: int, origin: string, mediaID: string, dbFails: bool)
    | Stat(t: int)
    | ChooseID(t: int, fsid: string, ok: bool)
    | BeginSync(t: int, mediaID: string)
    | BeginPut(t: int, mediaID: string, refused: bool)
    | Create(mediaID: string)
    | OpenTemp(t: int, name: string, ok: bool)
    | Append(t: int, chunk: seq<byte>)
    | BreakOff(t: int)
    | Seal(t: int, ok: bool)
    | Refuse(t: int)
    | Rename(t: int, ok: bool)
    | Insert(t: int, dbFails: bool)
    | Complete(t: int, dbFails: bool)
    | Remove(t: int)
    | Reread(t: int, dbFails: bool)
    | Stop(t: int)

  function TempOf(job: Job, name: string): Place {
    Temp(job.Fetch?, name)
  }

  predicate Running(s: State, t: int) {
    t in s.clients && t !in s.stopped
  }

  /** A freshly generated ID: with plain shards, as IDs of letters have, and not seen before. */
  predicate Fresh(s: State, id: string) {
    PlainID(id) && id !in s.used
  }

  predicate Enabled(cfg: Config, s: State, step: Step) {
    match step
    case BeginFetch(t, _, _, _) => t !in s.clients
    case Stat(t) => Running(s, t) && s.clients[t].Statting?
    case ChooseID(t, fsid, ok) => Running(s, t) && s.clients[t].Choosing? && Fresh(s, fsid)
    case BeginSync(t, id) => t !in s.clients && Fresh(s, id)
    case BeginPut(t, _, _) => t !in s.clients
    case Create(id) => Fresh(s, id)
    case OpenTemp(t, name, ok) =>
      // os.CreateTemp opens with O_EXCL, so the name is that of no existing file.
      Running(s, t) && s.clients[t].Ready?
      && (ok ==> WellNamed(TempOf(s.clients[t].job, name)) && cfg.fileOf(TempOf(s.clients[t].job, name)) !in s.files)
    case Append(t, chunk) =>
      Running(s, t) && s.clients[t].Copying? && |s.clients[t].body + chunk| <= cfg.maxBytes + 1
    case BreakOff(t) => Running(s, t) && s.clients[t].Copying?
    case Seal(t, _) => Running(s, t) && s.clients[t].Copying?
    case Refuse(t) => Running(s, t) && s.clients[t].Sealed? && !s.clients[t].job.Fetch?
    case Rename(t, ok) =>
      && Running(s, t) && ((s.clients[t].Sealed? && !s.clients[t].job.Put?) || s.clients[t].Won?)
      && (ok ==> cfg.fileOf(s.clients[t].tmp) in s.files)
    case Insert(t, _) => Running(s, t) && s.clients[t].InPlace?
    case Complete(t, _) => Running(s, t) && s.clients[t].Sealed? && s.clients[t].job.Put?
    case Remove(t) => Running(s, t) && s.clients[t].Removing?
    case Reread(t, _) => Running(s, t) && s.clients[t].Rereading?
    case Stop(t) => Running(s, t)
  }

  function Move(s: State, t: int, c: Client): State {
    s.(clients := s.clients[t := c])
  }

  /** GetRemoteMedia: a row without a length is treated as no row. */
  function DoBeginFetch(s: State, t: int, origin: string, mediaID: string, dbFails: bool): State {
    if dbFails then Move(s, t, Finished(Failed))
    else if (origin, mediaID) in s.remote && s.remote[(origin, mediaID)].length.Some?
    then Move(s, t, Statting(origin, mediaID, s.remote[(origin, mediaID)]))
    else Move(s, t, Choosing(origin, mediaID))
  }

  function DoStat(cfg: Config, s: State, t: int): State
    requires t in s.clients && s.clients[t].Statting?
  {
    var Statting(origin, mediaID, row) := s.clients[t];
    Move(s, t, if cfg.fileOf(Remote(origin, row.fsid)) in s.files
               then Finished(Got(origin, mediaID, row)) else Choosing(origin, mediaID))
  }

  /** An invalid origin, the write guard or MkdirAll ends the fetch here. */
  function DoChooseID(s: State, t: int, fsid: string, ok: bool): State
    requires t in s.clients && s.clients[t].Choosing?
  {
    var Choosing(origin, mediaID) := s.clients[t];
    Move(s.(used := s.used + {fsid}), t,
         if ok && WellNamed(Remote(origin, fsid)) then Ready(Fetch(origin, mediaID, fsid)) else Finished(Failed))
  }

  /** GetLocalMedia and the checks on it: unknown, someone else's or expired; then already uploaded. */
  function DoBeginPut(s: State, t: int, id: string, refused: bool): State {
    Move(s, t, if id !in s.local || refused then Finished(Failed)
               else if s.local[id].length.Some? then Finished(Conflict) else Ready(Put(id)))
  }

  function DoOpenTemp(cfg: Config, s: State, t: int, name: string, ok: bool): State
    requires t in s.clients && s.clients[t].Ready?
  {
    var job := s.clients[t].job;
    if !ok then Move(s, t, Finished(Failed))
    else Move(s.(files := s.files[cfg.fileOf(TempOf(job, name)) := []]), t, Copying(job, TempOf(job, name), []))
  }

  function DoAppend(cfg: Config, s: State, t: int, chunk: seq<byte>): State
    requires t in s.clients && s.clients[t].Copying?
  {
    var Copying(job, tmp, body) := s.clients[t];
    Move(s.(files := s.files[cfg.fileOf(tmp) := body + chunk]), t, Copying(job, tmp, body + chunk))
  }

  /** Over the limit, or sync, close or chmod failed: the temp file goes. */
  function DoSeal(cfg: Config, s: State, t: int, ok: bool): State
    requires t in s.clients && s.clients[t].Copying?
  {
    var Copying(job, tmp, body) := s.clients[t];
    Move(s, t, if !ok || |body| > cfg.maxBytes then Removing(tmp, Answering(Failed)) else Sealed(job, tmp, body))
  }

  function DoRename(cfg: Config, s: State, t: int): State
    requires t in s.clients && (s.clients[t].Sealed? || s.clients[t].Won?)
    requires cfg.fileOf(s.clients[t].tmp) in s.files
  {
    var c := s.clients[t];
    var moved := (s.files - {cfg.fileOf(c.tmp)})[cfg.fileOf(Target(c.job)) := s.files[cfg.fileOf(c.tmp)]];
    Move(s.(files := moved), t, if c.Won? then Finished(Stored(c.job.mediaID)) else InPlace(c.job, c.body))
  }

  function DoFailRename(s: State, t: int): State
    requires t in s.clients && (s.clients[t].Sealed? || s.clients[t].Won?)
  {
    var c := s.clients[t];
    Move(if c.Won? then s.(renameFailed := s.renameFailed + {c.job.mediaID}) else s, t,
         Removing(c.tmp, Answering(Failed)))
  }

  /**
   StoreRemoteMedia is INSERT ... ON CONFLICT DO NOTHING; StoreLocalMedia a plain INSERT, so a taken ID is an error.
   */
  function DoInsert(cfg: Config, s: State, t: int, dbFails: bool): State
    requires t in s.clients && s.clients[t].InPlace?
  {
    var InPlace(job, body) := s.clients[t];
    if dbFails then Move(s, t, Removing(Target(job), Answering(Failed)))
    else match job
      case Fetch(origin, mediaID, fsid) =>
        var row := RemoteRow(fsid, Some(|body|), cfg.hash(body));
        if (origin, mediaID) in s.remote then Move(s, t, Removing(Target(job), Deferring(origin, mediaID)))
        else Move(s.(remote := s.remote[(origin, mediaID) := row]), t, Finished(Got(origin, mediaID, row)))
      case _ =>
        if job.mediaID in s.local then Move(s, t, Removing(Target(job), Answering(Failed)))
        else Move(s.(local := s.local[job.mediaID := LocalRow(Some(|body|), cfg.hash(body))]), t,
                  Finished(Stored(job.mediaID)))
  }

  /** CompleteLocalMedia: UPDATE ... WHERE media_id = $1 AND media_length IS NULL. */
  function DoComplete(cfg: Config, s: State, t: int, dbFails: bool): State
    requires t in s.clients && s.clients[t].Sealed?
  {
    var Sealed(job, tmp, body) := s.clients[t];
    var id := job.mediaID;
    if dbFails then Move(s, t, Removing(tmp, Answering(Failed)))
    else if id in s.local && s.local[id].length.None?
    then Move(s.(local := s.local[id := LocalRow(Some(|body|), cfg.hash(body))]), t, Won(job, tmp, body))
    else Move(s, t, Removing(tmp, Answering(Conflict)))
  }

  function DoRemove(cfg: Config, s: State, t: int): State
    requires t in s.clients && s.clients[t].Removing?
  {
    var Removing(what, after) := s.clients[t];
    Move(s.(files := s.files - {cfg.fileOf(what)}), t,
         match after case Answering(a) => Finished(a) case Deferring(o, m) => Rereading(o, m))
  }

  function DoReread(s: State, t: int, dbFails: bool): State
    requires t in s.clients && s.clients[t].Rereading?
  {
    var Rereading(origin, mediaID) := s.clients[t];
    Move(s, t, if dbFails || (origin, mediaID) !in s.remote then Finished(Failed)
               else Finished(Got(origin, mediaID, s.remote[(origin, mediaID)])))
  }

  /** The effect of a step. */
  function Next(cfg: Config, s: State, step: Step): State
    requires Enabled(cfg, s, step)
  {
    match step
    case BeginFetch(t, origin, mediaID, dbFails) => DoBeginFetch(s, t, origin, mediaID, dbFails)
    case Stat(t) => DoStat(cfg, s, t)
    case ChooseID(t, fsid, ok) => DoChooseID(s, t, fsid, ok)
    case BeginSync(t, id) => Move(s.(used := s.used + {id}), t, Ready(Sync(id)))
    case BeginPut(t, id, refused) => DoBeginPut(s, t, id, refused)
    case Create(id) => s.(used := s.used + {id}, local := s.local[id := LocalRow(None, "")])
    case OpenTemp(t, name, ok) => DoOpenTemp(cfg, s, t, name, ok)
    case Append(t, chunk) => DoAppend(cfg, s, t, chunk)
    case BreakOff(t) => Move(s, t, Removing(s.clients[t].tmp, Answering(Failed)))
    case Seal(t, ok) => DoSeal(cfg, s, t, ok)
    case Refuse(t) => Move(s, t, Removing(s.clients[t].tmp, Answering(Failed)))
    case Rename(t, ok) => if ok then DoRename(cfg, s, t) else DoFailRename(s, t)
    case Insert(t, dbFails) => DoInsert(cfg, s, t, dbFails)
    case Complete(t, dbFails) => DoComplete(cfg, s, t, dbFails)
    case Remove(t) => DoRemove(cfg, s, t)
    case Reread(t, dbFails) => DoReread(s, t, dbFails)
    case Stop(t) => s.(stopped := s.stopped + {t})
  }

  // --- what holds in every reachable state ----------------------------------------------------

  predicate Holds(cfg: Config, s: State, p: Place, body: seq<byte>) {
    cfg.fileOf(p) in s.files && s.files[cfg.fileOf(p)] == body
  }

  /** The row's file is there, with the row's length and hash. */
  predicate IntactRemote(cfg: Config, s: State, key: (string, string)) {
    && key in s.remote
    && var row, file := s.remote[key], cfg.fileOf(Remote(key.0, s.remote[key].fsid));
    file in s.files && row.length == Some(|s.files[file]|) && row.sha == cfg.hash(s.files[file])
  }

  predicate IntactLocal(cfg: Config, s: State, id: string) {
    && id in s.local
    && var row, file := s.local[id], cfg.fileOf(Local(id));
    file in s.files && row.length == Some(|s.files[file]|) && row.sha == cfg.hash(s.files[file])
  }

  /** The file a client answers for: its temp file, or its own file in place. */
  function Owned(c: Client): Option<Place> {
    match c
    case Copying(_, tmp, _) => Some(tmp)
    case Sealed(_, tmp, _) => Some(tmp)
    case Won(_, tmp, _) => Some(tmp)
    case InPlace(job, _) => Some(Target(job))
    case Removing(what, _) => Some(what)
    case _ => None
  }

  /** The random ID a client holds that no row carries. */
  function Claim(c: Client): Option<string> {
    match c
    case Removing(Remote(_, fsid), _) => Some(fsid)
    case Removing(Local(id), _) => Some(id)
    case _ => if c.Ready? || c.Copying? || c.Sealed? || c.InPlace?
              then (match c.job case Fetch(_, _, fsid) => Some(fsid) case Sync(id) => Some(id) case Put(_) => None)
              else None
  }

  /** No row carries the ID. */
  predicate Unclaimed(s: State, id: string) {
    id !in s.local && forall key :: key in s.remote ==> s.remote[key].fsid != id
  }

  predicate JobOK(s: State, job: Job) {
    && WellNamed(Target(job))
    && (job.Put? ==> job.mediaID in s.local)
  }

  predicate ClientOK(cfg: Config, s: State, c: Client) {
    && (Claim(c).Some? ==> Claim(c).value in s.used && Unclaimed(s, Claim(c).value))
    && (Owned(c).Some? ==> WellNamed(Owned(c).value) && cfg.fileOf(Owned(c).value) in s.files)
    && match c
       case Statting(o, m, row) => (o, m) in s.remote && s.remote[(o, m)] == row
       case Choosing(_, _) => true
       case Ready(job) => JobOK(s, job) && (job.Put? || cfg.fileOf(Target(job)) !in s.files)
       case Copying(job, tmp, body) =>
         JobOK(s, job) && tmp.Temp? && Holds(cfg, s, tmp, body)
         && (job.Put? || cfg.fileOf(Target(job)) !in s.files)
       case Sealed(job, tmp, body) =>
         JobOK(s, job) && tmp.Temp? && Holds(cfg, s, tmp, body) && |body| <= cfg.maxBytes
         && (job.Put? || cfg.fileOf(Target(job)) !in s.files)
       case InPlace(job, body) =>
         JobOK(s, job) && !job.Put? && Holds(cfg, s, Target(job), body)
       case Won(job, tmp, body) =>
         && JobOK(s, job) && job.Put? && tmp.Temp? && Holds(cfg, s, tmp, body)
         && s.local[job.mediaID] == LocalRow(Some(|body|), cfg.hash(body))
         && cfg.fileOf(Target(job)) !in s.files
         && job.mediaID !in s.renameFailed
       case Removing(_, after) => after.Answering? ==> !after.answer.Got? && !after.answer.Stored?
       case Rereading(_, _) => true
       case Finished(Got(o, m, row)) => (o, m) in s.remote && s.remote[(o, m)] == row
       case Finished(Stored(id)) => IntactLocal(cfg, s, id) && PlainID(id)
       case Finished(_) => true
  }

  /** The media ID whose row this client has completed but whose file it has not yet renamed. */
  function Winning(c: Client): Option<string> {
    if c.Won? then Some(c.job.mediaID) else None
  }

  ghost predicate ClientsApart(s: State) {
    forall t, u :: t in s.clients && u in s.clients && t != u ==>
                     && (Owned(s.clients[t]).Some? ==> Owned(s.clients[t]) != Owned(s.clients[u]))
                     && (Claim(s.clients[t]).Some? ==> Claim(s.clients[t]) != Claim(s.clients[u]))
                     && (Winning(s.clients[t]).Some? ==> Winning(s.clients[t]) != Winning(s.clients[u]))
  }

  /** Random IDs do not collide with what rows and files already carry. */
  ghost predicate UsedCovers(cfg: Config, s: State) {
    && (forall id :: id in s.local ==> id in s.used)
    && (forall key :: key in s.remote ==> s.remote[key].fsid in s.used)
    && (forall id :: PlainID(id) && cfg.fileOf(Local(id)) in s.files ==> id in s.used)
    && (forall o, id :: WellNamed(Remote(o, id)) && cfg.fileOf(Remote(o, id)) in s.files ==> id in s.used)
  }

  /** Media IDs some client has completed the row of, and not yet renamed the file of. */
  function Winners(s: State): set<string> {
    set t | t in s.clients && s.clients[t].Won? :: s.clients[t].job.mediaID
  }

  /** A row of the run is backed by its file for good; so is one that was backed at the start. */
  predicate RemoteRowOK(cfg: Config, init: State, s: State, key: (string, string))
    requires key in s.remote
  {
    (key in init.remote ==> IntactRemote(cfg, init, key)) ==>
      IntactRemote(cfg, s, key) && WellNamed(Remote(key.0, s.remote[key].fsid))
  }

  ghost predicate RemoteRowsOK(cfg: Config, init: State, s: State) {
    && (forall key :: key in init.remote ==> key in s.remote && s.remote[key] == init.remote[key])
    && (forall key :: key in s.remote ==> RemoteRowOK(cfg, init, s, key))
  }

  /** A completed row that had no matching file when the run began: the run owes it nothing. */
  predicate BrokenBefore(cfg: Config, init: State, id: string) {
    id in init.local && init.local[id].length.Some? && !IntactLocal(cfg, init, id)
  }

  /**
   A reserved row has no file. A completed row has its file, except while its winner has yet to
   rename, or when that rename failed; and then it has no file at all.
   */
  predicate LocalRowOK(cfg: Config, init: State, s: State, id: string)
    requires id in s.local
  {
    if BrokenBefore(cfg, init, id) then id !in s.renameFailed && id !in Winners(s)
    else
      && PlainID(id)
      && if s.local[id].length.None? then cfg.fileOf(Local(id)) !in s.files && id !in s.renameFailed
         else if id in Winners(s) then cfg.fileOf(Local(id)) !in s.files && id !in s.renameFailed
         else if id in s.renameFailed then cfg.fileOf(Local(id)) !in s.files
         else IntactLocal(cfg, s, id)
  }

  ghost predicate LocalRowsOK(cfg: Config, init: State, s: State) {
    && (forall id :: id in init.local ==>
                       id in s.local && (init.local[id].length.Some? ==> s.local[id] == init.local[id]))
    && (forall id :: id in s.local ==> LocalRowOK(cfg, init, s, id))
    && s.renameFailed <= s.local.Keys
  }

  /** Files some row names. */
  function DescribedFiles(cfg: Config, s: State): set<string> {
    (set key | key in s.remote :: cfg.fileOf(Remote(key.0, s.remote[key].fsid)))
    + (set id | id in s.local && s.local[id].length.Some? :: cfg.fileOf(Local(id)))
  }

  /** Files some client still answers for. */
  function OwnedFiles(cfg: Config, s: State): set<string> {
    set t | t in s.clients && Owned(s.clients[t]).Some? :: cfg.fileOf(Owned(s.clients[t]).value)
  }

  /** Every file was there before, or a row describes it, or some client still answers for it. */
  predicate NoOrphans(cfg: Config, init: State, s: State) {
    s.files.Keys <= init.files.Keys + DescribedFiles(cfg, s) + OwnedFiles(cfg, s)
  }

  ghost predicate ClientsOK(cfg: Config, s: State) {
    forall t :: t in s.clients ==> ClientOK(cfg, s, s.clients[t])
  }

  ghost predicate Inv(cfg: Config, init: State, s: State) {
    && ClientsOK(cfg, s)
    && ClientsApart(s)
    && UsedCovers(cfg, s)
    && RemoteRowsOK(cfg, init, s)
    && LocalRowsOK(cfg, init, s)
    && NoOrphans(cfg, init, s)
  }

  /** Before the run: nobody is at work, random IDs are fresh, and reserved IDs have no file yet. */
  ghost predicate Initial(cfg: Config, s: State) {
    && s.clients == map[] && s.stopped == {} && s.renameFailed == {}
    && UsedCovers(cfg, s)
    && (forall id :: id in s.local && s.local[id].length.None? ==> PlainID(id) && cfg.fileOf(Local(id)) !in s.files)
    && (forall id :: IntactLocal(cfg, s, id) ==> PlainID(id))
    && (forall key :: IntactRemote(cfg, s, key) ==> WellNamed(Remote(key.0, s.remote[key].fsid)))
  }

  lemma InitialInv(cfg: Config, s: State)
    requires Initial(cfg, s)
    ensures Inv(cfg, s, s)
  {
  }

  // --- every step keeps it ----------------------------------------------------------------------

  function OwnedBy(s: State, t: int): Option<Place> {
    if t in s.clients then Owned(s.clients[t]) else None
  }

  function ClaimOf(s: State, t: int): Option<string> {
    if t in s.clients then Claim(s.clients[t]) else None
  }

  function WinningOf(s: State, t: int): Option<string> {
    if t in s.clients then Winning(s.clients[t]) else None
  }

  function AsSet(o: Option<string>): set<string> {
    if o.Some? then {o.value} else {}
  }

  /** A step of t that touches neither files nor rows, though a failed rename is noted. */
  ghost predicate Moves(cfg: Config, s: State, s': State, t: int, c: Client) {
    && s'.files == s.files && s'.local == s.local && s'.remote == s.remote
    && s'.clients == s.clients[t := c] && s.used <= s'.used
    && ClientOK(cfg, s', c)
    && Owned(c) == OwnedBy(s, t)
    && (Claim(c).None? || Claim(c) == ClaimOf(s, t) || Claim(c).value !in s.used)
    && (Winning(c).None? || Winning(c) == WinningOf(s, t))
    && s'.renameFailed == s.renameFailed + (AsSet(WinningOf(s, t)) - AsSet(Winning(c)))
  }

  lemma KeepMove(cfg: Config, init: State, s: State, s': State, t: int, c: Client)
    requires Inv(cfg, init, s) && Moves(cfg, s, s', t, c)
    ensures Inv(cfg, init, s')
  {
    KeepClientsByMove(cfg, s, s', t, c);
    KeepApartByMove(cfg, s, s', t, c);
    KeepRowsByMove(cfg, init, s, s', t, c);
    OwnedFilesAfter(cfg, s, s', t, c);
  }

  lemma KeepClientsByMove(cfg: Config, s: State, s': State, t: int, c: Client)
    requires ClientsOK(cfg, s) && ClientsApart(s) && Moves(cfg, s, s', t, c)
    ensures ClientsOK(cfg, s')
  {
    forall u | u in s'.clients ensures ClientOK(cfg, s', s'.clients[u]) {
      if u != t {
        assert ClientOK(cfg, s, s.clients[u]);
      }
    }
  }

  lemma KeepApartByMove(cfg: Config, s: State, s': State, t: int, c: Client)
    requires ClientsOK(cfg, s) && ClientsApart(s) && Moves(cfg, s, s', t, c)
    ensures ClientsApart(s')
  {
    forall u | u in s.clients && u != t ensures Claim(c).Some? ==> Claim(c) != Claim(s.clients[u]) {
      assert ClientOK(cfg, s, s.clients[u]);
    }
  }

  lemma KeepRowsByMove(cfg: Config, init: State, s: State, s': State, t: int, c: Client)
    requires ClientsOK(cfg, s) && ClientsApart(s)
    requires RemoteRowsOK(cfg, init, s) && LocalRowsOK(cfg, init, s) && Moves(cfg, s, s', t, c)
    ensures RemoteRowsOK(cfg, init, s') && LocalRowsOK(cfg, init, s')
  {
    WinnersAfter(s, s', t, c);
    forall key | key in s'.remote ensures RemoteRowOK(cfg, init, s', key) {
      assert RemoteRowOK(cfg, init, s, key);
    }
    assert t in s.clients ==> ClientOK(cfg, s, s.clients[t]);
    forall id | id in s'.local ensures LocalRowOK(cfg, init, s', id) {
      assert LocalRowOK(cfg, init, s, id);
    }
  }

  lemma WinnersAfter(s: State, s': State, t: int, c: Client)
    requires ClientsApart(s) && s'.clients == s.clients[t := c]
    ensures Winners(s') == Winners(s) - AsSet(WinningOf(s, t)) + AsSet(Winning(c))
  {
    var expected := Winners(s) - AsSet(WinningOf(s, t)) + AsSet(Winning(c));
    forall id | id in expected ensures id in Winners(s') {
      if Winning(c) == Some(id) {
        assert t in s'.clients && s'.clients[t].Won?;
      } else {
        var u :| u in s.clients && s.clients[u].Won? && s.clients[u].job.mediaID == id;
        assert u in s'.clients && s'.clients[u] == s.clients[u];
      }
    }
    forall id | id in Winners(s') ensures id in expected {
      var u :| u in s'.clients && s'.clients[u].Won? && s'.clients[u].job.mediaID == id;
      assert u != t ==> u in s.clients && Winning(s.clients[u]) == Some(id);
    }
  }

  lemma OwnedFilesAfter(cfg: Config, s: State, s': State, t: int, c: Client)
    requires s'.clients == s.clients[t := c]
    ensures var gone := if OwnedBy(s, t).Some? then {cfg.fileOf(OwnedBy(s, t).value)} else {};
            var come := if Owned(c).Some? then {cfg.fileOf(Owned(c).value)} else {};
            OwnedFiles(cfg, s) - gone + come <= OwnedFiles(cfg, s')
  {
    forall file | file in OwnedFiles(cfg, s)
      ensures file in OwnedFiles(cfg, s') || (OwnedBy(s, t).Some? && file == cfg.fileOf(OwnedBy(s, t).value))
    {
      var u :| u in s.clients && Owned(s.clients[u]).Some? && cfg.fileOf(Owned(s.clients[u]).value) == file;
      assert u != t ==> u in s'.clients && Owned(s'.clients[u]) == Owned(s.clients[u]);
    }
    assert t in s'.clients && s'.clients[t] == c;
  }

  /** The place a client will rename onto, as long as nothing may be there yet. */
  function Awaited(c: Client): Option<Place> {
    if ((c.Ready? || c.Copying? || c.Sealed?) && !c.job.Put?) || c.Won? then Some(Target(c.job)) else None
  }

  /** What a step of t leaves alone, as far as another client's state c depends on it. */
  predicate Undisturbed(cfg: Config, s: State, s': State, c: Client) {
    && (Owned(c).Some? && cfg.fileOf(Owned(c).value) in s.files
        ==> Holds(cfg, s', Owned(c).value, s.files[cfg.fileOf(Owned(c).value)]))
    && (Claim(c).Some? ==> Unclaimed(s', Claim(c).value))
    && (Awaited(c).Some? ==> cfg.fileOf(Awaited(c).value) !in s'.files)
    && (c.Won? ==> c.job.mediaID !in s'.renameFailed)
    && (c.Finished? && c.answer.Stored? ==> IntactLocal(cfg, s', c.answer.mediaID))
  }

  /** Rows only appear, and only a reserved row changes, by being completed. */
  ghost predicate Grows(s: State, s': State) {
    && s.used <= s'.used
    && (forall key :: key in s.remote ==> key in s'.remote && s'.remote[key] == s.remote[key])
    && (forall id :: id in s.local ==> id in s'.local && (s.local[id].length.Some? ==> s'.local[id] == s.local[id]))
  }

  lemma OthersKeep(cfg: Config, s: State, s': State, t: int, c: Client)
    requires ClientsOK(cfg, s) && Grows(s, s') && s'.clients == s.clients[t := c]
    requires forall u :: u in s.clients && u != t ==> Undisturbed(cfg, s, s', s.clients[u])
    requires ClientOK(cfg, s', c)
    ensures ClientsOK(cfg, s')
  {
    forall u | u in s'.clients ensures ClientOK(cfg, s', s'.clients[u]) {
      if u != t {
        assert ClientOK(cfg, s, s.clients[u]) && Undisturbed(cfg, s, s', s.clients[u]);
      }
    }
  }

  /** The only file that changes is a temp file, new or owned by t. */
  ghost predicate OnlyTempChanges(cfg: Config, s: State, s': State, t: int, tmp: Place, c: Client) {
    && tmp.Temp? && WellNamed(tmp)
    && (if OwnedBy(s, t).None? then cfg.fileOf(tmp) !in s.files else OwnedBy(s, t) == Some(tmp))
    && (forall file :: file in s.files && file != cfg.fileOf(tmp) ==>
                         file in s'.files && s'.files[file] == s.files[file])
    && (forall file :: file in s'.files && file != cfg.fileOf(tmp) ==> file in s.files)
    && s'.local == s.local && s'.remote == s.remote && s'.used == s.used && s'.renameFailed == s.renameFailed
    && s'.clients == s.clients[t := c] && Winning(c) == WinningOf(s, t)
    && Owned(c) == Some(tmp) && Claim(c) == ClaimOf(s, t)
  }

  lemma KeepTemp(cfg: Config, init: State, s: State, s': State, t: int, tmp: Place, c: Client)
    requires Sound(cfg) && Inv(cfg, init, s)
    requires OnlyTempChanges(cfg, s, s', t, tmp, c) && ClientOK(cfg, s', c)
    ensures Inv(cfg, init, s')
  {
    TempFileKeepsClients(cfg, s, s', t, tmp, c);
    TempFileKeepsRows(cfg, init, s, s', t, tmp, c);
    TempFileKeepsApart(cfg, s, s', t, tmp, c);
    TempFileKeepsOwners(cfg, init, s, s', t, tmp, c);
  }

  lemma TempFileKeepsApart(cfg: Config, s: State, s': State, t: int, tmp: Place, c: Client)
    requires ClientsOK(cfg, s) && ClientsApart(s) && OnlyTempChanges(cfg, s, s', t, tmp, c)
    ensures ClientsApart(s')
  {
    forall u | u in s.clients && u != t ensures Owned(c) != Owned(s.clients[u]) {
      assert ClientOK(cfg, s, s.clients[u]);
    }
  }

  lemma TempFileKeepsOwners(cfg: Config, init: State, s: State, s': State, t: int, tmp: Place, c: Client)
    requires NoOrphans(cfg, init, s) && OnlyTempChanges(cfg, s, s', t, tmp, c)
    ensures NoOrphans(cfg, init, s')
  {
    OwnedFilesAfter(cfg, s, s', t, c);
    assert DescribedFiles(cfg, s') == DescribedFiles(cfg, s);
  }

  lemma TempFileKeepsClients(cfg: Config, s: State, s': State, t: int, tmp: Place, c: Client)
    requires Sound(cfg) && ClientsOK(cfg, s) && ClientsApart(s)
    requires OnlyTempChanges(cfg, s, s', t, tmp, c) && ClientOK(cfg, s', c)
    ensures ClientsOK(cfg, s')
  {
    forall u | u in s.clients && u != t ensures Undisturbed(cfg, s, s', s.clients[u]) {
      var cu := s.clients[u];
      assert ClientOK(cfg, s, cu);
      assert Owned(cu).Some? ==> cfg.fileOf(Owned(cu).value) != cfg.fileOf(tmp);
      assert Awaited(cu).Some? ==> WellNamed(Awaited(cu).value) && cfg.fileOf(Awaited(cu).value) != cfg.fileOf(tmp);
      if cu.Finished? && cu.answer.Stored? {
        assert cfg.fileOf(Local(cu.answer.mediaID)) != cfg.fileOf(tmp);
      }
    }
    OthersKeep(cfg, s, s', t, c);
  }

  lemma TempFileKeepsRows(cfg: Config, init: State, s: State, s': State, t: int, tmp: Place, c: Client)
    requires Sound(cfg) && ClientsApart(s) && UsedCovers(cfg, s) && RemoteRowsOK(cfg, init, s)
             && LocalRowsOK(cfg, init, s)
    requires OnlyTempChanges(cfg, s, s', t, tmp, c)
    ensures UsedCovers(cfg, s') && RemoteRowsOK(cfg, init, s') && LocalRowsOK(cfg, init, s')
  {
    WinnersAfter(s, s', t, c);
    forall key | key in s'.remote ensures RemoteRowOK(cfg, init, s', key) {
      assert RemoteRowOK(cfg, init, s, key);
    }
    forall id | id in s'.local ensures LocalRowOK(cfg, init, s', id) {
      assert LocalRowOK(cfg, init, s, id);
    }
  }

  lemma OpenTempChanges(cfg: Config, s: State, t: int, name: string)
    requires t in s.clients && s.clients[t].Ready? && ClientOK(cfg, s, s.clients[t])
    requires var tmp := TempOf(s.clients[t].job, name); WellNamed(tmp) && cfg.fileOf(tmp) !in s.files
    requires Sound(cfg)
    ensures var s' := DoOpenTemp(cfg, s, t, name, true);
            OnlyTempChanges(cfg, s, s', t, s'.clients[t].tmp, s'.clients[t]) && ClientOK(cfg, s', s'.clients[t])
  {
  }

  lemma AppendChanges(cfg: Config, s: State, t: int, chunk: seq<byte>)
    requires t in s.clients && s.clients[t].Copying? && ClientOK(cfg, s, s.clients[t])
    requires Sound(cfg)
    ensures var s' := DoAppend(cfg, s, t, chunk);
            OnlyTempChanges(cfg, s, s', t, s'.clients[t].tmp, s'.clients[t]) && ClientOK(cfg, s', s'.clients[t])
  {
  }

  // --- rename ---

  /** The step of t renames its temp file onto its target. */
  ghost predicate Renames(cfg: Config, s: State, s': State, t: int, c: Client) {
    && t in s.clients && (s.clients[t].Won? || (s.clients[t].Sealed? && !s.clients[t].job.Put?))
    && cfg.fileOf(s.clients[t].tmp) in s.files
    && s' == DoRename(cfg, s, t) && c == s'.clients[t]
  }

  lemma RenameGivesClient(cfg: Config, s: State, s': State, t: int, c: Client)
    requires Sound(cfg) && Renames(cfg, s, s', t, c) && ClientOK(cfg, s, s.clients[t])
    ensures ClientOK(cfg, s', c)
  {
    assert WellNamed(Target(s.clients[t].job));
  }

  /** What t renames onto is nobody else's target. */
  lemma TargetsApart(cfg: Config, s: State, s': State, t: int, c: Client, u: int)
    requires ClientsOK(cfg, s) && ClientsApart(s) && Renames(cfg, s, s', t, c)
    requires u in s.clients && u != t && Awaited(s.clients[u]).Some?
    ensures Awaited(s.clients[u]) != Some(Target(s.clients[t].job))
    ensures WellNamed(Awaited(s.clients[u]).value)
  {
    assert ClientOK(cfg, s, s.clients[u]) && ClientOK(cfg, s, s.clients[t]);
    assert Claim(s.clients[t]).Some? ==> Claim(s.clients[t]) != Claim(s.clients[u]);
    assert Winning(s.clients[t]).Some? ==> Winning(s.clients[t]) != Winning(s.clients[u]);
  }

  lemma RenameDisturbsNoOther(cfg: Config, s: State, s': State, t: int, c: Client, u: int)
    requires Sound(cfg) && ClientsOK(cfg, s) && ClientsApart(s) && Renames(cfg, s, s', t, c)
    requires u in s.clients && u != t
    ensures Undisturbed(cfg, s, s', s.clients[u])
  {
    var cu, ct := s.clients[u], s.clients[t];
    assert ClientOK(cfg, s, cu) && ClientOK(cfg, s, ct);
    if Awaited(cu).Some? {
      TargetsApart(cfg, s, s', t, c, u);
    }
    assert Owned(ct) == Some(ct.tmp) && Owned(ct) != Owned(cu);
    if cu.Finished? && cu.answer.Stored? {
      assert cfg.fileOf(Local(cu.answer.mediaID)) != cfg.fileOf(ct.tmp);
    }
  }

  lemma RenameKeepsClients(cfg: Config, s: State, s': State, t: int, c: Client)
    requires Sound(cfg) && ClientsOK(cfg, s) && ClientsApart(s) && Renames(cfg, s, s', t, c)
    ensures ClientsOK(cfg, s')
  {
    forall u | u in s.clients && u != t ensures Undisturbed(cfg, s, s', s.clients[u]) {
      RenameDisturbsNoOther(cfg, s, s', t, c, u);
    }
    assert ClientOK(cfg, s, s.clients[t]);
    RenameGivesClient(cfg, s, s', t, c);
    OthersKeep(cfg, s, s', t, c);
  }

  lemma RenameKeepsApart(cfg: Config, s: State, s': State, t: int, c: Client)
    requires ClientsOK(cfg, s) && ClientsApart(s) && Renames(cfg, s, s', t, c)
    ensures ClientsApart(s')
  {
    assert ClientOK(cfg, s, s.clients[t]);
    forall u | u in s.clients && u != t
      ensures (Owned(c).Some? ==> Owned(c) != Owned(s.clients[u]))
              && (Claim(c).Some? ==> Claim(c) != Claim(s.clients[u]))
    {
      assert ClientOK(cfg, s, s.clients[u]);
    }
  }

  lemma RenameKeepsRows(cfg: Config, init: State, s: State, s': State, t: int, c: Client)
    requires Sound(cfg) && ClientsOK(cfg, s) && ClientsApart(s) && UsedCovers(cfg, s)
    requires RemoteRowsOK(cfg, init, s) && LocalRowsOK(cfg, init, s) && Renames(cfg, s, s', t, c)
    ensures UsedCovers(cfg, s') && RemoteRowsOK(cfg, init, s') && LocalRowsOK(cfg, init, s')
  {
    var ct := s.clients[t];
    assert ClientOK(cfg, s, ct);
    WinnersAfter(s, s', t, c);
    forall key | key in s'.remote ensures RemoteRowOK(cfg, init, s', key) {
      assert RemoteRowOK(cfg, init, s, key);
    }
    forall id | id in s'.local ensures LocalRowOK(cfg, init, s', id) {
      assert LocalRowOK(cfg, init, s, id);
    }
  }

  lemma RenameKeepsOwners(cfg: Config, init: State, s: State, s': State, t: int, c: Client)
    requires ClientsOK(cfg, s) && NoOrphans(cfg, init, s) && Renames(cfg, s, s', t, c)
    ensures NoOrphans(cfg, init, s')
  {
    assert ClientOK(cfg, s, s.clients[t]);
    OwnedFilesAfter(cfg, s, s', t, c);
    assert DescribedFiles(cfg, s') == DescribedFiles(cfg, s);
  }

  lemma KeepRename(cfg: Config, init: State, s: State, s': State, t: int, c: Client)
    requires Sound(cfg) && Inv(cfg, init, s) && Renames(cfg, s, s', t, c)
    ensures Inv(cfg, init, s')
  {
    RenameKeepsClients(cfg, s, s', t, c);
    RenameKeepsApart(cfg, s, s', t, c);
    RenameKeepsRows(cfg, init, s, s', t, c);
    RenameKeepsOwners(cfg, init, s, s', t, c);
  }

  lemma WinnersHaveRows(cfg: Config, s: State)
    requires ClientsOK(cfg, s)
    ensures forall id :: id in Winners(s) ==> id in s.local && s.local[id].length.Some?
  {
    forall id | id in Winners(s) ensures id in s.local && s.local[id].length.Some? {
      var u :| u in s.clients && s.clients[u].Won? && s.clients[u].job.mediaID == id;
      assert ClientOK(cfg, s, s.clients[u]);
    }
  }

  // --- insert ---

  ghost predicate InsertsRemote(cfg: Config, s: State, s': State, t: int, c: Client) {
    && t in s.clients && s.clients[t].InPlace? && s.clients[t].job.Fetch?
    && (s.clients[t].job.origin, s.clients[t].job.mediaID) !in s.remote
    && s' == DoInsert(cfg, s, t, false) && c == s'.clients[t]
  }

  lemma InsertRemoteKeepsClients(cfg: Config, s: State, s': State, t: int, c: Client)
    requires Sound(cfg) && ClientsOK(cfg, s) && ClientsApart(s) && InsertsRemote(cfg, s, s', t, c)
    ensures ClientsOK(cfg, s') && ClientsApart(s')
  {
    assert ClientOK(cfg, s, s.clients[t]);
    forall u | u in s.clients && u != t ensures Undisturbed(cfg, s, s', s.clients[u]) {
      assert ClientOK(cfg, s, s.clients[u]);
      assert Claim(s.clients[t]) != Claim(s.clients[u]);
    }
    OthersKeep(cfg, s, s', t, c);
  }

  lemma InsertRemoteKeepsRows(cfg: Config, init: State, s: State, s': State, t: int, c: Client)
    requires Sound(cfg) && ClientsOK(cfg, s) && ClientsApart(s) && UsedCovers(cfg, s)
    requires RemoteRowsOK(cfg, init, s) && LocalRowsOK(cfg, init, s) && InsertsRemote(cfg, s, s', t, c)
    ensures UsedCovers(cfg, s') && RemoteRowsOK(cfg, init, s') && LocalRowsOK(cfg, init, s')
  {
    assert ClientOK(cfg, s, s.clients[t]);
    WinnersAfter(s, s', t, c);
    forall key | key in s'.remote ensures RemoteRowOK(cfg, init, s', key) {
      assert key in s.remote ==> RemoteRowOK(cfg, init, s, key);
    }
    forall id | id in s'.local ensures LocalRowOK(cfg, init, s', id) {
      assert LocalRowOK(cfg, init, s, id);
    }
  }

  lemma InsertRemoteKeepsOwners(cfg: Config, init: State, s: State, s': State, t: int, c: Client)
    requires NoOrphans(cfg, init, s) && InsertsRemote(cfg, s, s', t, c)
    ensures NoOrphans(cfg, init, s')
  {
    OwnedFilesAfter(cfg, s, s', t, c);
    var job := s.clients[t].job;
    assert (job.origin, job.mediaID) in s'.remote;
    forall file | file in DescribedFiles(cfg, s) ensures file in DescribedFiles(cfg, s') {
      if key :| key in s.remote && cfg.fileOf(Remote(key.0, s.remote[key].fsid)) == file {
        assert key in s'.remote && s'.remote[key] == s.remote[key];
      }
    }
  }

  lemma KeepInsertRemote(cfg: Config, init: State, s: State, s': State, t: int, c: Client)
    requires Sound(cfg) && Inv(cfg, init, s) && InsertsRemote(cfg, s, s', t, c)
    ensures Inv(cfg, init, s')
  {
    InsertRemoteKeepsClients(cfg, s, s', t, c);
    InsertRemoteKeepsRows(cfg, init, s, s', t, c);
    InsertRemoteKeepsOwners(cfg, init, s, s', t, c);
  }

  /** A local row appears or is completed: a synchronous insert, or a PUT that wins. */
  ghost predicate WritesLocal(cfg: Config, s: State, s': State, t: int, c: Client) {
    && t in s.clients
    && (if s.clients[t].InPlace? then
          s.clients[t].job.Sync? && s.clients[t].job.mediaID !in s.local && s' == DoInsert(cfg, s, t, false)
        else
          && s.clients[t].Sealed? && s.clients[t].job.Put? && s.clients[t].job.mediaID in s.local
          && s.local[s.clients[t].job.mediaID].length.None? && s' == DoComplete(cfg, s, t, false))
    && c == s'.clients[t]
  }

  lemma WriteLocalKeepsClients(cfg: Config, s: State, s': State, t: int, c: Client)
    requires Sound(cfg) && ClientsOK(cfg, s) && ClientsApart(s) && WritesLocal(cfg, s, s', t, c)
    requires s.renameFailed <= s.local.Keys
    requires forall id :: id in s.local && s.local[id].length.None? ==>
                            cfg.fileOf(Local(id)) !in s.files && id !in s.renameFailed
    ensures ClientsOK(cfg, s')
  {
    assert ClientOK(cfg, s, s.clients[t]);
    forall u | u in s.clients && u != t ensures Undisturbed(cfg, s, s', s.clients[u]) {
      assert ClientOK(cfg, s, s.clients[u]);
      assert Claim(s.clients[t]).Some? ==> Claim(s.clients[t]) != Claim(s.clients[u]);
    }
    OthersKeep(cfg, s, s', t, c);
  }

  lemma WriteLocalKeepsApart(cfg: Config, s: State, s': State, t: int, c: Client)
    requires ClientsOK(cfg, s) && ClientsApart(s) && WritesLocal(cfg, s, s', t, c)
    ensures ClientsApart(s')
  {
    forall u | u in s.clients && u != t ensures Winning(c).Some? ==> Winning(c) != Winning(s.clients[u]) {
      assert ClientOK(cfg, s, s.clients[u]);
    }
  }

  lemma WriteLocalKeepsRemote(cfg: Config, init: State, s: State, s': State, t: int, c: Client)
    requires ClientsOK(cfg, s) && UsedCovers(cfg, s) && RemoteRowsOK(cfg, init, s) && WritesLocal(cfg, s, s', t, c)
    ensures UsedCovers(cfg, s') && RemoteRowsOK(cfg, init, s')
  {
    assert ClientOK(cfg, s, s.clients[t]);
    forall key | key in s'.remote ensures RemoteRowOK(cfg, init, s', key) {
      assert RemoteRowOK(cfg, init, s, key);
    }
  }

  lemma WriteLocalKeepsLocal(cfg: Config, init: State, s: State, s': State, t: int, c: Client)
    requires ClientsOK(cfg, s) && ClientsApart(s) && LocalRowsOK(cfg, init, s) && WritesLocal(cfg, s, s', t, c)
    ensures LocalRowsOK(cfg, init, s')
  {
    var mine := s.clients[t].job.mediaID;
    assert ClientOK(cfg, s, s.clients[t]);
    WinnersAfter(s, s', t, c);
    WinnersHaveRows(cfg, s);
    forall id | id in s'.local ensures LocalRowOK(cfg, init, s', id) {
      assert id in s.local ==> LocalRowOK(cfg, init, s, id);
    }
  }

  lemma WriteLocalKeepsOwners(cfg: Config, init: State, s: State, s': State, t: int, c: Client)
    requires NoOrphans(cfg, init, s) && WritesLocal(cfg, s, s', t, c)
    ensures NoOrphans(cfg, init, s')
  {
    OwnedFilesAfter(cfg, s, s', t, c);
    assert s.clients[t].job.mediaID in s'.local;
    forall file | file in DescribedFiles(cfg, s) ensures file in DescribedFiles(cfg, s') {
      if id :| id in s.local && s.local[id].length.Some? && cfg.fileOf(Local(id)) == file {
        assert id in s'.local && s'.local[id].length.Some?;
      }
    }
  }

  lemma KeepWriteLocal(cfg: Config, init: State, s: State, s': State, t: int, c: Client)
    requires Sound(cfg) && Inv(cfg, init, s) && WritesLocal(cfg, s, s', t, c)
    ensures Inv(cfg, init, s')
  {
    forall id | id in s.local && s.local[id].length.None?
      ensures cfg.fileOf(Local(id)) !in s.files && id !in s.renameFailed
    {
      assert LocalRowOK(cfg, init, s, id);
    }
    WriteLocalKeepsClients(cfg, s, s', t, c);
    WriteLocalKeepsApart(cfg, s, s', t, c);
    WriteLocalKeepsRemote(cfg, init, s, s', t, c);
    WriteLocalKeepsLocal(cfg, init, s, s', t, c);
    WriteLocalKeepsOwners(cfg, init, s, s', t, c);
  }

  // --- remove ---

  ghost predicate Removes(cfg: Config, s: State, s': State, t: int, c: Client) {
    && t in s.clients && s.clients[t].Removing? && s' == DoRemove(cfg, s, t) && c == s'.clients[t]
  }

  lemma RemoveKeepsClients(cfg: Config, s: State, s': State, t: int, c: Client)
    requires Sound(cfg) && ClientsOK(cfg, s) && ClientsApart(s) && Removes(cfg, s, s', t, c)
    ensures ClientsOK(cfg, s') && ClientsApart(s')
  {
    assert ClientOK(cfg, s, s.clients[t]);
    forall u | u in s.clients && u != t ensures Undisturbed(cfg, s, s', s.clients[u]) {
      assert ClientOK(cfg, s, s.clients[u]);
      assert Owned(s.clients[t]) != Owned(s.clients[u]);
    }
    OthersKeep(cfg, s, s', t, c);
  }

  lemma RemoveKeepsRows(cfg: Config, init: State, s: State, s': State, t: int, c: Client)
    requires Sound(cfg) && ClientsOK(cfg, s) && ClientsApart(s) && UsedCovers(cfg, s)
    requires RemoteRowsOK(cfg, init, s) && LocalRowsOK(cfg, init, s) && Removes(cfg, s, s', t, c)
    ensures UsedCovers(cfg, s') && RemoteRowsOK(cfg, init, s') && LocalRowsOK(cfg, init, s')
  {
    assert ClientOK(cfg, s, s.clients[t]);
    WinnersAfter(s, s', t, c);
    forall key | key in s'.remote ensures RemoteRowOK(cfg, init, s', key) {
      assert RemoteRowOK(cfg, init, s, key);
    }
    forall id | id in s'.local ensures LocalRowOK(cfg, init, s', id) {
      assert LocalRowOK(cfg, init, s, id);
    }
  }

  lemma RemoveKeepsOwners(cfg: Config, init: State, s: State, s': State, t: int, c: Client)
    requires NoOrphans(cfg, init, s) && Removes(cfg, s, s', t, c)
    ensures NoOrphans(cfg, init, s')
  {
    OwnedFilesAfter(cfg, s, s', t, c);
    assert DescribedFiles(cfg, s') == DescribedFiles(cfg, s);
  }

  lemma KeepRemove(cfg: Config, init: State, s: State, s': State, t: int, c: Client)
    requires Sound(cfg) && Inv(cfg, init, s) && Removes(cfg, s, s', t, c)
    ensures Inv(cfg, init, s')
  {
    RemoveKeepsClients(cfg, s, s', t, c);
    RemoveKeepsRows(cfg, init, s, s', t, c);
    RemoveKeepsOwners(cfg, init, s, s', t, c);
  }

  // --- create ---

  lemma KeepCreate(cfg: Config, init: State, s: State, id: string)
    requires Sound(cfg) && Inv(cfg, init, s) && Fresh(s, id)
    ensures Inv(cfg, init, s.(used := s.used + {id}, local := s.local[id := LocalRow(None, "")]))
  {
    var s' := s.(used := s.used + {id}, local := s.local[id := LocalRow(None, "")]);
    CreateKeepsClients(cfg, s, s', id);
    CreateKeepsRows(cfg, init, s, s', id);
    assert OwnedFiles(cfg, s') == OwnedFiles(cfg, s);
    forall file | file in DescribedFiles(cfg, s) ensures file in DescribedFiles(cfg, s') {
      if i :| i in s.local && s.local[i].length.Some? && cfg.fileOf(Local(i)) == file {
        assert i in s'.local && s'.local[i].length.Some?;
      }
    }
  }

  lemma CreateKeepsClients(cfg: Config, s: State, s': State, id: string)
    requires ClientsOK(cfg, s) && ClientsApart(s) && Fresh(s, id) && UsedCovers(cfg, s)
    requires s' == s.(used := s.used + {id}, local := s.local[id := LocalRow(None, "")])
    ensures ClientsOK(cfg, s') && ClientsApart(s')
  {
    forall u | u in s'.clients ensures ClientOK(cfg, s', s'.clients[u]) {
      assert ClientOK(cfg, s, s.clients[u]);
    }
  }

  lemma CreateKeepsRows(cfg: Config, init: State, s: State, s': State, id: string)
    requires Fresh(s, id) && UsedCovers(cfg, s) && ClientsOK(cfg, s)
    requires RemoteRowsOK(cfg, init, s) && LocalRowsOK(cfg, init, s)
    requires s' == s.(used := s.used + {id}, local := s.local[id := LocalRow(None, "")])
    ensures UsedCovers(cfg, s') && RemoteRowsOK(cfg, init, s') && LocalRowsOK(cfg, init, s')
  {
    assert Winners(s') == Winners(s);
    WinnersHaveRows(cfg, s);
    forall key | key in s'.remote ensures RemoteRowOK(cfg, init, s', key) {
      assert RemoteRowOK(cfg, init, s, key);
    }
    forall i | i in s'.local ensures LocalRowOK(cfg, init, s', i) {
      assert i in s.local ==> LocalRowOK(cfg, init, s, i);
    }
  }

  // --- all steps ---

  /** What a step that only moves its client needs to know. */
  ghost predicate Known(cfg: Config, s: State, t: int) {
    && UsedCovers(cfg, s)
    && (t in s.clients ==> ClientOK(cfg, s, s.clients[t]))
    && (forall id :: id in s.local && s.local[id].length.None? ==> PlainID(id))
  }

  lemma BeginFetchStep(cfg: Config, s: State, t: int, origin: string, mediaID: string, dbFails: bool)
    requires Known(cfg, s, t) && t !in s.clients
    ensures var s' := DoBeginFetch(s, t, origin, mediaID, dbFails); Moves(cfg, s, s', t, s'.clients[t])
  {
  }

  lemma StatStep(cfg: Config, s: State, t: int)
    requires Known(cfg, s, t) && t in s.clients && s.clients[t].Statting?
    ensures var s' := DoStat(cfg, s, t); Moves(cfg, s, s', t, s'.clients[t])
  {
  }

  lemma RereadStep(cfg: Config, s: State, t: int, dbFails: bool)
    requires Known(cfg, s, t) && t in s.clients && s.clients[t].Rereading?
    ensures var s' := DoReread(s, t, dbFails); Moves(cfg, s, s', t, s'.clients[t])
  {
  }

  lemma ChooseStep(cfg: Config, s: State, t: int, fsid: string, ok: bool)
    requires Known(cfg, s, t) && t in s.clients && s.clients[t].Choosing? && Fresh(s, fsid)
    ensures var s' := DoChooseID(s, t, fsid, ok); Moves(cfg, s, s', t, s'.clients[t])
  {
  }

  lemma UploadSteps(cfg: Config, s: State, t: int, id: string, flag: bool)
    requires Known(cfg, s, t) && t !in s.clients
    ensures Fresh(s, id) ==>
              var s' := Move(s.(used := s.used + {id}), t, Ready(Sync(id))); Moves(cfg, s, s', t, s'.clients[t])
    ensures var s' := DoBeginPut(s, t, id, flag); Moves(cfg, s, s', t, s'.clients[t])
  {
  }

  lemma NoTempStep(cfg: Config, s: State, t: int, name: string)
    requires Known(cfg, s, t) && t in s.clients && s.clients[t].Ready?
    ensures var s' := DoOpenTemp(cfg, s, t, name, false); Moves(cfg, s, s', t, s'.clients[t])
  {
  }

  lemma GiveUpStep(cfg: Config, s: State, t: int)
    requires Known(cfg, s, t) && t in s.clients && (s.clients[t].Copying? || s.clients[t].Sealed?)
    ensures var s' := Move(s, t, Removing(s.clients[t].tmp, Answering(Failed))); Moves(cfg, s, s', t, s'.clients[t])
  {
  }

  lemma SealStep(cfg: Config, s: State, t: int, ok: bool)
    requires Known(cfg, s, t) && t in s.clients && s.clients[t].Copying?
    ensures var s' := DoSeal(cfg, s, t, ok); Moves(cfg, s, s', t, s'.clients[t])
  {
  }

  lemma FailRenameStep(cfg: Config, s: State, t: int)
    requires Known(cfg, s, t) && t in s.clients && (s.clients[t].Sealed? || s.clients[t].Won?)
    ensures var s' := DoFailRename(s, t); Moves(cfg, s, s', t, s'.clients[t])
  {
  }

  lemma LoseInsertStep(cfg: Config, s: State, t: int, dbFails: bool)
    requires Known(cfg, s, t) && t in s.clients && s.clients[t].InPlace?
    requires var job := s.clients[t].job;
             dbFails || if job.Fetch? then (job.origin, job.mediaID) in s.remote else job.mediaID in s.local
    ensures var s' := DoInsert(cfg, s, t, dbFails); Moves(cfg, s, s', t, s'.clients[t])
  {
  }

  lemma LoseCompleteStep(cfg: Config, s: State, t: int, dbFails: bool)
    requires Known(cfg, s, t) && t in s.clients && s.clients[t].Sealed? && s.clients[t].job.Put?
    requires var id := s.clients[t].job.mediaID; dbFails || id !in s.local || s.local[id].length.Some?
    ensures var s' := DoComplete(cfg, s, t, dbFails); Moves(cfg, s, s', t, s'.clients[t])
  {
  }

  lemma InvGivesKnown(cfg: Config, init: State, s: State, t: int)
    requires Inv(cfg, init, s)
    ensures Known(cfg, s, t)
  {
    forall id | id in s.local && s.local[id].length.None? ensures PlainID(id) {
      assert LocalRowOK(cfg, init, s, id);
    }
  }

  function Actor(step: Step): int {
    if step.Create? then 0 else step.t
  }

  /** Steps that begin a handler. */
  lemma BeginKeeps(cfg: Config, init: State, s: State, step: Step)
    requires Sound(cfg) && Inv(cfg, init, s) && Enabled(cfg, s, step)
    requires step.BeginFetch? || step.BeginSync? || step.BeginPut? || step.Create?
    ensures Inv(cfg, init, Next(cfg, s, step))
  {
    var s', t := Next(cfg, s, step), Actor(step);
    InvGivesKnown(cfg, init, s, t);
    match step {
      case BeginFetch(_, origin, mediaID, dbFails) => BeginFetchStep(cfg, s, t, origin, mediaID, dbFails);
      case BeginSync(_, id) => UploadSteps(cfg, s, t, id, false);
      case BeginPut(_, id, refused) => UploadSteps(cfg, s, t, id, refused);
      case Create(id) => KeepCreate(cfg, init, s, id); return;
    }
    KeepMove(cfg, init, s, s', t, s'.clients[t]);
  }

  /** Steps of a running handler that write no row. */
  lemma WorkKeeps(cfg: Config, init: State, s: State, step: Step)
    requires Sound(cfg) && Inv(cfg, init, s) && Enabled(cfg, s, step)
    requires step.Stat? || step.ChooseID? || step.Reread? || step.Stop? || step.BreakOff? || step.Refuse? || step.Seal?
    ensures Inv(cfg, init, Next(cfg, s, step))
  {
    var s', t := Next(cfg, s, step), Actor(step);
    InvGivesKnown(cfg, init, s, t);
    match step {
      case Stat(_) => StatStep(cfg, s, t);
      case ChooseID(_, fsid, ok) => ChooseStep(cfg, s, t, fsid, ok);
      case Reread(_, dbFails) => RereadStep(cfg, s, t, dbFails);
      case Seal(_, ok) => SealStep(cfg, s, t, ok);
      case BreakOff(_) => GiveUpStep(cfg, s, t);
      case Refuse(_) => GiveUpStep(cfg, s, t);
      case Stop(_) => StopStep(cfg, s, t);
    }
    KeepMove(cfg, init, s, s', t, s'.clients[t]);
  }

  lemma StopStep(cfg: Config, s: State, t: int)
    requires Known(cfg, s, t) && t in s.clients
    ensures Moves(cfg, s, s.(stopped := s.stopped + {t}), t, s.clients[t])
  {
  }

  /** Steps that write a file. */
  lemma FileStepKeeps(cfg: Config, init: State, s: State, step: Step)
    requires Sound(cfg) && Inv(cfg, init, s) && Enabled(cfg, s, step)
    requires step.OpenTemp? || step.Append? || step.Rename? || step.Remove?
    ensures Inv(cfg, init, Next(cfg, s, step))
  {
    var s', t := Next(cfg, s, step), Actor(step);
    InvGivesKnown(cfg, init, s, t);
    var c := s'.clients[t];
    match step {
      case OpenTemp(_, name, true) =>
        OpenTempChanges(cfg, s, t, name);
        KeepTemp(cfg, init, s, s', t, c.tmp, c);
      case OpenTemp(_, name, false) =>
        NoTempStep(cfg, s, t, name);
        KeepMove(cfg, init, s, s', t, c);
      case Append(_, chunk) =>
        AppendChanges(cfg, s, t, chunk);
        KeepTemp(cfg, init, s, s', t, c.tmp, c);
      case Rename(_, true) => KeepRename(cfg, init, s, s', t, c);
      case Rename(_, false) =>
        FailRenameStep(cfg, s, t);
        KeepMove(cfg, init, s, s', t, c);
      case Remove(_) => KeepRemove(cfg, init, s, s', t, c);
    }
  }

  /** Steps that write a row. */
  lemma RowStepKeeps(cfg: Config, init: State, s: State, step: Step)
    requires Sound(cfg) && Inv(cfg, init, s) && Enabled(cfg, s, step)
    requires step.Insert? || step.Complete?
    ensures Inv(cfg, init, Next(cfg, s, step))
  {
    var s', t := Next(cfg, s, step), Actor(step);
    var job, c := s.clients[t].job, s'.clients[t];
    InvGivesKnown(cfg, init, s, t);
    assert ClientOK(cfg, s, s.clients[t]);
    var taken := if job.Fetch? then (job.origin, job.mediaID) in s.remote else job.mediaID in s.local;
    if step.dbFails || (step.Insert? && taken) {
      if step.Insert? { LoseInsertStep(cfg, s, t, step.dbFails); } else { LoseCompleteStep(cfg, s, t, step.dbFails); }
      KeepMove(cfg, init, s, s', t, c);
    } else if step.Complete? && (job.mediaID !in s.local || s.local[job.mediaID].length.Some?) {
      LoseCompleteStep(cfg, s, t, false);
      KeepMove(cfg, init, s, s', t, c);
    } else if job.Fetch? {
      KeepInsertRemote(cfg, init, s, s', t, c);
    } else {
      KeepWriteLocal(cfg, init, s, s', t, c);
    }
  }

  lemma StepKeeps(cfg: Config, init: State, s: State, step: Step)
    requires Sound(cfg) && Inv(cfg, init, s) && Enabled(cfg, s, step)
    ensures Inv(cfg, init, Next(cfg, s, step))
  {
    if step.BeginFetch? || step.BeginSync? || step.BeginPut? || step.Create? {
      BeginKeeps(cfg, init, s, step);
    } else if step.OpenTemp? || step.Append? || step.Rename? || step.Remove? {
      FileStepKeeps(cfg, init, s, step);
    } else if step.Insert? || step.Complete? {
      RowStepKeeps(cfg, init, s, step);
    } else {
      WorkKeeps(cfg, init, s, step);
    }
  }

  // --- whole runs -------------------------------------------------------------------------------

  ghost predicate Steps(cfg: Config, s: State, step: Step, s': State) {
    Enabled(cfg, s, step) && s' == Next(cfg, s, step)
  }

  /** A run: any finite interleaving of any clients' steps. */
  ghost predicate IsRun(cfg: Config, states: seq<State>, steps: seq<Step>) {
    Runs.IsRun(s => Initial(cfg, s), (s, l, s') => Steps(cfg, s, l, s'), states, steps)
  }

  lemma RunInv(cfg: Config, states: seq<State>, steps: seq<Step>, i: nat)
    requires Sound(cfg) && IsRun(cfg, states, steps) && i < |states|
    ensures Inv(cfg, states[0], states[i])
  {
    var init := states[0];
    InitialInv(cfg, init);
    forall s, l, s' | Inv(cfg, init, s) && Steps(cfg, s, l, s') ensures Inv(cfg, init, s') {
      StepKeeps(cfg, init, s, l);
    }
    Runs.Invariant(s => Initial(cfg, s), (s, l, s') => Steps(cfg, s, l, s'), s => Inv(cfg, init, s), states, steps, i);
  }

  /** The i-th step of a run starts from a state that satisfies the invariant. */
  lemma RunStep(cfg: Config, states: seq<State>, steps: seq<Step>, i: nat)
    requires Sound(cfg) && IsRun(cfg, states, steps) && i < |steps|
    ensures Steps(cfg, states[i], steps[i], states[i + 1])
    ensures Inv(cfg, states[0], states[i])
  {
    RunInv(cfg, states, steps, i);
  }

  lemma OtherStepsGrow(cfg: Config, s: State, step: Step)
    requires Enabled(cfg, s, step) && !step.Insert? && !step.Complete? && !step.Create?
    ensures Grows(s, Next(cfg, s, step))
  {
  }

  /** Rows only come into being, and a row with a length never changes. */
  lemma StepGrows(cfg: Config, s: State, step: Step)
    requires Enabled(cfg, s, step) && UsedCovers(cfg, s)
    ensures Grows(s, Next(cfg, s, step))
  {
    if !step.Insert? && !step.Complete? && !step.Create? {
      OtherStepsGrow(cfg, s, step);
    }
  }

  lemma RowsPersist(cfg: Config, states: seq<State>, steps: seq<Step>, i: nat, j: nat)
    requires Sound(cfg) && IsRun(cfg, states, steps) && i <= j < |states|
    ensures Grows(states[i], states[j])
  {
    var init := states[0];
    InitialInv(cfg, init);
    forall s, l, s' | Inv(cfg, init, s) && Steps(cfg, s, l, s') ensures Inv(cfg, init, s') && Grows(s, s') {
      StepKeeps(cfg, init, s, l);
      StepGrows(cfg, s, l);
    }
    Runs.Monotone(s => Initial(cfg, s), (s, l, s') => Steps(cfg, s, l, s'), s => Inv(cfg, init, s),
                  (s, s') => Grows(s, s'), states, steps, i, j);
  }

  /** There is a row with a length, whose file has a name the worker could give it. */
  predicate Described(cfg: Config, s: State, key: (string, string)) {
    key in s.remote && s.remote[key].length.Some? && WellNamed(Remote(key.0, s.remote[key].fsid))
  }

  predicate IsThere(cfg: Config, s: State, place: Place) {
    cfg.fileOf(place) in s.files
  }

  /** The row's file is there: what a request for it looks for before it fetches. */
  predicate Available(cfg: Config, s: State, key: (string, string)) {
    Described(cfg, s, key) && IsThere(cfg, s, Remote(key.0, s.remote[key].fsid))
  }

  /**
   Nobody takes the file of a row away, or puts one where it is missing: what is renamed is a temp file, to
   the place of an ID no row carries, and what is removed is no row's.
   */
  lemma StepKeepsFile(cfg: Config, init: State, s: State, step: Step, key: (string, string))
    requires Sound(cfg) && Inv(cfg, init, s) && Enabled(cfg, s, step) && Described(cfg, s, key)
    ensures Described(cfg, Next(cfg, s, step), key) && Next(cfg, s, step).remote[key] == s.remote[key]
    ensures var place := Remote(key.0, s.remote[key].fsid);
            IsThere(cfg, s, place) <==> IsThere(cfg, Next(cfg, s, step), place)
  {
    StepGrows(cfg, s, step);
    var place := Remote(key.0, s.remote[key].fsid);
    if !step.Create? && step.t in s.clients {
      assert ClientOK(cfg, s, s.clients[step.t]);
    }
    if step.Rename? && step.ok {
      assert Target(s.clients[step.t].job) != place;
      RenameLeaves(cfg, s, step.t, place);
    } else if step.Remove? {
      assert s.clients[step.t].what != place;
    } else {
      OnlyTempFiles(cfg, s, step, place);
    }
  }

  lemma RenameLeaves(cfg: Config, s: State, t: int, place: Place)
    requires Sound(cfg) && t in s.clients && (s.clients[t].Sealed? || s.clients[t].Won?)
    requires ClientOK(cfg, s, s.clients[t]) && WellNamed(place) && !place.Temp? && Target(s.clients[t].job) != place
    ensures IsThere(cfg, s, place) <==> IsThere(cfg, DoRename(cfg, s, t), place)
  {
  }

  lemma OnlyTempFiles(cfg: Config, s: State, step: Step, place: Place)
    requires Sound(cfg) && Enabled(cfg, s, step) && !step.Remove? && !(step.Rename? && step.ok)
    requires !step.Create? && step.t in s.clients ==> ClientOK(cfg, s, s.clients[step.t])
    requires WellNamed(place) && !place.Temp?
    ensures IsThere(cfg, s, place) <==> IsThere(cfg, Next(cfg, s, step), place)
  {
    if !step.OpenTemp? && !step.Append? {
      FilesStay(cfg, s, step);
    }
  }

  /**
   Remote media. In every reachable state, a row of the run, or one that was backed at the start,
   names a file with the row's length and hash; and its filesystem ID never changes again.
   */
  lemma RemoteRowsAreBacked(cfg: Config, states: seq<State>, steps: seq<Step>, i: nat, j: nat, key: (string, string))
    requires Sound(cfg) && IsRun(cfg, states, steps) && i <= j < |states|
    requires key in states[i].remote && (key in states[0].remote ==> IntactRemote(cfg, states[0], key))
    ensures IntactRemote(cfg, states[j], key)
    ensures states[j].remote[key] == states[i].remote[key]
  {
    RowsPersist(cfg, states, steps, i, j);
    RunInv(cfg, states, steps, j);
    assert RemoteRowOK(cfg, states[0], states[j], key);
  }

  /**
   Winners and losers of the race for one remote media ID all answer with the row that is in
   the table, hence with one filesystem ID; and unless that row was already broken when the run
   began its file is intact, so no loser's cleanup touched it.
   */
  lemma FetchersAgree(cfg: Config, states: seq<State>, steps: seq<Step>, i: nat, j: nat, t: int, u: int,
                      origin: string, mediaID: string, row: RemoteRow, row': RemoteRow)
    requires Sound(cfg) && IsRun(cfg, states, steps) && i <= j < |states|
    requires t in states[i].clients && states[i].clients[t] == Finished(Got(origin, mediaID, row))
    requires u in states[j].clients && states[j].clients[u] == Finished(Got(origin, mediaID, row'))
    ensures (origin, mediaID) in states[j].remote && row == row' == states[j].remote[(origin, mediaID)]
    ensures ((origin, mediaID) in states[0].remote ==> IntactRemote(cfg, states[0], (origin, mediaID))) ==>
              IntactRemote(cfg, states[j], (origin, mediaID))
  {
    RunInv(cfg, states, steps, i);
    RunInv(cfg, states, steps, j);
    assert ClientOK(cfg, states[i], states[i].clients[t]) && ClientOK(cfg, states[j], states[j].clients[u]);
    RowsPersist(cfg, states, steps, i, j);
    assert RemoteRowOK(cfg, states[0], states[j], (origin, mediaID));
  }

  /** CompleteLocalMedia affects a row: this PUT wins the media ID. */
  predicate Wins(s: State, step: Step, id: string) {
    && step.Complete? && !step.dbFails && step.t in s.clients && s.clients[step.t].Sealed?
    && s.clients[step.t].job == Put(id) && id in s.local && s.local[id].length.None?
  }

  /** Over a whole run at most one PUT wins a media ID. */
  lemma AtMostOneWinner(cfg: Config, states: seq<State>, steps: seq<Step>, i: nat, j: nat, id: string)
    requires Sound(cfg) && IsRun(cfg, states, steps) && i < j < |steps|
    requires Wins(states[i], steps[i], id)
    ensures !Wins(states[j], steps[j], id)
  {
    assert states[i + 1].local[id].length.Some?;
    RowsPersist(cfg, states, steps, i + 1, j);
  }

  /** Only the winner's own rename touches the file of a media ID that has a row. */
  lemma OnlyTheWinnerTouches(cfg: Config, states: seq<State>, steps: seq<Step>, i: nat, id: string)
    requires Sound(cfg) && IsRun(cfg, states, steps) && i < |steps|
    requires id in states[i].local && PlainID(id)
    ensures var s, s', file := states[i], states[i + 1], cfg.fileOf(Local(id));
            || (if file in s.files then Holds(cfg, s', Local(id), s.files[file]) else file !in s'.files)
            || (steps[i].Rename? && steps[i].ok && Winning(s.clients[steps[i].t]) == Some(id) && file !in s.files)
  {
    var s, step := states[i], steps[i];
    RunStep(cfg, states, steps, i);
    if !step.Create? && Actor(step) in s.clients {
      assert ClientOK(cfg, s, s.clients[Actor(step)]);
    }
    TouchesOwn(cfg, s, step, id);
  }

  lemma TouchesOwn(cfg: Config, s: State, step: Step, id: string)
    requires Sound(cfg) && Enabled(cfg, s, step) && id in s.local && PlainID(id)
    requires !step.Create? && Actor(step) in s.clients ==> ClientOK(cfg, s, s.clients[Actor(step)])
    ensures var s', file := Next(cfg, s, step), cfg.fileOf(Local(id));
            || (if file in s.files then Holds(cfg, s', Local(id), s.files[file]) else file !in s'.files)
            || (step.Rename? && step.ok && Winning(s.clients[step.t]) == Some(id) && file !in s.files)
  {
    if step.Rename? && step.ok {
      assert WellNamed(Target(s.clients[step.t].job));
    } else if !step.OpenTemp? && !step.Append? && !step.Remove? {
      FilesStay(cfg, s, step);
    }
  }

  lemma FilesStay(cfg: Config, s: State, step: Step)
    requires Enabled(cfg, s, step) && !step.OpenTemp? && !step.Append? && !step.Remove? && !(step.Rename? && step.ok)
    ensures Next(cfg, s, step).files == s.files
  {
  }

  /**
   A completed row lacks its file exactly while its winner stands between the UPDATE and the rename
   (for good, if that client stopped there), and once that rename has failed. A file that is there
   has the row's length and hash.
   */
  lemma CompletedRows(cfg: Config, states: seq<State>, steps: seq<Step>, i: nat, id: string)
    requires Sound(cfg) && IsRun(cfg, states, steps) && i < |states|
    requires id in states[i].local && states[i].local[id].length.Some? && !BrokenBefore(cfg, states[0], id)
    ensures IntactLocal(cfg, states[i], id) <==> cfg.fileOf(Local(id)) in states[i].files
    ensures cfg.fileOf(Local(id)) !in states[i].files <==>
            || (exists t :: t in states[i].clients && Winning(states[i].clients[t]) == Some(id))
            || FailedBefore(states, steps, i, id)
  {
    RunInv(cfg, states, steps, i);
    var s := states[i];
    assert LocalRowOK(cfg, states[0], s, id);
    RenameFailedBefore(cfg, states, steps, i, id);
    WinnersExactly(s, id);
  }

  lemma WinnersExactly(s: State, id: string)
    ensures id in Winners(s) <==> exists t :: t in s.clients && Winning(s.clients[t]) == Some(id)
  {
    if id in Winners(s) {
      var t :| t in s.clients && s.clients[t].Won? && s.clients[t].job.mediaID == id;
      assert Winning(s.clients[t]) == Some(id);
    }
  }

  /** The winner of the media ID fails to rename. */
  ghost predicate WinnerRenameFails(s: State, step: Step, id: string) {
    step.Rename? && !step.ok && step.t in s.clients && Winning(s.clients[step.t]) == Some(id)
  }

  /** It did so earlier in the run. */
  ghost predicate FailedBefore(states: seq<State>, steps: seq<Step>, i: nat, id: string)
    requires i < |states| == |steps| + 1
  {
    exists k :: 0 <= k < i && WinnerRenameFails(states[k], steps[k], id)
  }

  lemma NewlyFailed(cfg: Config, s: State, step: Step, s': State, id: string)
    requires Steps(cfg, s, step, s')
    ensures id in s'.renameFailed <==> id in s.renameFailed || WinnerRenameFails(s, step, id)
  {
  }

  lemma {:induction false} RenameFailedBefore(cfg: Config, states: seq<State>, steps: seq<Step>, i: nat, id: string)
    requires IsRun(cfg, states, steps) && i < |states|
    ensures id in states[i].renameFailed <==> FailedBefore(states, steps, i, id)
  {
    if i > 0 {
      assert Steps(cfg, states[i - 1], steps[i - 1], states[i]);
      NewlyFailed(cfg, states[i - 1], steps[i - 1], states[i], id);
      RenameFailedBefore(cfg, states, steps, i - 1, id);
      if FailedBefore(states, steps, i, id) {
        var k :| 0 <= k < i && WinnerRenameFails(states[k], steps[k], id);
        assert k < i - 1 ==> FailedBefore(states, steps, i - 1, id);
      }
    }
  }

  /** An upload that answered success is readable, whole, for the rest of the run. */
  lemma StoredStaysReadable(cfg: Config, states: seq<State>, steps: seq<Step>, i: nat, t: int, id: string)
    requires Sound(cfg) && IsRun(cfg, states, steps) && i < |states|
    requires t in states[i].clients && states[i].clients[t] == Finished(Stored(id))
    ensures IntactLocal(cfg, states[i], id)
  {
    RunInv(cfg, states, steps, i);
    assert ClientOK(cfg, states[i], states[i].clients[t]);
  }

  /**
   No litter. A file that was not there before and that no row describes belongs to a client that
   has not finished; so once every client has finished there is none, whichever of their steps
   failed.
   */
  lemma NoLitter(cfg: Config, states: seq<State>, steps: seq<Step>, i: nat, file: string)
    requires Sound(cfg) && IsRun(cfg, states, steps) && i < |states|
    requires file in states[i].files && file !in states[0].files
    ensures || file in DescribedFiles(cfg, states[i])
            || exists t :: t in states[i].clients && !states[i].clients[t].Finished?
                           && Owned(states[i].clients[t]).Some? && cfg.fileOf(Owned(states[i].clients[t]).value) == file
  {
    RunInv(cfg, states, steps, i);
    if file !in DescribedFiles(cfg, states[i]) {
      AnswerableFor(cfg, states[0], states[i], file);
    }
  }

  lemma AnswerableFor(cfg: Config, init: State, s: State, file: string)
    requires NoOrphans(cfg, init, s) && file in s.files && file !in init.files && file !in DescribedFiles(cfg, s)
    ensures exists t :: t in s.clients && !s.clients[t].Finished?
                        && Owned(s.clients[t]).Some? && cfg.fileOf(Owned(s.clients[t]).value) == file
  {
    assert file in OwnedFiles(cfg, s);
    var t :| t in s.clients && Owned(s.clients[t]).Some? && cfg.fileOf(Owned(s.clients[t]).value) == file;
    assert !s.clients[t].Finished?;
  }

  /**
   In particular no temp file outlives its handler: one that is there, and was not when the run
   began, is owned by a client that has not finished, and by no other.
   */
  lemma NoTempLeft(cfg: Config, states: seq<State>, steps: seq<Step>, i: nat, tmp: Place)
    requires Sound(cfg) && IsRun(cfg, states, steps) && i < |states|
    requires tmp.Temp? && WellNamed(tmp)
    requires cfg.fileOf(tmp) !in states[0].files && cfg.fileOf(tmp) !in DescribedFiles(cfg, states[0])
    ensures cfg.fileOf(tmp) in states[i].files ==>
              exists t :: Owns(states[i], t, tmp) && forall u :: Owns(states[i], u, tmp) ==> u == t
  {
    if cfg.fileOf(tmp) in states[i].files {
      NoLitter(cfg, states, steps, i, cfg.fileOf(tmp));
      RunInv(cfg, states, steps, i);
      NoRowNamesTemp(cfg, states[0], states[i], tmp);
      var s := states[i];
      var t :| t in s.clients && !s.clients[t].Finished? && Owned(s.clients[t]).Some?
               && cfg.fileOf(Owned(s.clients[t]).value) == cfg.fileOf(tmp);
      assert ClientOK(cfg, s, s.clients[t]);
      assert Owns(s, t, tmp);
    }
  }

  /** Client t has yet to rename or remove the file. */
  predicate Owns(s: State, t: int, p: Place) {
    t in s.clients && !s.clients[t].Finished? && Owned(s.clients[t]) == Some(p)
  }

  lemma NoRowNamesTemp(cfg: Config, init: State, s: State, tmp: Place)
    requires Sound(cfg) && RemoteRowsOK(cfg, init, s) && LocalRowsOK(cfg, init, s)
    requires tmp.Temp? && WellNamed(tmp) && cfg.fileOf(tmp) !in DescribedFiles(cfg, init)
    ensures cfg.fileOf(tmp) !in DescribedFiles(cfg, s)
  {
    forall key | key in s.remote ensures cfg.fileOf(Remote(key.0, s.remote[key].fsid)) != cfg.fileOf(tmp) {
      assert RemoteRowOK(cfg, init, s, key);
    }
    forall id | id in s.local && s.local[id].length.Some? ensures cfg.fileOf(Local(id)) != cfg.fileOf(tmp) {
      assert LocalRowOK(cfg, init, s, id);
    }
  }

  // --- the protocol over real paths ---------------------------------------------------------------

  /** The naming of paths.go meets what the protocol asks of it. */
  lemma RealPathsAreSound(base: seq<string>, hash: seq<byte> -> string, maxBytes: nat)
    requires PathNames.Names(base) && base != []
    ensures Sound(OverPaths(base, hash, maxBytes))
  {
    var cfg := OverPaths(base, hash, maxBytes);
    forall p: Place, q: Place {:trigger cfg.fileOf(p), cfg.fileOf(q)} |
      WellNamed(p) && WellNamed(q) && cfg.fileOf(p) == cfg.fileOf(q)
      ensures p == q
    {
      FileOfWellNamed(base, p);
      FileOfWellNamed(base, q);
      FilesAreDistinct(base, p, q);
    }
  }

  function OverPaths(base: seq<string>, hash: seq<byte> -> string, maxBytes: nat): Config {
    Config(p => match FileOf(base, p) case Some(file) => file case None => "", hash, maxBytes)
  }
}
