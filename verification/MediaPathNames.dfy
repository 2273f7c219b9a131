/**
 paths.go: where a media ID's file lives, the jail around the store, and the write guard.
 A store's base directory is given by its components; Render(base) is the string the code holds.
 */
module MediaPathNames {
  import opened Common
  import opened PathNames

  type PathResult = Result<string, string>

  predicate ValidChar(c: char) {
    || 'a' <= c <= 'z' || 'A' <= c <= 'Z' || '0' <= c <= '9'
    || c == '_' || c == '-' || c == '.' || c == '[' || c == ']' || c == ':'
  }

  /** validatePathComponent. */
  predicate ValidComponent(c: string) {
    c != "" && c != "." && c != ".." && forall i :: 0 <= i < |c| ==> ValidChar(c[i])
  }

  /** shard accepts exactly these. */
  predicate Shardable(id: string) {
    ValidComponent(id) && |id| >= 5
  }

  function Shards(id: string): seq<string>
    requires Shardable(id)
  {
    [id[0..2], id[2..4], id[4..]]
  }

  /** join: assemble, clean, and refuse what left the base directory. */
  function Join(base: seq<string>, components: seq<string>): PathResult {
    var full := Clean(Render(base) + Tail(components));
    if full != Render(base) && !HasPrefix(full, Render(base) + "/") then Err("escapes media store") else Ok(full)
  }

  function LocalMedia(base: seq<string>, mediaID: string): PathResult {
    if !Shardable(mediaID) then Err("cannot shard") else Join(base, ["local_content"] + Shards(mediaID))
  }

  function RemoteMedia(base: seq<string>, server: string, filesystemID: string): PathResult {
    if !ValidComponent(server) then Err("invalid component")
    else if !Shardable(filesystemID) then Err("cannot shard")
    else Join(base, ["remote_content", server] + Shards(filesystemID))
  }

  // --- what join answers ----------------------------------------------------------------

  predicate Plain(c: string) {
    c != "" && c != "." && c != ".."
  }

  lemma {:induction false} ResolveIsShorter(stack: seq<string>, cs: seq<string>)
    ensures |Resolve(stack, cs)| <= |stack| + |cs|
    ensures (exists i :: 0 <= i < |cs| && !Plain(cs[i])) ==> |Resolve(stack, cs)| < |stack| + |cs|
    decreases |cs|
  {
    if cs != [] {
      var next := if cs[0] == "" || cs[0] == "." then stack
                  else if cs[0] == ".." then (if stack == [] then [] else stack[..|stack| - 1])
                  else stack + [cs[0]];
      ResolveIsShorter(next, cs[1..]);
      if i :| 0 <= i < |cs| && !Plain(cs[i]) {
        assert i > 0 ==> !Plain(cs[1..][i - 1]);
      }
    }
  }

  /** The path components a list of elements, which may hold slashes themselves, amounts to. */
  function Parts(elements: seq<string>): seq<string> {
    if elements == [] then [] else Split(elements[0]) + Parts(elements[1..])
  }

  lemma {:induction false} PartsSpellTail(elements: seq<string>)
    ensures Tail(Parts(elements)) == Tail(elements)
    ensures forall c :: c in Parts(elements) ==> SlashFree(c)
  {
    if elements != [] {
      var first, rest := elements[0], elements[1..];
      PartsSpellTail(rest);
      SplitSlashFree(first);
      JoinSplit(first);
      TailConcat(Split(first), Parts(rest));
      Assoc("/", Split(first)[0], Tail(Split(first)[1..]));
    }
  }

  lemma {:induction false} PartsOfSlashFree(elements: seq<string>)
    requires forall c :: c in elements ==> SlashFree(c)
    ensures Parts(elements) == elements
  {
    if elements != [] {
      SplitFirst(elements[0], "");
      PartsOfSlashFree(elements[1..]);
    }
  }

  /** An accepted path is in the store, whatever the elements; a store at the file system root accepts only itself. */
  lemma JoinStaysInside(base: seq<string>, elements: seq<string>)
    requires Names(base)
    ensures var full := Resolve(base, Parts(elements));
            && (Join(base, elements).Ok? <==> full == base || (base != [] && base < full))
            && (Join(base, elements).Ok? ==> Join(base, elements).value == Render(full) && Names(full))
  {
    var full := Resolve(base, Parts(elements));
    PartsSpellTail(elements);
    CleanJoin(base, Parts(elements));
    BelowByPrefix(base, full);
    if Render(full) == Render(base) {
      RenderInjective(full, base);
    }
  }

  /** The same for elements without slashes. */
  lemma JoinOfComponents(base: seq<string>, cs: seq<string>)
    requires Names(base) && forall c :: c in cs ==> SlashFree(c)
    ensures Join(base, cs).Ok? <==> Resolve(base, cs) == base || (base != [] && base < Resolve(base, cs))
    ensures Join(base, cs).Ok? ==> Join(base, cs).value == Render(Resolve(base, cs)) && Names(Resolve(base, cs))
  {
    PartsOfSlashFree(cs);
    JoinStaysInside(base, cs);
  }

  /** The components appear as they are exactly when none of them is a dot name. */
  lemma JoinIsVerbatim(base: seq<string>, cs: seq<string>)
    requires Names(base) && base != [] && cs != [] && forall c :: c in cs ==> SlashFree(c)
    ensures Join(base, cs) == Ok(Render(base + cs)) && Names(base + cs) <==> forall i :: 0 <= i < |cs| ==> Plain(cs[i])
  {
    JoinOfComponents(base, cs);
    if forall i :: 0 <= i < |cs| ==> Plain(cs[i]) {
      forall i | 0 <= i < |cs| ensures Name(cs[i]) {
        assert cs[i] in cs && Plain(cs[i]);
      }
      ResolveClean(base, cs);
    } else {
      ResolveIsShorter(base, cs);
      if Join(base, cs) == Ok(Render(base + cs)) && Names(base + cs) {
        RenderInjective(Resolve(base, cs), base + cs);
      }
    }
  }

  // --- injectivity ----------------------------------------------------------------------

  predicate Letter(c: char) {
    'a' <= c <= 'z' || 'A' <= c <= 'Z'
  }

  /** An ID as newFilesystemID makes it: letters only (it makes 24 of them). */
  predicate LetterID(id: string) {
    |id| >= 5 && forall i :: 0 <= i < |id| ==> Letter(id[i])
  }

  predicate PlainShard(id: string, k: nat)
    requires k < 3
  {
    Shardable(id) && Plain(Shards(id)[k])
  }

  /** An ID none of whose shards is a dot name. */
  predicate PlainID(id: string) {
    forall k: nat :: k < 3 ==> PlainShard(id, k)
  }

  lemma PlainShards(id: string)
    requires PlainID(id)
    ensures Shardable(id) && Names(Shards(id)) && id == Shards(id)[0] + Shards(id)[1] + Shards(id)[2]
  {
    assert PlainShard(id, 0) && PlainShard(id, 1) && PlainShard(id, 2);
    assert forall i :: 0 <= i < |id| ==> ValidChar(id[i]);
  }

  /** The worker's own IDs are of that kind. */
  lemma ShardsArePlain(id: string)
    requires LetterID(id)
    ensures PlainID(id)
  {
    assert Letter(id[0]) && Letter(id[2]) && Letter(id[4]);
    assert forall i :: 0 <= i < |id| ==> Letter(id[i]) && ValidChar(id[i]);
    forall k: nat | k < 3 ensures PlainShard(id, k) {
      assert Shards(id)[k][0] == id[2 * k];
    }
  }

  lemma ValidIsName(c: string)
    requires ValidComponent(c)
    ensures Name(c)
  {
    assert forall i :: 0 <= i < |c| ==> ValidChar(c[i]) && c[i] != '/';
  }

  /** A file the worker can name: local media, remote media, or a temp file of one of the two trees. */
  datatype Place =
    | Local(mediaID: string)
    | Remote(server: string, filesystemID: string)
    | Temp(remote: bool, name: string)

  predicate WellNamed(p: Place) {
    match p
    case Local(id) => PlainID(id)
    case Remote(server, fsid) => ValidComponent(server) && PlainID(fsid)
    case Temp(_, name) => ValidComponent(name)
  }

  function Components(p: Place): seq<string>
    requires WellNamed(p)
  {
    match p
    case Local(id) => assert PlainShard(id, 0); ["local_content"] + Shards(id)
    case Remote(server, fsid) => assert PlainShard(fsid, 0); ["remote_content", server] + Shards(fsid)
    case Temp(remote, name) => [if remote then "remote_content" else "local_content", ".tmp", name]
  }

  /** The path string of a place, or None where paths.go reports an error. */
  function FileOf(base: seq<string>, p: Place): Option<string> {
    var r := match p
             case Local(id) => LocalMedia(base, id)
             case Remote(server, fsid) => RemoteMedia(base, server, fsid)
             case Temp(remote, name) =>
               Join(base, [if remote then "remote_content" else "local_content", ".tmp", name]);
    if r.Ok? then Some(r.value) else None
  }

  lemma FileOfWellNamed(base: seq<string>, p: Place)
    requires Names(base) && base != [] && WellNamed(p)
    ensures Names(base + Components(p))
    ensures FileOf(base, p) == Some(Render(base + Components(p)))
  {
    var cs := Components(p);
    match p {
      case Local(id) => PlainShards(id);
      case Remote(server, fsid) => PlainShards(fsid); ValidIsName(server);
      case Temp(_, name) => ValidIsName(name);
    }
    forall i | 0 <= i < |cs| ensures Name(cs[i]) {
      match p {
        case Local(id) => assert i > 0 ==> Name(Shards(id)[i - 1]);
        case Remote(server, fsid) => assert i > 1 ==> Name(Shards(fsid)[i - 2]);
        case Temp(_, name) =>
      }
    }
    assert forall i :: 0 <= i < |cs| ==> Name(cs[i]) && Plain(cs[i]);
    JoinIsVerbatim(base, cs);
  }

  /** The path of local media and of remote media, in Synapse's layout. */
  lemma PathsAreSynapses(base: seq<string>, server: string, id: string)
    requires Names(base) && base != [] && LetterID(id) && ValidComponent(server)
    ensures var shards := ("/" + id[0..2]) + ("/" + id[2..4]) + ("/" + id[4..]);
            && LocalMedia(base, id) == Ok(Render(base) + ("/" + "local_content") + shards)
            && RemoteMedia(base, server, id) == Ok(Render(base) + ("/" + "remote_content") + ("/" + server) + shards)
  {
    ShardsArePlain(id);
    PlainShards(id);
    FileOfWellNamed(base, Local(id));
    FileOfWellNamed(base, Remote(server, id));
    TailOfThree(id[0..2], id[2..4], id[4..]);
    RenderBelow(base, "local_content", Shards(id));
    RenderBelowTwo(base, "remote_content", server, Shards(id));
  }

  lemma RenderBelow(base: seq<string>, top: string, rest: seq<string>)
    requires base != []
    ensures Render(base + ([top] + rest)) == Render(base) + ("/" + top) + Tail(rest)
  {
    TailConcat(base, [top] + rest);
    assert ([top] + rest)[1..] == rest;
  }

  lemma RenderBelowTwo(base: seq<string>, top: string, next: string, rest: seq<string>)
    requires base != []
    ensures Render(base + ([top, next] + rest)) == Render(base) + ("/" + top) + ("/" + next) + Tail(rest)
  {
    RenderOne(base, top);
    RenderBelow(base + [top], next, rest);
    assert (base + [top]) + ([next] + rest) == base + ([top, next] + rest);
  }

  lemma RenderOne(base: seq<string>, top: string)
    requires base != []
    ensures Render(base + [top]) == Render(base) + ("/" + top)
  {
    TailConcat(base, [top]);
    assert [top][1..] == [];
  }

  lemma TailOfThree(a: string, b: string, c: string)
    ensures Tail([a, b, c]) == ("/" + a) + ("/" + b) + ("/" + c)
  {
    assert [a, b, c][1..] == [b, c] && [b, c][1..] == [c] && [c][1..] == [];
    assert Tail([c]) == "/" + c && Tail([b, c]) == ("/" + b) + ("/" + c);
  }

  /** Distinct places are distinct files. */
  lemma FilesAreDistinct(base: seq<string>, p: Place, q: Place)
    requires Names(base) && base != [] && WellNamed(p) && WellNamed(q)
    requires FileOf(base, p) == FileOf(base, q)
    ensures p == q
  {
    FileOfWellNamed(base, p);
    FileOfWellNamed(base, q);
    RenderInjective(base + Components(p), base + Components(q));
    var cs, ds := Components(p), Components(q);
    assert cs == (base + cs)[|base|..] == (base + ds)[|base|..] == ds;
    match p {
      case Local(id) => {
        PlainShards(id);
        assert cs[1..] == Shards(id);
        assert q.Local?;
        PlainShards(q.mediaID);
        assert ds[1..] == Shards(q.mediaID);
      }
      case Remote(server, fsid) => {
        PlainShards(fsid);
        assert cs[2..] == Shards(fsid);
        assert q.Remote?;
        PlainShards(q.filesystemID);
        assert ds[2..] == Shards(q.filesystemID);
      }
      case Temp(_, name) => assert cs[2] == ds[2] && cs[0] == ds[0];
    }
  }

  // --- which IDs share a file -----------------------------------------------------------------

  /** One component on top of a resolved stack. */
  function Push(stack: seq<string>, c: string): seq<string> {
    if c == "" || c == "." then stack
    else if c == ".." then (if stack == [] then [] else stack[..|stack| - 1])
    else stack + [c]
  }

  lemma {:induction false} ResolveLast(stack: seq<string>, cs: seq<string>, c: string)
    ensures Resolve(stack, cs + [c]) == Push(Resolve(stack, cs), c)
  {
    ResolveConcat(stack, cs, [c]);
    assert [c][1..] == [];
  }

  function Land(dir: seq<string>, a: string, b: string, c: string): seq<string> {
    Push(Push(Push(dir, a), b), c)
  }

  /** Where the shards of an ID lead from a directory. */
  function Landing(dir: seq<string>, id: string): seq<string>
    requires Shardable(id)
  {
    Land(dir, id[0..2], id[2..4], id[4..])
  }

  lemma Lands(base: seq<string>, top: seq<string>, id: string)
    requires Names(base) && Names(top) && Shardable(id)
    ensures Resolve(base, top + Shards(id)) == Landing(base + top, id)
    ensures forall c :: c in top + Shards(id) ==> SlashFree(c)
  {
    var a, b, c := id[0..2], id[2..4], id[4..];
    ResolveClean(base, top);
    ResolveLast(base, top, a);
    ResolveLast(base, top + [a], b);
    ResolveLast(base, top + [a] + [b], c);
    assert top + [a] + [b] + [c] == top + Shards(id);
    assert forall i :: 0 <= i < |id| ==> ValidChar(id[i]);
    forall x | x in top + Shards(id) ensures SlashFree(x) {
      var i :| 0 <= i < |top + Shards(id)| && (top + Shards(id))[i] == x;
      assert i < |top| ==> Name(top[i]);
    }
  }

  lemma LocalLands(base: seq<string>, id: string)
    requires Names(base) && base != [] && Shardable(id)
    ensures var full := Landing(base + ["local_content"], id);
            && (LocalMedia(base, id).Ok? <==> full == base || base < full)
            && (LocalMedia(base, id).Ok? ==> LocalMedia(base, id).value == Render(full) && Names(full))
  {
    Lands(base, ["local_content"], id);
    JoinOfComponents(base, ["local_content"] + Shards(id));
  }

  /** The shards that make an ID share its file: one that erases what another ID has in its place. */
  predicate Erases(id: string)
    requires Shardable(id)
  {
    id[2..4] == ".." || id[4..] == ".."
  }

  function Replaced(id: string, at: nat, two: string): (r: string)
    requires at + 2 <= |id| && |two| == 2
    ensures |r| == |id| && r[at..at + 2] == two
    ensures forall i :: 0 <= i < |id| && !(at <= i < at + 2) ==> r[i] == id[i]
  {
    id[..at] + two + id[at + 2..]
  }

  /** Two letters other than these two characters. */
  function Other(two: string): string {
    if two == "aa" then "zz" else "aa"
  }

  /** Another ID that leads to the same file, where a shard erases. */
  function Twin(id: string): string
    requires Shardable(id) && Erases(id)
  {
    if id[0..2] == ".." && id[2..4] == ".." then "aa...."
    else if id[2..4] == ".." then Replaced(id, 0, Other(id[0..2]))
    else Replaced(id, 2, Other(id[2..4]))
  }

  lemma ReplacedShards(id: string, at: nat, two: string)
    requires Shardable(id) && (at == 0 || at == 2) && (two == "aa" || two == "zz") && id[at..at + 2] != two
    ensures var r := Replaced(id, at, two);
            && Shardable(r) && r != id && r[4..] == id[4..]
            && r[0..2] == (if at == 0 then two else id[0..2]) && r[2..4] == (if at == 2 then two else id[2..4])
  {
    var r := Replaced(id, at, two);
    assert two[0] == r[at] && two[1] == r[at + 1];
    assert r[0..2] == [r[0], r[1]] && r[2..4] == [r[2], r[3]] && two == [two[0], two[1]];
    assert id[0..2] == [id[0], id[1]] && id[2..4] == [id[2], id[3]];
    assert forall i :: 0 <= i < |id| ==> ValidChar(id[i]);
    assert forall i :: 0 <= i < |r| ==> ValidChar(r[i]);
  }

  lemma DottedShards()
    ensures var twin := "aa....";
            Shardable(twin) && twin[0..2] == "aa" && twin[2..4] == ".." && twin[4..] == ".."
  {
    var twin := "aa....";
    assert twin[0..2] == [twin[0], twin[1]] && twin[2..4] == [twin[2], twin[3]] && twin[4..] == [twin[4], twin[5]];
  }

  lemma TwinLands(dir: seq<string>, id: string)
    requires |dir| > 1 && Shardable(id) && Erases(id)
    requires Landing(dir, id) == dir[..|dir| - 1] || dir[..|dir| - 1] < Landing(dir, id)
    ensures Shardable(Twin(id)) && Twin(id) != id && Landing(dir, Twin(id)) == Landing(dir, id)
  {
    var a, b, c := id[0..2], id[2..4], id[4..];
    if a == ".." && b == ".." {
      DottedShards();
      assert "aa...."[0] != id[0];
      BothErase(dir, c);
      UpFrom(dir, "aa", "..");
    } else if b == ".." {
      ReplacedShards(id, 0, Other(a));
      UpFrom(dir, a, c);
      UpFrom(dir, Other(a), c);
    } else {
      ReplacedShards(id, 2, Other(b));
      BackTo(dir, a, b);
      BackTo(dir, a, Other(b));
    }
  }

  lemma UpFrom(dir: seq<string>, a: string, c: string)
    requires |a| == 2 && a != ".."
    ensures Land(dir, a, "..", c) == Push(dir, c)
  {
    assert (dir + [a])[..|dir|] == dir;
  }

  lemma BackTo(dir: seq<string>, a: string, b: string)
    requires |b| == 2 && b != ".."
    ensures Land(dir, a, b, "..") == Push(dir, a)
  {
    var stack := Push(dir, a);
    assert (stack + [b])[..|stack|] == stack;
  }

  /** Two erasing shards leave the store, unless the third brings them back to its base. */
  lemma BothErase(dir: seq<string>, c: string)
    requires |dir| > 1 && c != ""
    requires var base, full := dir[..|dir| - 1], Land(dir, "..", "..", c); full == base || base < full
    ensures Land(dir, "..", "..", c) == dir[..|dir| - 1]
  {
    var base := dir[..|dir| - 1];
    assert Push(Push(dir, ".."), "..") == base[..|base| - 1];
  }

  lemma ErasingLands(base: seq<string>, top: string, a: string, b: string, c: string)
    requires base != [] && |a| == |b| == 2 && (b == ".." || c == "..")
    ensures var full := Land(base + [top], a, b, c);
            |full| <= |base| || (full[|base|] == top && |full| <= |base| + 2)
  {
    var dir := base + [top];
    if b == ".." && a == ".." {
      assert Push(dir, "..") == base;
    } else if b == ".." {
      UpFrom(dir, a, c);
    } else {
      BackTo(dir, a, b);
    }
  }

  lemma PlainLands(base: seq<string>, top: string, a: string, b: string, c: string)
    requires |a| == |b| == 2 && c != "" && b != ".." && c != ".."
    ensures Land(base + [top], a, b, c) ==
            base + (if a == ".." then [b] else [top, a, b]) + (if c == "." then [] else [c])
  {
    var dir := base + [top];
    assert dir[..|dir| - 1] == base;
    if a == ".." {
      assert Push(Push(dir, a), b) == base + [b];
    } else {
      assert Push(Push(dir, a), b) == base + [top, a, b];
    }
  }

  lemma SamePlain(base: seq<string>, top: string, a: string, b: string, c: string, a': string, b': string, c': string)
    requires |a| == |b| == |a'| == |b'| == 2 && |top| > 2 && c != "" && c' != ""
    requires b != ".." && c != ".." && b' != ".." && c' != ".."
    requires Land(base + [top], a, b, c) == Land(base + [top], a', b', c')
    ensures a == a' && b == b' && c == c'
  {
    PlainLands(base, top, a, b, c);
    PlainLands(base, top, a', b', c');
    var n := |base|;
    var full := Land(base + [top], a, b, c);
    assert full[n] == if a == ".." then b else top;
    assert full[n] == if a' == ".." then b' else top;
    assert a != ".." ==> full[n + 1] == a == a' && full[n + 2] == b == b';
    var k := if a == ".." then n + 1 else n + 3;
    assert |full| == (if c == "." then k else k + 1) == (if c' == "." then k else k + 1);
    assert c != "." ==> full[k] == c == c';
  }

  /** An ID with no erasing shard lands where no other ID does. */
  lemma LandsAlone(base: seq<string>, id: string, other: string)
    requires base != [] && Shardable(id) && Shardable(other) && !Erases(id)
    requires Landing(base + ["local_content"], other) == Landing(base + ["local_content"], id)
    ensures other == id
  {
    var top := "local_content";
    PlainLands(base, top, id[0..2], id[2..4], id[4..]);
    var full := Landing(base + [top], id);
    assert full[|base|] == if id[0..2] == ".." then id[2..4] else top;
    if Erases(other) {
      ErasingLands(base, top, other[0..2], other[2..4], other[4..]);
    } else {
      SamePlain(base, top, id[0..2], id[2..4], id[4..], other[0..2], other[2..4], other[4..]);
      assert id == id[0..2] + id[2..4] + id[4..] && other == other[0..2] + other[2..4] + other[4..];
    }
  }

  /**
   An ID whose path join accepts shares its file with another ID that validatePathComponent
   accepts if and only if its second or third shard is a dot-dot.
   */
  lemma SharedExactly(base: seq<string>, id: string)
    requires Names(base) && base != [] && Shardable(id) && LocalMedia(base, id).Ok?
    ensures (exists other :: Shardable(other) && other != id && LocalMedia(base, other) == LocalMedia(base, id))
            <==> Erases(id)
  {
    LocalLands(base, id);
    if Erases(id) {
      TwinLands(base + ["local_content"], id);
      LocalLands(base, Twin(id));
    } else {
      forall other | Shardable(other) && LocalMedia(base, other) == LocalMedia(base, id) ensures other == id {
        LocalLands(base, other);
        RenderInjective(Landing(base + ["local_content"], other), Landing(base + ["local_content"], id));
        LandsAlone(base, id, other);
      }
    }
  }

  lemma RemoteLands(base: seq<string>, server: string, id: string)
    requires Names(base) && base != [] && ValidComponent(server) && Shardable(id)
    ensures var full, r := Landing(base + ["remote_content", server], id), RemoteMedia(base, server, id);
            && (r.Ok? <==> full == base || base < full)
            && (r.Ok? ==> r.value == Render(full) && Names(full))
  {
    ValidIsName(server);
    Lands(base, ["remote_content", server], id);
    JoinOfComponents(base, ["remote_content", server] + Shards(id));
  }

  lemma RemotePlainLands(base: seq<string>, server: string, id: string)
    requires Shardable(id) && id[0..2] != ".." && !Erases(id)
    ensures Landing(base + ["remote_content", server], id) ==
            base + ["remote_content", server, id[0..2], id[2..4]] + (if id[4..] == "." then [] else [id[4..]])
  {
    var dir, a, b := base + ["remote_content", server], id[0..2], id[2..4];
    assert Push(Push(dir, a), b) == base + ["remote_content", server, a, b];
  }

  lemma RemoteErasingLands(base: seq<string>, server: string, id: string)
    requires base != [] && Shardable(id) && (id[0..2] == ".." || Erases(id))
    ensures |Landing(base + ["remote_content", server], id)| <= |base| + 3
  {
    var dir, a, b, c := base + ["remote_content", server], id[0..2], id[2..4], id[4..];
    if a == ".." {
      assert |Push(dir, a)| == |base| + 1;
    } else if b == ".." {
      UpFrom(dir, a, c);
    } else {
      BackTo(dir, a, b);
    }
  }

  lemma RemoteLandsAlone(base: seq<string>, server: string, id: string, server': string, id': string)
    requires base != [] && Shardable(id) && Shardable(id') && id[0..2] != ".." && !Erases(id)
    requires Landing(base + ["remote_content", server'], id') == Landing(base + ["remote_content", server], id)
    ensures server' == server && id' == id
  {
    RemotePlainLands(base, server, id);
    var n, full := |base|, Landing(base + ["remote_content", server], id);
    assert full[n + 1] == server && full[n + 2] == id[0..2] && full[n + 3] == id[2..4];
    assert id[4..] != "." ==> full[n + 4] == id[4..];
    if id'[0..2] == ".." || Erases(id') {
      RemoteErasingLands(base, server', id');
    } else {
      RemotePlainLands(base, server', id');
      assert full[n + 1] == server' && full[n + 2] == id'[0..2] && full[n + 3] == id'[2..4];
      assert id'[4..] != "." ==> full[n + 4] == id'[4..];
      assert id == id[0..2] + id[2..4] + id[4..] && id' == id'[0..2] + id'[2..4] + id'[4..];
    }
  }

  lemma RemoteTwin(base: seq<string>, server: string, id: string) returns (server': string, id': string)
    requires base != [] && ValidComponent(server) && Shardable(id) && (id[0..2] == ".." || Erases(id))
    ensures ValidComponent(server') && Shardable(id') && (server', id') != (server, id)
    ensures Landing(base + ["remote_content", server'], id') == Landing(base + ["remote_content", server], id)
  {
    var dir := base + ["remote_content", server];
    server', id' := server, id;
    if id[0..2] == ".." {
      server' := if server == "a" then "b" else "a";
      assert Push(dir, "..") == base + ["remote_content"] == Push(base + ["remote_content", server'], "..");
    } else if id[2..4] == ".." {
      id' := Replaced(id, 0, Other(id[0..2]));
      ReplacedShards(id, 0, Other(id[0..2]));
      UpFrom(dir, id[0..2], id[4..]);
      UpFrom(dir, Other(id[0..2]), id[4..]);
    } else {
      id' := Replaced(id, 2, Other(id[2..4]));
      ReplacedShards(id, 2, Other(id[2..4]));
      BackTo(dir, id[0..2], id[2..4]);
      BackTo(dir, id[0..2], Other(id[2..4]));
    }
  }

  /** Of remote media, a server and an ID share their file with another pair if and only if any shard is a dot-dot. */
  lemma RemoteSharedExactly(base: seq<string>, server: string, id: string)
    requires Names(base) && base != [] && ValidComponent(server) && Shardable(id) && RemoteMedia(base, server, id).Ok?
    ensures (exists server', id' :: ValidComponent(server') && Shardable(id') && (server', id') != (server, id)
                                    && RemoteMedia(base, server', id') == RemoteMedia(base, server, id))
            <==> id[0..2] == ".." || Erases(id)
  {
    RemoteLands(base, server, id);
    if id[0..2] == ".." || Erases(id) {
      var server', id' := RemoteTwin(base, server, id);
      RemoteLands(base, server', id');
    } else {
      forall server', id' |
        && ValidComponent(server') && Shardable(id')
        && RemoteMedia(base, server', id') == RemoteMedia(base, server, id)
        ensures (server', id') == (server, id)
      {
        RemoteLands(base, server', id');
        RenderInjective(Landing(base + ["remote_content", server'], id'),
                        Landing(base + ["remote_content", server], id));
        RemoteLandsAlone(base, server, id, server', id');
      }
    }
  }

  lemma DotDotErases(base: seq<string>, id: string)
    requires Names(base) && base != [] && Shardable(id)
    requires id[0..2] != ".." && id[2..4] == ".." && id[4..] != "." && id[4..] != ".."
    ensures LocalMedia(base, id) == Ok(Render(base + ["local_content", id[4..]]))
  {
    var dir := base + ["local_content"];
    UpFrom(dir, id[0..2], id[4..]);
    assert dir + [id[4..]] == base + ["local_content", id[4..]];
    LocalLands(base, id);
  }

  /** Two accepted IDs that share a file because the dot-dot shard erases the one before it. */
  lemma DottedIDsCollide(base: seq<string>)
    requires Names(base) && base != []
    ensures var p, q := "aa..bcd", "zz..bcd";
            && Shardable(p) && Shardable(q) && p != q
            && LocalMedia(base, p) == LocalMedia(base, q) == Ok(Render(base + ["local_content", "bcd"]))
  {
    var p, q := "aa..bcd", "zz..bcd";
    assert p[0] != q[0];
    assert p[0..2] == "aa" && p[2..4] == ".." && p[4..] == "bcd";
    assert q[0..2] == "zz" && q[2..4] == ".." && q[4..] == "bcd";
    DotDotErases(base, p);
    DotDotErases(base, q);
  }

  // --- the write guard --------------------------------------------------------------------

  const REMOTE_PREFIXES := ["remote_content", "remote_thumbnail"]
  const UPLOAD_PREFIXES := ["local_content", "local_thumbnails"]

  /** MediaPaths: the base directory and the field that widens the write guard. */
  class MediaPaths {
    const base: seq<string>
    var uploadsAllowed: bool

    constructor (base: seq<string>)
      requires Names(base)
      ensures this.base == base && !uploadsAllowed
    {
      this.base := base;
      this.uploadsAllowed := false;
    }

    method AllowUploadWrites()
      modifies this`uploadsAllowed
      ensures uploadsAllowed
      ensures forall path :: old(Writable(path)) ==> Writable(path)
    {
      uploadsAllowed := true;
    }

    function WritablePrefixes(): seq<string>
      reads this`uploadsAllowed
    {
      if uploadsAllowed then REMOTE_PREFIXES + UPLOAD_PREFIXES else REMOTE_PREFIXES
    }

    /** WritablePath returns no error. */
    predicate Writable(path: string)
      reads this`uploadsAllowed
    {
      var clean := Clean(path);
      && (clean == Render(base) || HasPrefix(clean, Render(base) + "/"))
      && var rel := if clean == Render(base) then "." else clean[|Render(base)| + 1..];
      Split(rel)[0] in WritablePrefixes()
    }
  }

  lemma RelSplits(base: seq<string>, full: seq<string>)
    requires Names(base) && Names(full) && base != [] && base < full
    ensures Render(base) + "/" <= Render(full)
    ensures Split(Render(full)[|Render(base)| + 1..]) == full[|base|..]
  {
    var rest := full[|base|..];
    assert full == base + rest;
    TailConcat(base, rest);
    assert Tail(rest) == "/" + (rest[0] + Tail(rest[1..]));
    assert Render(full)[|Render(base)| + 1..] == rest[0] + Tail(rest[1..]);
    assert Name(rest[0]);
    forall c | c in rest[1..] ensures SlashFree(c) {
      var i :| 0 <= i < |rest[1..]| && rest[1..][i] == c;
      assert Name(full[|base| + 1 + i]);
    }
    SplitTail(rest[0], rest[1..]);
    assert [rest[0]] + rest[1..] == rest;
  }

  lemma WritableClean(paths: MediaPaths, full: seq<string>)
    requires Names(paths.base) && Names(full)
    ensures var clean := Render(full);
            (clean == Render(paths.base) || HasPrefix(clean, Render(paths.base) + "/"))
            && Split(if clean == Render(paths.base) then "."
                else clean[|Render(paths.base)| + 1..])[0] in paths.WritablePrefixes()
            <==> paths.base != [] && paths.base < full && full[|paths.base|] in paths.WritablePrefixes()
  {
    BelowByPrefix(paths.base, full);
    if paths.base != [] && paths.base < full {
      RelSplits(paths.base, full);
    } else if Render(full) == Render(paths.base) {
      SplitFirst(".", "");
    }
  }

  /**
   The guard judges a path by where it leads: it lets through exactly those that lead strictly
   inside an allowed top directory. In particular nothing in url_cache passes in any
   configuration, and local_content only once AllowUploadWrites has been called.
   */
  lemma WritableExactly(paths: MediaPaths, path: string)
    requires Names(paths.base) && path != "" && path[0] == '/'
    ensures var base, full := paths.base, Resolve([], Split(path));
            && (paths.Writable(path) <==> base != [] && base < full && full[|base|] in paths.WritablePrefixes())
            && (paths.Writable(path) ==> full[|base|] != "url_cache" && full[|base|] != "url_cache_thumbnails")
            && (paths.Writable(path) && !paths.uploadsAllowed ==> full[|base|] != "local_content")
  {
    SplitSlashFree(path);
    ResolveNames([], Split(path));
    WritableClean(paths, Resolve([], Split(path)));
  }
}
