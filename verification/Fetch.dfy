/** copyBody of fetch.go: the bytes of a remote file on their way to disk, with their length and hash. */
module Fetch {
  import opened Common

  const BUFFER := 32 * 1024

  /** A response body: the bytes still to come, then its end or a broken connection. */
  class Reader {
    var left: seq<byte>
    const breaks: bool

    constructor (body: seq<byte>, breaks: bool)
      ensures left == body && this.breaks == breaks
    {
      left, this.breaks := body, breaks;
    }

    /** Some bytes, no more than asked for; none is the end. */
    method Read(most: nat) returns (chunk: Option<seq<byte>>)
      requires most > 0
      modifies this
      ensures chunk.None? <==> old(left) == [] && breaks
      ensures chunk.None? ==> left == old(left)
      ensures chunk.Some? ==> old(left) == chunk.value + left && |chunk.value| <= most
      ensures chunk == Some([]) ==> left == []
    {
      if left == [] {
        return if breaks then None else Some([]);
      }
      var n: nat :| 1 <= n <= most && n <= |left|;
      chunk := Some(left[..n]);
      left := left[n..];
    }
  }

  /** A file being written; room is what the disk still takes. */
  class File {
    var content: seq<byte>
    var room: nat

    constructor (room: nat)
      ensures content == [] && this.room == room
    {
      content, this.room := [], room;
    }

    method Write(chunk: seq<byte>) returns (ok: bool)
      modifies this
      ensures ok <==> |chunk| <= old(room)
      ensures if ok then content == old(content) + chunk && room == old(room) - |chunk|
              else content == old(content) + chunk[..old(room)] && room == 0
    {
      if |chunk| <= room {
        content, room := content + chunk, room - |chunk|;
        return true;
      }
      content, room := content + chunk[..room], 0;
      return false;
    }
  }

  class Hasher {
    var fed: seq<byte>

    constructor ()
      ensures fed == []
    {
      fed := [];
    }

    method Write(chunk: seq<byte>)
      modifies this
      ensures fed == old(fed) + chunk
    {
      fed := fed + chunk;
    }
  }

  datatype Info = Info(length: nat, sha256: string)

  datatype Error = FetchFailed | TooLarge

  function Min(a: nat, b: nat): nat {
    if a < b then a else b
  }

  /**
   The file gets the body up to one byte past the limit, or what the disk takes, and no more. The body
   is accepted exactly when it comes to its end within the limit and the disk takes it; then the
   length and hash returned are those of the bytes in the file. It is too large exactly when the disk
   takes a byte past the limit, whether the connection would have broken after that or not.
   */
  method CopyBody(src: Reader, dst: File, maxUploadSize: nat, hash: seq<byte> -> string)
    returns (r: Result<Info, Error>)
    modifies src, dst
    ensures var body, room, n := old(src.left), old(dst.room), |dst.content| - old(|dst.content|);
            && 0 <= n <= |body| && n <= maxUploadSize + 1 && n <= room
            && (n == |body| || n == maxUploadSize + 1 || n == room)
            && dst.content == old(dst.content) + body[..n]
            && (r.Ok? <==> !src.breaks && |body| <= maxUploadSize && |body| <= room)
            && (r == Err(TooLarge) <==> |body| > maxUploadSize && maxUploadSize + 1 <= room)
            && (r.Ok? ==> r.value.length == |body| && r.value.sha256 == hash(body) && src.left == [])
  {
    var hasher := new Hasher();
    var remaining, written := maxUploadSize + 1, 0;
    ghost var body, room, before := src.left, dst.room, dst.content;
    while remaining > 0
      invariant remaining + written == maxUploadSize + 1 && remaining >= 0 && written <= |body| && written <= room
      invariant src.left == body[written..] && hasher.fed == body[..written]
      invariant dst.content == before + body[..written] && dst.room == room - written
      decreases remaining
    {
      var chunk := src.Read(Min(BUFFER, remaining));
      if chunk.None? {
        return Err(FetchFailed);
      }
      assert |src.left| == |body| - written - |chunk.value|;
      if chunk.value == [] {
        break;
      }
      assert chunk.value == body[written..written + |chunk.value|] && src.left == body[written + |chunk.value|..];
      var ok := dst.Write(chunk.value);
      if !ok {
        assert body[..written] + chunk.value[..room - written] == body[..room];
        assert dst.content == before + body[..room];
        return Err(FetchFailed);
      }
      hasher.Write(chunk.value);
      assert body[..written] + chunk.value == body[..written + |chunk.value|];
      written := written + |chunk.value|;
      remaining := remaining - |chunk.value|;
    }
    assert dst.content == before + body[..written];
    if written > maxUploadSize {
      return Err(TooLarge);
    }
    assert body[..written] == body;
    return Ok(Info(written, hash(hasher.fed)));
  }
}
