/**
 Per-user upload limits: the table rows they are measured on (db.go), the order they are kept in
 (parseMediaUploadLimits in config.go) and the evaluation that skips queries
 (evaluateUploadLimits in upload.go). Times are in milliseconds.
 */
module UploadLimits {
  import opened Common

  // --- local_media_repository ---------------------------------------------------------------

  /** A row of local_media_repository; length is NULL until the upload is complete. */
  datatype Row = Row(mediaID: string, user: string, createdTS: int, length: Option<nat>)

  /** What a row adds to SUM(media_length); a NULL length adds nothing. */
  function Bytes(row: Row, user: string, notBefore: int): nat {
    if row.user == user && row.createdTS > notBefore && row.length.Some? then row.length.value else 0
  }

  /** SELECT COALESCE(SUM(media_length), 0) ... WHERE user_id = user AND created_ts > notBefore. */
  function UploadedSince(rows: seq<Row>, user: string, notBefore: int): nat {
    if rows == [] then 0 else Bytes(rows[0], user, notBefore) + UploadedSince(rows[1..], user, notBefore)
  }

  /** A later start never sees more bytes. */
  lemma {:induction false} LaterIsLess(rows: seq<Row>, user: string, a: int, b: int)
    requires a <= b
    ensures UploadedSince(rows, user, b) <= UploadedSince(rows, user, a)
  {
    if rows != [] {
      LaterIsLess(rows[1..], user, a, b);
    }
  }

  lemma {:induction false} UploadedConcat(rows: seq<Row>, more: seq<Row>, user: string, notBefore: int)
    ensures UploadedSince(rows + more, user, notBefore)
         == UploadedSince(rows, user, notBefore) + UploadedSince(more, user, notBefore)
  {
    if rows == [] {
      assert rows + more == more;
    } else {
      UploadedConcat(rows[1..], more, user, notBefore);
      assert (rows + more)[1..] == rows[1..] + more;
    }
  }

  /** One more row adds its bytes exactly if it is the user's, created after the start, and has a length. */
  lemma UploadedAppend(rows: seq<Row>, row: Row, user: string, notBefore: int)
    ensures UploadedSince([], user, notBefore) == 0
    ensures UploadedSince(rows + [row], user, notBefore) == UploadedSince(rows, user, notBefore) +
            if row.user == user && row.createdTS > notBefore && row.length.Some? then row.length.value else 0
  {
    UploadedConcat(rows, [row], user, notBefore);
    assert [row][1..] == [];
  }

  // --- the configured limits ----------------------------------------------------------------

  datatype Limit = Limit(maxBytes: int, window: int, infoURI: string, canUpgrade: bool)

  /** An entry of Synapse's media_upload_limits; None where its size or period does not parse. */
  datatype RawLimit = RawLimit(maxSize: Option<int>, timePeriod: Option<int>, infoURI: string, canUpgrade: bool)

  predicate LongestFirst(limits: seq<Limit>) {
    forall i, j :: 0 <= i < j < |limits| ==> limits[i].window >= limits[j].window
  }

  /** The limits with a given window, in order. */
  function WithWindow(limits: seq<Limit>, w: int): seq<Limit> {
    if limits == [] then []
    else (if limits[0].window == w then [limits[0]] else []) + WithWindow(limits[1..], w)
  }

  function Place(sorted: seq<Limit>, l: Limit): seq<Limit> {
    if sorted == [] || sorted[0].window < l.window then [l] + sorted else [sorted[0]] + Place(sorted[1..], l)
  }

  /** sort.SliceStable with longer windows first. */
  function StableSort(limits: seq<Limit>): seq<Limit> {
    if limits == [] then [] else Place(StableSort(limits[..|limits| - 1]), limits[|limits| - 1])
  }

  lemma ConsSorted(l: Limit, rest: seq<Limit>)
    requires LongestFirst(rest) && (rest == [] || l.window >= rest[0].window)
    ensures LongestFirst([l] + rest)
  {
  }

  lemma {:induction false} PlaceSorts(sorted: seq<Limit>, l: Limit)
    requires LongestFirst(sorted)
    ensures LongestFirst(Place(sorted, l))
    ensures |Place(sorted, l)| > 0
    ensures Place(sorted, l)[0] == (if sorted == [] || sorted[0].window < l.window then l else sorted[0])
  {
    if sorted == [] || sorted[0].window < l.window {
      ConsSorted(l, sorted);
    } else {
      PlaceSorts(sorted[1..], l);
      ConsSorted(sorted[0], Place(sorted[1..], l));
    }
  }

  lemma {:induction false} PlaceIsStable(sorted: seq<Limit>, l: Limit, w: int)
    requires LongestFirst(sorted)
    ensures WithWindow(Place(sorted, l), w) == WithWindow(sorted, w) + (if l.window == w then [l] else [])
  {
    if sorted == [] || sorted[0].window < l.window {
      assert ([l] + sorted)[1..] == sorted;
      if l.window == w {
        NoneWithWindow(sorted, w);
      }
    } else {
      PlaceIsStable(sorted[1..], l, w);
      var rest := Place(sorted[1..], l);
      assert ([sorted[0]] + rest)[1..] == rest;
    }
  }

  lemma {:induction false} NoneWithWindow(limits: seq<Limit>, w: int)
    requires LongestFirst(limits) && (limits == [] || limits[0].window < w)
    ensures WithWindow(limits, w) == []
  {
    if limits != [] {
      NoneWithWindow(limits[1..], w);
    }
  }

  lemma {:induction false} WithWindowSnoc(limits: seq<Limit>, l: Limit, w: int)
    ensures WithWindow(limits + [l], w) == WithWindow(limits, w) + (if l.window == w then [l] else [])
  {
    if limits == [] {
      assert [l][1..] == [];
      assert limits + [l] == [l];
    } else {
      WithWindowSnoc(limits[1..], l, w);
      assert (limits + [l])[1..] == limits[1..] + [l];
    }
  }

  /** Sorted, and a stable rearrangement: limits with equal windows keep their order. */
  lemma {:induction false} StableSortSorts(limits: seq<Limit>, w: int)
    ensures LongestFirst(StableSort(limits))
    ensures WithWindow(StableSort(limits), w) == WithWindow(limits, w)
  {
    if limits != [] {
      var n := |limits| - 1;
      StableSortSorts(limits[..n], w);
      PlaceSorts(StableSort(limits[..n]), limits[n]);
      PlaceIsStable(StableSort(limits[..n]), limits[n], w);
      WithWindowSnoc(limits[..n], limits[n], w);
      assert limits == limits[..n] + [limits[n]];
    }
  }

  lemma FirstHasWindow(limits: seq<Limit>)
    requires limits != []
    ensures WithWindow(limits, limits[0].window) != []
  {
  }

  /** These two facts leave only one possible result. */
  lemma {:induction false} StableSortUnique(a: seq<Limit>, b: seq<Limit>)
    requires LongestFirst(a) && LongestFirst(b)
    requires forall w :: WithWindow(a, w) == WithWindow(b, w)
    ensures a == b
  {
    if a != [] {
      FirstHasWindow(a);
    }
    if b != [] {
      FirstHasWindow(b);
    }
    if a != [] && b != [] {
      if a[0].window > b[0].window {
        NoneWithWindow(b, a[0].window);
      } else if a[0].window < b[0].window {
        NoneWithWindow(a, b[0].window);
      }
      assert WithWindow(a, a[0].window)[0] == a[0] && WithWindow(b, a[0].window)[0] == b[0];
      forall w ensures WithWindow(a[1..], w) == WithWindow(b[1..], w) {
        var first := if a[0].window == w then [a[0]] else [];
        assert WithWindow(a, w) == first + WithWindow(a[1..], w) && WithWindow(b, w) == first + WithWindow(b[1..], w);
        assert WithWindow(a, w)[|first|..] == WithWindow(a[1..], w)
            && WithWindow(b, w)[|first|..] == WithWindow(b[1..], w);
      }
      StableSortUnique(a[1..], b[1..]);
      assert a == [a[0]] + a[1..] && b == [b[0]] + b[1..];
    }
  }

  predicate Parses(raw: RawLimit) {
    raw.maxSize.Some? && raw.timePeriod.Some?
  }

  /**
   Each limit has its entry's size as its bytes and its period as its window, and the fallback URI if it names none.
   */
  ghost predicate AreConverted(raw: seq<RawLimit>, fallbackURI: string, limits: seq<Limit>) {
    && |limits| == |raw|
    && forall j :: 0 <= j < |raw| ==>
         && raw[j].maxSize == Some(limits[j].maxBytes) && raw[j].timePeriod == Some(limits[j].window)
         && limits[j].infoURI == (if raw[j].infoURI == "" then fallbackURI else raw[j].infoURI)
         && limits[j].canUpgrade == raw[j].canUpgrade
  }

  /** parseMediaUploadLimits: the first entry that does not parse is reported by its index. */
  method ParseMediaUploadLimits(raw: seq<RawLimit>, fallbackURI: string)
    returns (r: Result<seq<Limit>, nat>, ghost converted: seq<Limit>)
    ensures match r
            case Err(bad) =>
              && bad < |raw| && !Parses(raw[bad]) && forall j :: 0 <= j < bad ==> Parses(raw[j])
            case Ok(limits) =>
              && AreConverted(raw, fallbackURI, converted)
              && LongestFirst(limits) && forall w :: WithWindow(limits, w) == WithWindow(converted, w)
  {
    var limits: seq<Limit> := [];
    for i := 0 to |raw|
      invariant AreConverted(raw[..i], fallbackURI, limits) && forall j :: 0 <= j < i ==> Parses(raw[j])
    {
      if raw[i].maxSize.None? || raw[i].timePeriod.None? {
        return Err(i), [];
      }
      var infoURI := if raw[i].infoURI == "" then fallbackURI else raw[i].infoURI;
      limits := limits + [Limit(raw[i].maxSize.value, raw[i].timePeriod.value, infoURI, raw[i].canUpgrade)];
    }
    assert raw[..|raw|] == raw;
    StableSortSorts(limits, 0);
    forall w ensures WithWindow(StableSort(limits), w) == WithWindow(limits, w) {
      StableSortSorts(limits, w);
    }
    return Ok(StableSort(limits)), limits;
  }

  // --- evaluation -----------------------------------------------------------------------------

  /** Bytes used since a time, or None when the query fails. */
  type Usage = int -> Option<int>

  /** The reference: ask for every window in turn, and report the first limit the upload would breach. */
  function FirstBreached(limits: seq<Limit>, length: int, now: int, usage: Usage): Result<Option<Limit>, ()> {
    if limits == [] then Ok(None)
    else match usage(now - limits[0].window)
      case None => Err(())
      case Some(total) =>
        if total + length > limits[0].maxBytes then Ok(Some(limits[0]))
        else FirstBreached(limits[1..], length, now, usage)
  }

  /** The upload takes the bytes since the limit's window began past the limit. */
  ghost predicate Breaches(l: Limit, length: int, now: int, usage: Usage) {
    usage(now - l.window).Some? && usage(now - l.window).value + length > l.maxBytes
  }

  /** What it reports is the first in order that the upload breaches, unless a query before that fails. */
  lemma {:induction false} FirstBreachedIsFirst(limits: seq<Limit>, length: int, now: int, usage: Usage)
    returns (i: nat)
    ensures i <= |limits|
    ensures forall j :: 0 <= j < i ==> usage(now - limits[j].window).Some? && !Breaches(limits[j], length, now, usage)
    ensures if i == |limits| then FirstBreached(limits, length, now, usage) == Ok(None)
            else if usage(now - limits[i].window).None? then FirstBreached(limits, length, now, usage) == Err(())
            else && Breaches(limits[i], length, now, usage)
                 && FirstBreached(limits, length, now, usage) == Ok(Some(limits[i]))
  {
    if limits == [] || usage(now - limits[0].window).None? || Breaches(limits[0], length, now, usage) {
      return 0;
    }
    i := FirstBreachedIsFirst(limits[1..], length, now, usage);
    i := i + 1;
  }

  /** evaluateUploadLimits: a figure already measured is carried on, and asked for again only when it would refuse. */
  function Evaluate(limits: seq<Limit>, length: int, now: int, usage: Usage,
                    measured: Option<int>): Result<Option<Limit>, ()> {
    if limits == [] then Ok(None)
    else
      var l := limits[0];
      if measured.Some? && measured.value + length <= l.maxBytes
      then Evaluate(limits[1..], length, now, usage, measured)
      else match usage(now - l.window)
        case None => Err(())
        case Some(total) =>
          if total + length > l.maxBytes then Ok(Some(l)) else Evaluate(limits[1..], length, now, usage, Some(total))
  }

  /** The j-th limit would refuse the upload by the figure of the i-th. */
  ghost predicate Carried(limits: seq<Limit>, i: nat, j: nat, length: int, now: int, usage: Usage) {
    && i < |limits| && j < |limits|
    && usage(now - limits[i].window).Some? && usage(now - limits[i].window).value + length > limits[j].maxBytes
  }

  /**
   The limits asked of the first n: each at most once and in order, the first among them, and each later
   one only because the figure of the one before would refuse the upload.
   */
  ghost predicate Sparing(limits: seq<Limit>, asked: seq<nat>, n: nat, length: int, now: int, usage: Usage) {
    && |asked| <= n && (forall k :: 0 <= k < |asked| ==> asked[k] < n)
    && (forall k, j :: 0 <= k < j < |asked| ==> asked[k] < asked[j])
    && (asked != [] ==> asked[0] == 0)
    && forall k :: 0 < k < |asked| ==> Carried(limits, asked[k - 1], asked[k], length, now, usage)
  }

  lemma SparingMore(limits: seq<Limit>, asked: seq<nat>, n: nat, length: int, now: int, usage: Usage)
    requires Sparing(limits, asked, n, length, now, usage) && n < |limits|
    ensures Sparing(limits, asked, n + 1, length, now, usage)
    ensures (if asked == [] then n == 0 else Carried(limits, asked[|asked| - 1], n, length, now, usage)) ==>
              Sparing(limits, asked + [n], n + 1, length, now, usage)
  {
  }

  /** The loop itself, with the limits it ran a query for. */
  method EvaluateUploadLimits(limits: seq<Limit>, length: int, now: int, usage: Usage)
    returns (r: Result<Option<Limit>, ()>, asked: seq<nat>)
    ensures r == Evaluate(limits, length, now, usage, None)
    ensures Sparing(limits, asked, |limits|, length, now, usage)
  {
    var used := 0;
    var measured := false;
    asked := [];
    var i := 0;
    while i < |limits|
      invariant i <= |limits|
      invariant Evaluate(limits, length, now, usage, None)
             == Evaluate(limits[i..], length, now, usage, if measured then Some(used) else None)
      invariant Sparing(limits, asked, i, length, now, usage)
      invariant if measured then asked != [] && asked[|asked| - 1] < |limits|
                  && usage(now - limits[asked[|asked| - 1]].window) == Some(used)
                else asked == [] && i == 0
    {
      var limit := limits[i];
      assert limits[i..][1..] == limits[i + 1..];
      SparingMore(limits, asked, i, length, now, usage);
      if !measured || used + length > limit.maxBytes {
        var total := usage(now - limit.window);
        asked := asked + [i];
        if total.None? {
          SparingToEnd(limits, asked, i + 1, length, now, usage);
          return Err(()), asked;
        }
        used := total.value;
        measured := true;
      }
      i := i + 1;
      if used + length > limit.maxBytes {
        SparingToEnd(limits, asked, i, length, now, usage);
        return Ok(Some(limit)), asked;
      }
    }
    return Ok(None), asked;
  }

  lemma SparingToEnd(limits: seq<Limit>, asked: seq<nat>, n: nat, length: int, now: int, usage: Usage)
    requires Sparing(limits, asked, n, length, now, usage) && n <= |limits|
    ensures Sparing(limits, asked, |limits|, length, now, usage)
  {
  }

  /** Over a fixed set of rows a later start never counts more. */
  ghost predicate Antitone(usage: Usage) {
    forall a, b :: a <= b && usage(a).Some? && usage(b).Some? ==> usage(b).value <= usage(a).value
  }

  /** The upload stays within a limit, by a query for that limit's own window. */
  predicate Within(l: Limit, length: int, now: int, usage: Usage) {
    usage(now - l.window).Some? ==> usage(now - l.window).value + length <= l.maxBytes
  }

  /**
   With the longest window first, skipping queries changes no answer: the verdict is the one that
   asking for every window gives, save that a query never run cannot fail.
   */
  lemma {:induction false} EvaluateRefines(limits: seq<Limit>, length: int, now: int, usage: Usage,
                                           measured: Option<int>)
    requires LongestFirst(limits) && Antitone(usage)
    requires measured.Some? ==> forall i :: 0 <= i < |limits| && usage(now - limits[i].window).Some? ==>
                                              usage(now - limits[i].window).value <= measured.value
    ensures var fast, slow := Evaluate(limits, length, now, usage, measured), FirstBreached(limits, length, now, usage);
            if fast.Err? then slow.Err? else slow == fast || slow.Err?
    ensures Evaluate(limits, length, now, usage, measured) == Ok(None) ==>
              forall i :: 0 <= i < |limits| ==> Within(limits[i], length, now, usage)
  {
    if limits != [] {
      var l, rest := limits[0], limits[1..];
      var asked := usage(now - l.window);
      assert LongestFirst(rest) && forall i :: 0 <= i < |rest| ==> rest[i] == limits[i + 1];
      if measured.Some? && measured.value + length <= l.maxBytes {
        EvaluateRefines(rest, length, now, usage, measured);
      } else if asked.Some? && asked.value + length <= l.maxBytes {
        assert forall i :: 0 <= i < |rest| ==> now - l.window <= now - rest[i].window;
        EvaluateRefines(rest, length, now, usage, asked);
      }
    }
  }

  function UsageOf(rows: seq<Row>, user: string): Usage {
    notBefore => Some(UploadedSince(rows, user, notBefore))
  }

  /**
   On the table itself no query fails, so the verdict is exactly the reference's, and None means every limit holds.
   */
  lemma EvaluateOverRows(limits: seq<Limit>, length: int, now: int, rows: seq<Row>, user: string)
    requires LongestFirst(limits)
    ensures Evaluate(limits, length, now, UsageOf(rows, user), None)
            == FirstBreached(limits, length, now, UsageOf(rows, user))
    ensures Evaluate(limits, length, now, UsageOf(rows, user), None) == Ok(None) <==>
            forall l :: l in limits ==> UploadedSince(rows, user, now - l.window) + length <= l.maxBytes
  {
    var usage := UsageOf(rows, user);
    forall a, b | a <= b ensures usage(b).value <= usage(a).value {
      LaterIsLess(rows, user, a, b);
    }
    EvaluateRefines(limits, length, now, usage, None);
    ReferenceNeverFails(limits, length, now, rows, user);
    forall l | l in limits
      ensures Evaluate(limits, length, now, usage, None) == Ok(None) ==> Within(l, length, now, usage)
    {
      var i :| 0 <= i < |limits| && limits[i] == l;
    }
  }

  lemma {:induction false} ReferenceNeverFails(limits: seq<Limit>, length: int, now: int, rows: seq<Row>, user: string)
    ensures FirstBreached(limits, length, now, UsageOf(rows, user)).Ok?
    ensures (forall l :: l in limits ==> UploadedSince(rows, user, now - l.window) + length <= l.maxBytes) ==>
              FirstBreached(limits, length, now, UsageOf(rows, user)) == Ok(None)
  {
    if limits != [] {
      ReferenceNeverFails(limits[1..], length, now, rows, user);
      assert limits[0] in limits;
    }
  }

  /**
   The order matters: with the shorter window first, a carried figure lets an upload through that breaches the longer
   limit.
   */
  lemma OrderMatters()
    ensures var day, week := Limit(100, 10, "", false), Limit(50, 70, "", false);
            var rows := [Row("a", "u", 0, Some(45))];
            && Evaluate([day, week], 10, 60, UsageOf(rows, "u"), None) == Ok(None)
            && FirstBreached([day, week], 10, 60, UsageOf(rows, "u")) == Ok(Some(week))
            && Evaluate(StableSort([day, week]), 10, 60, UsageOf(rows, "u"), None) == Ok(Some(week))
  {
    var day, week := Limit(100, 10, "", false), Limit(50, 70, "", false);
    var rows := [Row("a", "u", 0, Some(45))];
    var usage := UsageOf(rows, "u");
    assert usage(50) == Some(0) && usage(-10) == Some(45);
    assert [day, week][1..] == [week] && [week][1..] == [];
    assert Evaluate([week], 10, 60, usage, Some(0)) == Ok(None);
    assert Evaluate([day, week], 10, 60, usage, None) == Evaluate([week], 10, 60, usage, Some(0));
    assert [day, week][..1] == [day] && [day][..0] == [];
    assert StableSort([day]) == [day];
    assert StableSort([day, week]) == [week, day];
  }
}
