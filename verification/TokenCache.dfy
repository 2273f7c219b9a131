/** The verdict cache of authclient.go: a map and a recency list that hold the same entries. */
module TokenCache {
  import opened Common

  /** What whoami said of a token; the fields besides expires are carried, never looked at. */
  datatype Verdict = Verdict(valid: bool, userID: string, isGuest: bool, expires: int, status: int,
                             rejection: Option<string>)

  // --- what the cache holds, most recently used first ----------------------------------------------

  type Contents = seq<(string, Verdict)>

  predicate Distinct(c: Contents) {
    forall i, j :: 0 <= i < j < |c| ==> c[i].0 != c[j].0
  }

  /** Where key stands; |c| when it is absent. */
  function IndexOf(c: Contents, key: string): (i: nat)
    ensures i <= |c| && (i < |c| ==> c[i].0 == key)
    ensures forall j :: 0 <= j < i ==> c[j].0 != key
  {
    if c == [] then 0 else if c[0].0 == key then 0 else 1 + IndexOf(c[1..], key)
  }

  predicate Holds(c: Contents, key: string) {
    IndexOf(c, key) < |c|
  }

  function Without(c: Contents, i: nat): Contents
    requires i < |c|
  {
    c[..i] + c[i + 1..]
  }

  function Looked(c: Contents, key: string, now: int): (Contents, Option<Verdict>) {
    var i := IndexOf(c, key);
    if i == |c| then (c, None)
    else if now > c[i].1.expires then (Without(c, i), None)
    else ([c[i]] + Without(c, i), Some(c[i].1))
  }

  /** maxEntries of zero or less is no limit. */
  function Trimmed(c: Contents, maxEntries: int): Contents {
    if 0 < maxEntries < |c| then c[..maxEntries] else c
  }

  function Put(c: Contents, key: string, v: Verdict, maxEntries: int): Contents {
    var i := IndexOf(c, key);
    if i < |c| then [(key, v)] + Without(c, i) else Trimmed([(key, v)] + c, maxEntries)
  }

  // --- the structure ---------------------------------------------------------------------------------

  class CacheEntry {
    const key: string
    var verdict: Verdict

    constructor (key: string, verdict: Verdict)
      ensures this.key == key && this.verdict == verdict
    {
      this.key, this.verdict := key, verdict;
    }
  }

  predicate Filed(items: map<string, CacheEntry>, order: seq<CacheEntry>, i: nat)
    requires i < |order|
  {
    order[i].key in items && items[order[i].key] == order[i]
  }

  predicate Listed(items: map<string, CacheEntry>, order: seq<CacheEntry>, key: string)
    requires key in items
  {
    items[key].key == key && items[key] in order
  }

  predicate Apart(order: seq<CacheEntry>, i: nat, j: nat)
    requires i < j < |order|
  {
    order[i].key != order[j].key
  }

  /** The map and the list hold the same entries, each key once. */
  ghost predicate Agree(items: map<string, CacheEntry>, order: seq<CacheEntry>) {
    && (forall i: nat :: i < |order| ==> Filed(items, order, i))
    && (forall key :: key in items ==> Listed(items, order, key))
    && (forall i: nat, j: nat :: i < j < |order| ==> Apart(order, i, j))
  }

  function Removed(order: seq<CacheEntry>, i: nat): seq<CacheEntry>
    requires i < |order|
  {
    order[..i] + order[i + 1..]
  }

  function Pushed(order: seq<CacheEntry>, e: CacheEntry): seq<CacheEntry> {
    [e] + order
  }

  lemma RemovedAgree(items: map<string, CacheEntry>, order: seq<CacheEntry>, i: nat)
    requires Agree(items, order) && i < |order|
    ensures Agree(items - {order[i].key}, Removed(order, i)) && order[i].key in items
  {
    var items', order' := items - {order[i].key}, Removed(order, i);
    assert Filed(items, order, i);
    forall j: nat | j < |order'| ensures Filed(items', order', j) {
      assert if j < i then Filed(items, order, j) && Apart(order, j, i)
             else Filed(items, order, j + 1) && Apart(order, i, j + 1);
    }
    forall key | key in items' ensures Listed(items', order', key) {
      assert Listed(items, order, key);
      var j: nat :| j < |order| && order[j] == items[key];
      assert order'[if j < i then j else j - 1] == items[key];
    }
    forall j: nat, k: nat | j < k < |order'| ensures Apart(order', j, k) {
      assert Apart(order, if j < i then j else j + 1, if k < i then k else k + 1);
    }
  }

  lemma PushedAgree(items: map<string, CacheEntry>, order: seq<CacheEntry>, e: CacheEntry)
    requires Agree(items, order) && e.key !in items
    ensures Agree(items[e.key := e], Pushed(order, e))
  {
    var items', order' := items[e.key := e], Pushed(order, e);
    forall j: nat | j < |order'| ensures Filed(items', order', j) {
      assert j > 0 ==> Filed(items, order, j - 1);
    }
    forall key | key in items' ensures Listed(items', order', key) {
      if key == e.key {
        assert order'[0] == e;
      } else {
        assert Listed(items, order, key);
        var j: nat :| j < |order| && order[j] == items[key];
        assert order'[j + 1] == items[key];
      }
    }
    forall j: nat, k: nat | j < k < |order'| ensures Apart(order', j, k) {
      assert Filed(items, order, k - 1);
      assert j > 0 ==> Apart(order, j - 1, k - 1);
    }
  }

  /** MoveToFront is a removal and a push of the same element. */
  lemma FrontAgree(items: map<string, CacheEntry>, order: seq<CacheEntry>, i: nat)
    requires Agree(items, order) && i < |order|
    ensures Agree(items, Pushed(Removed(order, i), order[i]))
  {
    var e := order[i];
    assert Filed(items, order, i);
    RemovedAgree(items, order, i);
    PushedAgree(items - {e.key}, Removed(order, i), e);
    assert items == (items - {e.key})[e.key := e];
  }

  /** A key that is in the map is in the list, and one that is not is not. */
  lemma Lists(items: map<string, CacheEntry>, order: seq<CacheEntry>, key: string)
    requires Agree(items, order)
    ensures key in items ==> items[key] in order && items[key].key == key
    ensures key !in items ==> forall i :: 0 <= i < |order| ==> order[i].key != key
  {
    assert key in items ==> Listed(items, order, key);
    forall i: nat | i < |order| ensures order[i].key in items {
      assert Filed(items, order, i);
    }
  }

  ghost function Values(order: seq<CacheEntry>): (c: Contents)
    reads order
    ensures |c| == |order| && forall i :: 0 <= i < |c| ==> c[i] == (order[i].key, order[i].verdict)
  {
    seq(|order|, i requires 0 <= i < |order| reads order => (order[i].key, order[i].verdict))
  }

  lemma RemovedValues(order: seq<CacheEntry>, i: nat)
    requires i < |order|
    ensures Values(Removed(order, i)) == Without(Values(order), i)
  {
  }

  lemma PushedValues(order: seq<CacheEntry>, e: CacheEntry)
    ensures Values(Pushed(order, e)) == [(e.key, e.verdict)] + Values(order)
  {
  }

  lemma MovedOn(items: map<string, CacheEntry>, order: seq<CacheEntry>, i: nat)
    requires Agree(items, order) && i < |order|
    ensures order[i] !in Removed(order, i)
  {
    RemovedAgree(items, order, i);
    Lists(items - {order[i].key}, Removed(order, i), order[i].key);
  }

  /** Among distinct keys a key's only place is its first. */
  lemma FirstPlace(items: map<string, CacheEntry>, order: seq<CacheEntry>, c: Contents, i: nat)
    requires Agree(items, order) && i < |order| == |c|
    requires forall j :: 0 <= j < |c| ==> c[j].0 == order[j].key
    ensures IndexOf(c, order[i].key) == i
  {
    var j := IndexOf(c, order[i].key);
    assert c[i].0 == order[i].key;
    assert j < i ==> Apart(order, j, i);
  }

  class TokenAuthenticator {
    const maxEntries: int
    var items: map<string, CacheEntry>
    var order: seq<CacheEntry>  // front = most recently used

    ghost predicate Valid()
      reads this
    {
      Agree(items, order)
    }

    ghost function Contents(): Contents
      reads this, order
    {
      Values(order)
    }

    constructor (maxEntries: int)
      ensures Valid() && Contents() == [] && this.maxEntries == maxEntries
    {
      this.maxEntries, items, order := maxEntries, map[], [];
    }

    /** The place of an element in the list, which the code's element pointer gives at once. */
    method Find(e: CacheEntry) returns (i: nat)
      requires Valid() && e in order
      ensures i < |order| && order[i] == e && IndexOf(Contents(), e.key) == i
    {
      i := 0;
      while order[i] != e
        invariant i < |order| && e !in order[..i]
        decreases |order| - i
      {
        i := i + 1;
      }
      FirstPlace(items, order, Contents(), i);
    }

    method Lookup(key: string, now: int) returns (hit: Option<Verdict>)
      requires Valid()
      modifies this
      ensures Valid()
      ensures (Contents(), hit) == Looked(old(Contents()), key, now)
    {
      Lists(items, order, key);
      if key !in items {
        return None;
      }
      var elem := items[key];
      var i := Find(elem);
      RemovedValues(order, i);
      if now > elem.verdict.expires {
        RemovedAgree(items, order, i);
        order := Removed(order, i);
        items := items - {key};
        return None;
      }
      FrontAgree(items, order, i);
      PushedValues(Removed(order, i), elem);
      order := Pushed(Removed(order, i), elem);
      return Some(elem.verdict);
    }

    /** A key that is there gets its new verdict and moves to the front. */
    method Update(key: string, v: Verdict)
      requires Valid() && key in items
      modifies this, order
      ensures Valid()
      ensures Contents() == Put(old(Contents()), key, v, maxEntries)
    {
      Lists(items, order, key);
      var elem := items[key];
      var i := Find(elem);
      RemovedValues(order, i);
      MovedOn(items, order, i);
      elem.verdict := v;
      FrontAgree(items, order, i);
      PushedValues(Removed(order, i), elem);
      order := Pushed(Removed(order, i), elem);
    }

    method Store(key: string, v: Verdict)
      requires Valid()
      modifies this, order
      ensures Valid()
      ensures Contents() == Put(old(Contents()), key, v, maxEntries)
    {
      if key in items {
        Update(key, v);
        return;
      }
      Lists(items, order, key);
      var elem := new CacheEntry(key, v);
      PushedAgree(items, order, elem);
      PushedValues(order, elem);
      order := Pushed(order, elem);
      items := items[key := elem];
      Evict();
    }

    /** The loop at the end of store. */
    method Evict()
      requires Valid()
      modifies this
      ensures Valid() && Contents() == Trimmed(old(Contents()), maxEntries)
    {
      ghost var all := order;
      while maxEntries > 0 && |order| > maxEntries
        invariant Valid() && |order| <= |all| && order == all[..|order|]
        invariant |order| == |all| || 0 < maxEntries <= |order|
        decreases |order|
      {
        var oldest := order[|order| - 1];
        RemovedAgree(items, order, |order| - 1);
        assert Removed(order, |order| - 1) == order[..|order| - 1];
        order := order[..|order| - 1];
        items := items - {oldest.key};
      }
    }
  }

  // --- any sequence of lookups and stores ---------------------------------------------------------------

  datatype Op = Look(key: string, now: int) | Keep(key: string, v: Verdict)

  function Apply(c: Contents, op: Op, maxEntries: int): Contents {
    match op
    case Look(key, now) => Looked(c, key, now).0
    case Keep(key, v) => Put(c, key, v, maxEntries)
  }

  function After(c: Contents, ops: seq<Op>, maxEntries: int): Contents {
    if ops == [] then c else Apply(After(c, ops[..|ops| - 1], maxEntries), ops[|ops| - 1], maxEntries)
  }

  /** A store or a hit. */
  predicate IsUse(c: Contents, op: Op) {
    op.Keep? || Looked(c, op.key, op.now).1.Some?
  }

  /** A lookup that finds its entry past its expiry and drops it. */
  predicate Expires(c: Contents, op: Op) {
    op.Look? && Holds(c, op.key) && !IsUse(c, op)
  }

  function UsedBy(c: Contents, op: Op): set<string> {
    if IsUse(c, op) then {op.key} else {}
  }

  /** The keys stored or hit on the way. */
  function Used(c: Contents, ops: seq<Op>, maxEntries: int): set<string> {
    if ops == [] then {}
    else Used(c, ops[..|ops| - 1], maxEntries) + UsedBy(After(c, ops[..|ops| - 1], maxEntries), ops[|ops| - 1])
  }

  /** No lookup on the way drops an expired entry. */
  predicate NoneExpires(c: Contents, ops: seq<Op>, maxEntries: int) {
    if ops == [] then true
    else
      var init := ops[..|ops| - 1];
      NoneExpires(c, init, maxEntries) && !Expires(After(c, init, maxEntries), ops[|ops| - 1])
  }

  function LastStored(ops: seq<Op>, key: string): Option<Verdict> {
    if ops == [] then None
    else if ops[|ops| - 1].Keep? && ops[|ops| - 1].key == key then Some(ops[|ops| - 1].v)
    else LastStored(ops[..|ops| - 1], key)
  }

  predicate Within(c: Contents, maxEntries: int) {
    Distinct(c) && (maxEntries > 0 ==> |c| <= maxEntries)
  }

  lemma StepWithin(c: Contents, op: Op, maxEntries: int)
    requires Within(c, maxEntries)
    ensures Within(Apply(c, op, maxEntries), maxEntries)
  {
    var i := IndexOf(c, op.key);
    if i < |c| {
      assert Distinct(Without(c, i));
    }
  }

  /** The cache never outgrows maxEntries and never holds a key twice. */
  lemma {:induction false} NeverOutgrows(c: Contents, ops: seq<Op>, maxEntries: int)
    requires Within(c, maxEntries)
    ensures Within(After(c, ops, maxEntries), maxEntries)
  {
    if ops != [] {
      NeverOutgrows(c, ops[..|ops| - 1], maxEntries);
      StepWithin(After(c, ops[..|ops| - 1], maxEntries), ops[|ops| - 1], maxEntries);
    }
  }

  lemma {:induction false} HoldsLastStored(ops: seq<Op>, maxEntries: int, i: nat)
    requires i < |After([], ops, maxEntries)|
    ensures var (key, v) := After([], ops, maxEntries)[i]; LastStored(ops, key) == Some(v)
  {
    var before, op := After([], ops[..|ops| - 1], maxEntries), ops[|ops| - 1];
    NeverOutgrows([], ops, maxEntries);
    var after := Apply(before, op, maxEntries);
    if op.Keep? && after[i].0 == op.key {
      assert after[0] == (op.key, op.v);
    } else {
      StepFrom(before, op, maxEntries, i);
      var k :| 0 <= k < |before| && before[k] == after[i];
      HoldsLastStored(ops[..|ops| - 1], maxEntries, k);
    }
  }

  /** A hit is the verdict last stored for the key, and never one past its expiry. */
  lemma HitsAreCurrent(ops: seq<Op>, maxEntries: int, key: string, now: int, v: Verdict)
    requires Looked(After([], ops, maxEntries), key, now).1 == Some(v)
    ensures LastStored(ops, key) == Some(v) && now <= v.expires
  {
    HoldsLastStored(ops, maxEntries, IndexOf(After([], ops, maxEntries), key));
  }

  // --- how long an entry survives ---------------------------------------------------------------------------

  function FirstKeys(c: Contents, n: nat): set<string>
    requires n <= |c|
  {
    set i | 0 <= i < n :: c[i].0
  }

  /** The keys that will be evicted after key. */
  function Ahead(c: Contents, key: string): set<string> {
    FirstKeys(c, IndexOf(c, key))
  }

  lemma {:induction false} CountKeys(c: Contents, n: nat)
    requires Distinct(c) && n <= |c|
    ensures |FirstKeys(c, n)| == n
  {
    if n == 0 {
      assert FirstKeys(c, 0) == {};
    } else {
      CountKeys(c, n - 1);
      assert FirstKeys(c, n) == FirstKeys(c, n - 1) + {c[n - 1].0};
    }
  }

  lemma Smaller(a: set<string>, b: set<string>)
    requires a <= b
    ensures |a| <= |b|
  {
    assert a + (b - a) == b;
  }

  lemma Larger(a: set<string>, b: set<string>)
    ensures |a| <= |a + b|
  {
    Smaller(a, a + b);
  }

  lemma WithoutFrom(c: Contents, p: nat, i: nat)
    requires p < |c| && i < |Without(c, p)|
    ensures Without(c, p)[i] == c[if i < p then i else i + 1]
  {
  }

  /** Whatever a step leaves in the cache was there before, or is the entry the step uses. */
  lemma StepFrom(c: Contents, op: Op, maxEntries: int, i: nat)
    requires i < |Apply(c, op, maxEntries)|
    ensures var e := Apply(c, op, maxEntries)[i]; e in c || (op.Keep? && e == (op.key, op.v))
  {
    var p := IndexOf(c, op.key);
    if p == |c| {
      assert op.Look? ==> Apply(c, op, maxEntries)[i] in c;
      assert op.Keep? ==> Apply(c, op, maxEntries)[i] == if i == 0 then (op.key, op.v) else c[i - 1];
    } else if Expires(c, op) {
      WithoutFrom(c, p, i);
    } else if i > 0 {
      WithoutFrom(c, p, i - 1);
    }
  }

  /** Only a store of its own brings a key into the cache. */
  lemma NotBack(c: Contents, op: Op, key: string, maxEntries: int)
    requires !Holds(c, key) && op.key != key
    ensures !Holds(Apply(c, op, maxEntries), key)
  {
    var c' := Apply(c, op, maxEntries);
    var i := IndexOf(c', key);
    if i < |c'| {
      StepFrom(c, op, maxEntries, i);
    }
  }

  lemma PlaceOf(c: Contents, key: string, i: nat)
    requires Distinct(c) && i < |c| && c[i].0 == key
    ensures IndexOf(c, key) == i
  {
  }

  lemma RemovedAhead(c: Contents, i: nat, key: string)
    requires Distinct(c) && i < |c| && Holds(c, key) && c[i].0 != key
    ensures Distinct(Without(c, i)) && Holds(Without(c, i), key)
    ensures Without(c, i)[IndexOf(Without(c, i), key)] == c[IndexOf(c, key)]
    ensures Ahead(Without(c, i), key) == Ahead(c, key) - {c[i].0}
  {
    var c', p := Without(c, i), IndexOf(c, key);
    var p' := if p < i then p else p - 1;
    assert c'[p'] == c[p];
    PlaceOf(c', key, p');
    forall k | k in Ahead(c, key) && k != c[i].0 ensures k in Ahead(c', key) {
      var j :| 0 <= j < p && c[j].0 == k;
      assert c'[if j < i then j else j - 1].0 == k;
    }
    forall k | k in Ahead(c', key) ensures k in Ahead(c, key) && k != c[i].0 {
      var j :| 0 <= j < p' && c'[j].0 == k;
      assert c[if j < i then j else j + 1].0 == k;
    }
  }

  lemma PushedAhead(c: Contents, e: (string, Verdict), key: string)
    requires Holds(c, key) && e.0 != key
    ensures Holds([e] + c, key) && ([e] + c)[IndexOf([e] + c, key)] == c[IndexOf(c, key)]
    ensures Ahead([e] + c, key) == Ahead(c, key) + {e.0}
  {
    var c' := [e] + c;
    assert c'[1..] == c;
    forall k | k in Ahead(c, key) ensures k in Ahead(c', key) {
      var j :| 0 <= j < IndexOf(c, key) && c[j].0 == k;
      assert c'[j + 1].0 == k;
    }
    assert c'[0].0 in Ahead(c', key);
  }

  lemma TrimmedAhead(c: Contents, key: string, maxEntries: int)
    requires Distinct(c) && Holds(c, key)
    ensures Holds(Trimmed(c, maxEntries), key) <==> (maxEntries > 0 ==> |Ahead(c, key)| < maxEntries)
    ensures Holds(Trimmed(c, maxEntries), key) ==>
              Trimmed(c, maxEntries)[IndexOf(Trimmed(c, maxEntries), key)] == c[IndexOf(c, key)]
              && Ahead(Trimmed(c, maxEntries), key) == Ahead(c, key)
  {
    var p := IndexOf(c, key);
    CountKeys(c, p);
    if 0 < maxEntries < |c| {
      if p < maxEntries {
        PlaceOf(c[..maxEntries], key, p);
      }
    }
  }

  lemma FrontDistinct(c: Contents, i: nat, e: (string, Verdict))
    requires Distinct(c) && i < |c| && c[i].0 == e.0
    ensures Distinct([e] + Without(c, i))
  {
    forall j | 0 <= j < |Without(c, i)| ensures Without(c, i)[j].0 != e.0 {
      WithoutFrom(c, i, j);
    }
  }

  /** An entry in the cache moves to the front. */
  lemma FrontAhead(c: Contents, i: nat, e: (string, Verdict), key: string)
    requires Distinct(c) && Holds(c, key) && i < |c| && c[i].0 == e.0 != key
    ensures var c' := [e] + Without(c, i);
            && Holds(c', key) && c'[IndexOf(c', key)] == c[IndexOf(c, key)]
            && Ahead(c', key) == Ahead(c, key) + {e.0}
            && |Ahead(c', key)| < |c|
  {
    RemovedAhead(c, i, key);
    PushedAhead(Without(c, i), e, key);
    var c' := [e] + Without(c, i);
    FrontDistinct(c, i, e);
    CountKeys(c', IndexOf(c', key));
  }

  /** key's place after a step: c' has it, with its verdict, and used is what is now ahead of it. */
  ghost predicate KeepsPlace(c: Contents, c': Contents, key: string, used: set<string>) {
    Holds(c, key) && Holds(c', key) && c'[IndexOf(c', key)] == c[IndexOf(c, key)] && Ahead(c', key) == used
  }

  lemma UseAhead(c: Contents, op: Op, key: string, maxEntries: int)
    requires Within(c, maxEntries) && Holds(c, key) && op.key != key && Holds(c, op.key) && IsUse(c, op)
    ensures KeepsPlace(c, Apply(c, op, maxEntries), key, Ahead(c, key) + {op.key})
    ensures |Ahead(c, key) + {op.key}| < |c|
  {
    var i := IndexOf(c, op.key);
    FrontAhead(c, i, if op.Keep? then (op.key, op.v) else c[i], key);
  }

  lemma ExpireAhead(c: Contents, op: Op, key: string, maxEntries: int)
    requires Within(c, maxEntries) && Holds(c, key) && op.key != key && Expires(c, op)
    ensures KeepsPlace(c, Apply(c, op, maxEntries), key, Ahead(c, key) - {op.key})
  {
    RemovedAhead(c, IndexOf(c, op.key), key);
  }

  lemma NewAhead(c: Contents, op: Op, key: string, maxEntries: int)
    requires Within(c, maxEntries) && Holds(c, key) && op.key != key && op.Keep? && !Holds(c, op.key)
    ensures var ahead, c' := Ahead(c, key) + {op.key}, Apply(c, op, maxEntries);
            if maxEntries > 0 ==> |ahead| < maxEntries then KeepsPlace(c, c', key, ahead) else !Holds(c', key)
  {
    PushedAhead(c, (op.key, op.v), key);
    TrimmedAhead([(op.key, op.v)] + c, key, maxEntries);
  }

  /** The keys ahead of key after a step: those ahead before it and the one it uses, less one that expires. */
  lemma StepAhead(c: Contents, op: Op, key: string, maxEntries: int)
    requires Within(c, maxEntries) && Holds(c, key) && op.key != key
    ensures var ahead, c' := Ahead(c, key) + UsedBy(c, op), Apply(c, op, maxEntries);
            if maxEntries > 0 ==> |ahead| < maxEntries
            then KeepsPlace(c, c', key, if Expires(c, op) then Ahead(c, key) - {op.key} else ahead)
            else !Holds(c', key)
  {
    if Expires(c, op) {
      ExpireAhead(c, op, key, maxEntries);
      StayAhead(c, key);
    } else if Holds(c, op.key) {
      UseAhead(c, op, key, maxEntries);
    } else if op.Keep? {
      NewAhead(c, op, key, maxEntries);
    } else {
      StayAhead(c, key);
    }
  }

  lemma StayAhead(c: Contents, key: string)
    requires Distinct(c) && Holds(c, key)
    ensures |Ahead(c, key) + {}| < |c|
  {
    CountKeys(c, IndexOf(c, key));
    assert Ahead(c, key) + {} == Ahead(c, key);
  }

  /**
   An entry that is used and then left alone: while fewer than maxEntries other keys are stored or
   hit it stays, with its verdict; and once maxEntries are, none of them dropped as expired in
   between, it is gone.
   */
  lemma {:induction false} SurvivesWhileFew(c: Contents, ops: seq<Op>, key: string, maxEntries: int)
    requires Within(c, maxEntries) && c != [] && c[0].0 == key
    requires forall op :: op in ops ==> op.key != key
    ensures var c', used := After(c, ops, maxEntries), Used(c, ops, maxEntries);
            && ((maxEntries > 0 ==> |used| < maxEntries) ==> Holds(c', key))
            && (NoneExpires(c, ops, maxEntries) && Holds(c', key) ==> (maxEntries > 0 ==> |used| < maxEntries))
            && (Holds(c', key) ==> c'[IndexOf(c', key)] == c[0] && Ahead(c', key) <= used)
            && (Holds(c', key) && NoneExpires(c, ops, maxEntries) ==> Ahead(c', key) == used)
  {
    if ops == [] {
      assert Ahead(c, key) == {};
    } else {
      var init, op := ops[..|ops| - 1], ops[|ops| - 1];
      SurvivesWhileFew(c, init, key, maxEntries);
      NeverOutgrows(c, init, maxEntries);
      var d, used := After(c, init, maxEntries), Used(c, init, maxEntries);
      Larger(used, UsedBy(d, op));
      if Holds(d, key) {
        StepAhead(d, op, key, maxEntries);
        Smaller(Ahead(d, key) + UsedBy(d, op), used + UsedBy(d, op));
      } else {
        NotBack(d, op, key, maxEntries);
      }
    }
  }

  /**
   After any history, a key just stored or hit answers the next lookup of it with the verdict last
   stored, if that has not expired and fewer than maxEntries other keys were stored or hit in between.
   */
  lemma HitWhileFew(before: seq<Op>, use: Op, ops: seq<Op>, maxEntries: int, now: int)
    requires IsUse(After([], before, maxEntries), use)
    requires forall op :: op in ops ==> op.key != use.key
    ensures var c := Apply(After([], before, maxEntries), use, maxEntries);
            && c != [] && LastStored(before + [use], use.key) == Some(c[0].1)
            && ((maxEntries > 0 ==> |Used(c, ops, maxEntries)| < maxEntries) && now <= c[0].1.expires ==>
                  Looked(After(c, ops, maxEntries), use.key, now).1 == Some(c[0].1))
  {
    NeverOutgrows([], before, maxEntries);
    StepWithin(After([], before, maxEntries), use, maxEntries);
    assert (before + [use])[..|before|] == before;
    HoldsLastStored(before + [use], maxEntries, 0);
    SurvivesWhileFew(Apply(After([], before, maxEntries), use, maxEntries), ops, use.key, maxEntries);
  }
}
