/**
 * The bounded, TTL-clamped decision memo. Its entries are a JavaScript `Map`: `order` is
 * the insertion order the program relies on for eviction. The model shows that the memo
 * answers as its full event log does.
 */
module DecisionMemo {
  import opened Common

  const MAX_TTL_MS := 5000
  const MAX_ENTRIES := 1024

  datatype Entry<D> = Entry(decision: D, storedAt: int)

  datatype Memo<D> = Memo(order: seq<string>, entries: map<string, Entry<D>>)

  // ---------- The operations as functions ----------

  function ClampTtl(ttlMs: int): int {
    var floor := if ttlMs > 0 then ttlMs else 0;
    if floor < MAX_TTL_MS then floor else MAX_TTL_MS
  }

  function Without(order: seq<string>, key: string): seq<string> {
    if order == [] then []
    else if order[0] == key then Without(order[1..], key)
    else [order[0]] + Without(order[1..], key)
  }

  function Delete<D>(m: Memo<D>, key: string): Memo<D> {
    Memo(Without(m.order, key), m.entries - {key})
  }

  predicate Expired<D>(m: Memo<D>, ttlMs: int, key: string, now: int) {
    key in m.entries && now - m.entries[key].storedAt >= ttlMs
  }

  function AfterGet<D>(m: Memo<D>, ttlMs: int, key: string, now: int): Memo<D> {
    if ttlMs > 0 && Expired(m, ttlMs, key, now) then Delete(m, key) else m
  }

  function Answer<D>(m: Memo<D>, ttlMs: int, key: string, now: int): Option<D> {
    if ttlMs > 0 && key in m.entries && !Expired(m, ttlMs, key, now)
    then Some(m.entries[key].decision) else None
  }

  function Insert<D>(m: Memo<D>, key: string, decision: D, now: int): Memo<D> {
    Memo(Without(m.order, key) + [key], m.entries[key := Entry(decision, now)])
  }

  /** Drops from the front until the memo fits. */
  function Evict<D>(m: Memo<D>): Memo<D>
    decreases |m.order|
  {
    if |m.order| <= MAX_ENTRIES then m
    else Evict(Memo(m.order[1..], m.entries - {m.order[0]}))
  }

  function AfterSet<D>(m: Memo<D>, ttlMs: int, key: string, decision: D, now: int): Memo<D> {
    if ttlMs <= 0 then m else Evict(Insert(m, key, decision, now))
  }

  /** Each key once in the order, and exactly the keys that have an entry. */
  ghost predicate WellFormed<D>(m: Memo<D>) {
    && (forall i, j :: 0 <= i < j < |m.order| ==> m.order[i] != m.order[j])
    && (forall key :: key in m.order <==> key in m.entries)
  }

  lemma {:induction false} WithoutIsRemoval(order: seq<string>, key: string)
    ensures key !in Without(order, key)
    ensures forall k :: k in Without(order, key) <==> k in order && k != key
    ensures |Without(order, key)| <= |order|
  {
    if order != [] {
      WithoutIsRemoval(order[1..], key);
      assert order == [order[0]] + order[1..];
    }
  }

  /** Removing a key keeps the relative order of the others. */
  lemma {:induction false} WithoutKeepsOrder(order: seq<string>, key: string, rank: string -> int)
    requires forall i, j :: 0 <= i < j < |order| ==> rank(order[i]) < rank(order[j])
    ensures var w := Without(order, key);
            forall i, j :: 0 <= i < j < |w| ==> rank(w[i]) < rank(w[j])
  {
    if order != [] {
      var w := Without(order[1..], key);
      WithoutKeepsOrder(order[1..], key, rank);
      WithoutIsRemoval(order[1..], key);
      forall j | 0 <= j < |w|
        ensures rank(order[0]) < rank(w[j])
      {
        assert w[j] in order[1..];
      }
    }
  }

  // ---------- The memo, updated in place ----------

  class DecisionMemo<D> {
    const ttlMs: int
    var order: seq<string>
    var entries: map<string, Entry<D>>

    ghost predicate Valid()
      reads this
    {
      WellFormed(Now()) && 0 <= ttlMs <= MAX_TTL_MS
    }

    ghost function Now(): Memo<D>
      reads this
    {
      Memo(order, entries)
    }

    constructor (requestedMs: int)
      ensures Valid() && Now() == Memo([], map[]) && ttlMs == ClampTtl(requestedMs)
    {
      ttlMs := ClampTtl(requestedMs);
      order, entries := [], map[];
    }

    /** `Map.delete`: one pass over the order. */
    method DeleteKey(key: string)
      modifies this
      ensures Now() == Delete(old(Now()), key)
    {
      var kept := [];
      for i := |order| downto 0
        invariant order == old(order) && entries == old(entries)
        invariant kept == Without(order[i..], key)
      {
        assert order[i..] == [order[i]] + order[i + 1..];
        if order[i] != key {
          kept := [order[i]] + kept;
        }
      }
      order := kept;
      entries := entries - {key};
    }

    method Get(key: string, now: int) returns (answer: Option<D>)
      requires Valid()
      modifies this
      ensures Valid()
      ensures answer == Answer(old(Now()), ttlMs, key, now)
      ensures Now() == AfterGet(old(Now()), ttlMs, key, now)
    {
      if ttlMs <= 0 || key !in entries {
        return None;
      }
      if now - entries[key].storedAt >= ttlMs {
        DeleteStaysWellFormed(Now(), key);
        DeleteKey(key);
        return None;
      }
      return Some(entries[key].decision);
    }

    method Set(key: string, decision: D, now: int)
      requires Valid()
      modifies this
      ensures Valid()
      ensures Now() == AfterSet(old(Now()), ttlMs, key, decision, now)
    {
      if ttlMs <= 0 {
        return;
      }
      InsertStaysWellFormed(Now(), key, decision, now);
      DeleteKey(key);
      order, entries := order + [key], entries[key := Entry(decision, now)];
      assert Now() == Insert(old(Now()), key, decision, now);
      while |order| > MAX_ENTRIES
        invariant WellFormed(Now())
        invariant Evict(Now()) == AfterSet(old(Now()), ttlMs, key, decision, now)
        decreases |order|
      {
        DropFrontStaysWellFormed(Now());
        var oldest := order[0];
        order, entries := order[1..], entries - {oldest};
      }
    }

    method Clear()
      modifies this
      ensures Now() == Memo([], map[])
    {
      order, entries := [], map[];
    }
  }

  lemma DeleteStaysWellFormed<D>(m: Memo<D>, key: string)
    requires WellFormed(m)
    ensures WellFormed(Delete(m, key))
  {
    WithoutIsRemoval(m.order, key);
    var rank := PositionIn(m.order);
    WithoutKeepsOrder(m.order, key, rank);
  }

  /** The position of a key of a repetition-free order. */
  ghost function PositionIn(order: seq<string>): (rank: string -> int)
    requires forall i, j :: 0 <= i < j < |order| ==> order[i] != order[j]
    ensures forall i :: 0 <= i < |order| ==> rank(order[i]) == i
  {
    k => if k in order then (var i :| 0 <= i < |order| && order[i] == k; i) else -1
  }

  lemma InsertStaysWellFormed<D>(m: Memo<D>, key: string, decision: D, now: int)
    requires WellFormed(m)
    ensures WellFormed(Insert(m, key, decision, now))
  {
    DeleteStaysWellFormed(m, key);
    WithoutIsRemoval(m.order, key);
  }

  lemma DropFrontStaysWellFormed<D>(m: Memo<D>)
    requires WellFormed(m) && m.order != []
    ensures WellFormed(Memo(m.order[1..], m.entries - {m.order[0]}))
  {
    assert m.order == [m.order[0]] + m.order[1..];
    var m' := Memo(m.order[1..], m.entries - {m.order[0]});
    forall key
      ensures key in m'.order <==> key in m'.entries
    {
      assert key in m.order <==> key in m.entries;
    }
  }

  // ---------- The event log ----------

  datatype Event<D> =
    | Got(key: string, at: int)
    | Stored(key: string, decision: D, at: int)
    | Cleared(at: int)

  function AfterEvent<D>(m: Memo<D>, ttlMs: int, e: Event<D>): Memo<D> {
    match e
    case Got(key, at) => AfterGet(m, ttlMs, key, at)
    case Stored(key, decision, at) => AfterSet(m, ttlMs, key, decision, at)
    case Cleared(_) => Memo([], map[])
  }

  function After<D>(ttlMs: int, log: seq<Event<D>>): Memo<D> {
    if log == [] then Memo([], map[])
    else AfterEvent(After(ttlMs, log[..|log| - 1]), ttlMs, log[|log| - 1])
  }

  /** Where the key was last stored since the last clear; -1 if nowhere. */
  function LastStored<D>(log: seq<Event<D>>, key: string): (i: int)
    ensures -1 <= i < |log|
    ensures 0 <= i ==> log[i].Stored? && log[i].key == key
  {
    if log == [] then -1
    else match log[|log| - 1]
      case Stored(k, _, _) => if k == key then |log| - 1 else LastStored(log[..|log| - 1], key)
      case Cleared(_) => -1
      case Got(_, _) => LastStored(log[..|log| - 1], key)
  }

  /** A lookup of the key after its last store read a time at or past its TTL. */
  ghost predicate Lapsed<D>(ttlMs: int, log: seq<Event<D>>, key: string) {
    var i := LastStored(log, key);
    0 <= i && exists g :: i < g < |log| && log[g].Got? && log[g].key == key && log[g].at - log[i].at >= ttlMs
  }

  /** The keys last stored after event `i` that no lookup has found lapsed. */
  ghost function Behind<D>(ttlMs: int, log: seq<Event<D>>, i: int): set<string> {
    set j | 0 <= j < |log| && i < j && log[j].Stored?
            && i < LastStored(log, log[j].key) && !Lapsed(ttlMs, log, log[j].key) :: log[j].key
  }

  /** At no moment since event `i` were there 1024 such keys at once. */
  ghost predicate NeverCrowded<D>(ttlMs: int, log: seq<Event<D>>, i: int) {
    forall n: nat :: i < n <= |log| ==> |Behind(ttlMs, log[..n], i)| < 1024
  }

  /**
   * What the log calls for, whatever the clock read: the key was stored since the last clear, no lookup
   * found it lapsed, and it was never pushed out.
   */
  ghost predicate Kept<D>(ttlMs: int, log: seq<Event<D>>, key: string) {
    && ttlMs > 0 && 0 <= LastStored(log, key)
    && !Lapsed(ttlMs, log, key) && NeverCrowded(ttlMs, log, LastStored(log, key))
  }

  lemma {:induction false} LastStoredIsLast<D>(log: seq<Event<D>>, key: string)
    ensures var i := LastStored(log, key);
            && (0 <= i ==> forall j :: i < j < |log| ==>
                  !log[j].Cleared? && !(log[j].Stored? && log[j].key == key))
            && (i == -1 ==> forall j :: 0 <= j < |log| && log[j].Stored? && log[j].key == key ==>
                  exists c :: j < c < |log| && log[c].Cleared?)
  {
    if log != [] {
      var k := |log| - 1;
      var i, before := LastStored(log, key), log[..k];
      LastStoredIsLast(before, key);
      if 0 <= i < k {
        forall j | i < j < |log|
          ensures !log[j].Cleared? && !(log[j].Stored? && log[j].key == key)
        {
          assert j < k ==> log[j] == before[j];
        }
      }
      if i == -1 {
        forall j | 0 <= j < |log| && log[j].Stored? && log[j].key == key
          ensures exists c :: j < c < |log| && log[c].Cleared?
        {
          if log[k].Cleared? {
            assert j < k;
          } else {
            assert before[j] == log[j];
            var c :| j < c < k && before[c].Cleared?;
            assert log[c].Cleared?;
          }
        }
      }
    }
  }

  // ---------- What every run keeps ----------

  /** Oldest store first. */
  ghost predicate Sorted<D>(m: Memo<D>, log: seq<Event<D>>) {
    forall i, j :: 0 <= i < j < |m.order| ==> LastStored(log, m.order[i]) < LastStored(log, m.order[j])
  }

  /** Every entry is what the log last stored under its key. */
  ghost predicate Accurate<D>(m: Memo<D>, log: seq<Event<D>>) {
    forall k :: k in m.entries ==>
      var i := LastStored(log, k);
      0 <= i && m.entries[k] == Entry(log[i].decision, log[i].at)
  }

  /** The entries are exactly the keys that the log calls for. */
  ghost predicate Complete<D>(m: Memo<D>, ttlMs: int, log: seq<Event<D>>) {
    forall k :: k in m.entries <==> Kept(ttlMs, log, k)
  }

  ghost predicate Tracks<D>(m: Memo<D>, ttlMs: int, log: seq<Event<D>>) {
    WellFormed(m) && Sorted(m, log) && Accurate(m, log) && Complete(m, ttlMs, log)
  }

  /** A key stored at `j`, with no clear afterwards, was last stored at `j` or later. */
  lemma {:induction false} LaterStoreIsLast<D>(log: seq<Event<D>>, j: nat)
    requires j < |log| && log[j].Stored?
    requires forall c :: j < c < |log| ==> !log[c].Cleared?
    ensures j <= LastStored(log, log[j].key)
  {
    var k := |log| - 1;
    if j < k {
      assert log[..k][j] == log[j];
      LaterStoreIsLast(log[..k], j);
    }
  }

  /** A key is behind exactly when it was last stored later and has not lapsed. */
  lemma BehindMembers<D>(ttlMs: int, log: seq<Event<D>>, i: int, k: string)
    requires -1 <= i
    ensures k in Behind(ttlMs, log, i) <==> i < LastStored(log, k) && !Lapsed(ttlMs, log, k)
  {
    if i < LastStored(log, k) {
      assert log[LastStored(log, k)].key == k;
    }
  }

  lemma AppendEvent<D>(log: seq<Event<D>>, e: Event<D>, k: string)
    ensures LastStored(log + [e], k) ==
            if e.Cleared? then -1 else if e.Stored? && e.key == k then |log| else LastStored(log, k)
  {
    assert (log + [e])[..|log|] == log;
  }

  lemma AppendLapsed<D>(ttlMs: int, log: seq<Event<D>>, e: Event<D>, k: string)
    requires !e.Cleared? && !(e.Stored? && e.key == k)
    ensures var i := LastStored(log, k);
            Lapsed(ttlMs, log + [e], k) <==>
            Lapsed(ttlMs, log, k) || (e.Got? && e.key == k && 0 <= i && e.at - log[i].at >= ttlMs)
  {
    var log', i := log + [e], LastStored(log, k);
    AppendEvent(log, e, k);
    assert log'[|log|] == e && forall g :: 0 <= g < |log| ==> log'[g] == log[g];
  }

  lemma AppendBehind<D>(ttlMs: int, log: seq<Event<D>>, e: Event<D>, i: int)
    requires 0 <= i < |log| && !e.Cleared?
    ensures e.Stored? ==> Behind(ttlMs, log + [e], i) == Behind(ttlMs, log, i) + {e.key}
    ensures e.Got? ==> Behind(ttlMs, log + [e], i) <= Behind(ttlMs, log, i)
  {
    forall k
      ensures k in Behind(ttlMs, log + [e], i) ==> k in Behind(ttlMs, log, i) || (e.Stored? && k == e.key)
      ensures e.Stored? && (k in Behind(ttlMs, log, i) || k == e.key) ==> k in Behind(ttlMs, log + [e], i)
    {
      BehindMembers(ttlMs, log + [e], i, k);
      BehindMembers(ttlMs, log, i, k);
      AppendEvent(log, e, k);
      if e.Got? || e.key != k {
        AppendLapsed(ttlMs, log, e, k);
      }
    }
  }

  lemma AppendCrowded<D>(ttlMs: int, log: seq<Event<D>>, e: Event<D>, i: int)
    requires i < |log|
    ensures NeverCrowded(ttlMs, log + [e], i) <==>
            NeverCrowded(ttlMs, log, i) && |Behind(ttlMs, log + [e], i)| < MAX_ENTRIES
  {
    var log' := log + [e];
    assert log'[..|log'|] == log';
    assert forall n :: 0 <= n <= |log| ==> log'[..n] == log[..n];
  }

  /** A key stored just now is kept. */
  lemma JustStoredIsKept<D>(ttlMs: int, log: seq<Event<D>>, e: Event<D>)
    requires ttlMs > 0 && e.Stored?
    ensures Kept(ttlMs, log + [e], e.key)
  {
    var log' := log + [e];
    AppendEvent(log, e, e.key);
    forall k
      ensures k !in Behind(ttlMs, log', |log|)
    {
      BehindMembers(ttlMs, log', |log|, k);
    }
    assert log'[..|log'|] == log';
    assert Behind(ttlMs, log', |log|) == {};
  }

  /** Storing another key keeps a key that is not crowded out by it. */
  lemma KeptAfterStore<D>(ttlMs: int, log: seq<Event<D>>, e: Event<D>, k: string)
    requires e.Stored? && e.key != k
    ensures Kept(ttlMs, log + [e], k) <==>
            Kept(ttlMs, log, k) && |Behind(ttlMs, log + [e], LastStored(log, k))| < MAX_ENTRIES
  {
    AppendEvent(log, e, k);
    AppendLapsed(ttlMs, log, e, k);
    AppendCrowded(ttlMs, log, e, LastStored(log, k));
  }

  /** A lookup drops its own key if it finds it lapsed, and no other. */
  lemma KeptAfterLookup<D>(ttlMs: int, log: seq<Event<D>>, e: Event<D>, k: string)
    requires e.Got?
    ensures Kept(ttlMs, log + [e], k) <==>
            Kept(ttlMs, log, k) && !(e.key == k && e.at - log[LastStored(log, k)].at >= ttlMs)
  {
    AppendEvent(log, e, k);
    AppendLapsed(ttlMs, log, e, k);
    var i := LastStored(log, k);
    AppendCrowded(ttlMs, log, e, i);
    if Kept(ttlMs, log, k) {
      AppendBehind(ttlMs, log, e, i);
      assert log[..|log|] == log;
      SubsetSize(Behind(ttlMs, log + [e], i), Behind(ttlMs, log, i));
    }
  }

  /** What is behind a kept key is kept itself: it cannot have been pushed out before it. */
  lemma BehindIsKept<D>(ttlMs: int, log: seq<Event<D>>, k: string, other: string)
    requires Kept(ttlMs, log, k) && other in Behind(ttlMs, log, LastStored(log, k))
    ensures Kept(ttlMs, log, other)
  {
    var i := LastStored(log, k);
    BehindMembers(ttlMs, log, i, other);
    forall n | LastStored(log, other) < n <= |log|
      ensures |Behind(ttlMs, log[..n], LastStored(log, other))| < MAX_ENTRIES
    {
      LaterHasFewerBehind(ttlMs, log[..n], i, LastStored(log, other));
    }
  }

  lemma LaterHasFewerBehind<D>(ttlMs: int, log: seq<Event<D>>, i: int, j: int)
    requires -1 <= i <= j
    ensures |Behind(ttlMs, log, j)| <= |Behind(ttlMs, log, i)|
  {
    forall k | k in Behind(ttlMs, log, j)
      ensures k in Behind(ttlMs, log, i)
    {
      BehindMembers(ttlMs, log, i, k);
      BehindMembers(ttlMs, log, j, k);
    }
    SubsetSize(Behind(ttlMs, log, j), Behind(ttlMs, log, i));
  }

  lemma {:induction false} DistinctCount(order: seq<string>)
    requires forall i, j :: 0 <= i < j < |order| ==> order[i] != order[j]
    ensures |set k | k in order| == |order|
  {
    if order != [] {
      DistinctCount(order[1..]);
      assert order == [order[0]] + order[1..];
      assert (set k | k in order) == {order[0]} + set k | k in order[1..];
    }
  }

  lemma EntriesCount<D>(m: Memo<D>)
    requires WellFormed(m)
    ensures |m.entries.Keys| == |m.order|
  {
    DistinctCount(m.order);
    assert m.entries.Keys == set k | k in m.order;
  }

  /** A lookup leaves the memo as the log with the lookup calls for. */
  lemma LookupTracks<D>(m: Memo<D>, ttlMs: int, log: seq<Event<D>>, key: string, at: int)
    requires Tracks(m, ttlMs, log) && ttlMs > 0
    ensures Tracks(AfterGet(m, ttlMs, key, at), ttlMs, log + [Got(key, at)])
  {
    var m', e := AfterGet(m, ttlMs, key, at), Got(key, at);
    DeleteStaysWellFormed(m, key);
    WithoutIsRemoval(m.order, key);
    WithoutKeepsOrder(m.order, key, k => LastStored(log, k));
    forall k
      ensures LastStored(log + [e], k) == LastStored(log, k)
      ensures k in m'.entries <==> Kept(ttlMs, log + [e], k)
    {
      AppendEvent(log, e, k);
      KeptAfterLookup(ttlMs, log, e, k);
    }
  }

  lemma InsertSorted<D>(m: Memo<D>, log: seq<Event<D>>, key: string, decision: D, at: int)
    requires WellFormed(m) && Sorted(m, log)
    ensures Sorted(Insert(m, key, decision, at), log + [Stored(key, decision, at)])
  {
    var e := Stored(key, decision, at);
    var w, order' := Without(m.order, key), Insert(m, key, decision, at).order;
    WithoutIsRemoval(m.order, key);
    WithoutKeepsOrder(m.order, key, k => LastStored(log, k));
    forall i, j | 0 <= i < j < |order'|
      ensures LastStored(log + [e], order'[i]) < LastStored(log + [e], order'[j])
    {
      AppendEvent(log, e, order'[i]);
      AppendEvent(log, e, order'[j]);
      assert order'[i] == w[i] && w[i] in w;
      assert j < |w| ==> order'[j] == w[j] && w[j] in w;
    }
  }

  lemma InsertAccurate<D>(m: Memo<D>, log: seq<Event<D>>, key: string, decision: D, at: int)
    requires Accurate(m, log)
    ensures Accurate(Insert(m, key, decision, at), log + [Stored(key, decision, at)])
  {
    var e := Stored(key, decision, at);
    forall k
      ensures LastStored(log + [e], k) == if k == key then |log| else LastStored(log, k)
    {
      AppendEvent(log, e, k);
    }
  }

  /** Before eviction the entries are the kept ones and the new one. */
  ghost predicate Inserted<D>(m: Memo<D>, ttlMs: int, log: seq<Event<D>>, e: Event<D>)
    requires e.Stored?
  {
    && WellFormed(m) && Sorted(m, log + [e]) && Accurate(m, log + [e])
    && m.order != [] && m.order[|m.order| - 1] == e.key && |m.order| <= MAX_ENTRIES + 1
    && forall k :: k in m.entries <==> k == e.key || Kept(ttlMs, log, k)
  }

  lemma InsertInserts<D>(m: Memo<D>, ttlMs: int, log: seq<Event<D>>, key: string, decision: D, at: int)
    requires Tracks(m, ttlMs, log) && |m.order| <= MAX_ENTRIES
    ensures Inserted(Insert(m, key, decision, at), ttlMs, log, Stored(key, decision, at))
  {
    InsertStaysWellFormed(m, key, decision, at);
    WithoutIsRemoval(m.order, key);
    InsertSorted(m, log, key, decision, at);
    InsertAccurate(m, log, key, decision, at);
  }

  lemma FrontPartIsKept<D>(m: Memo<D>, ttlMs: int, log: seq<Event<D>>, e: Event<D>, p: nat)
    requires e.Stored? && Inserted(m, ttlMs, log, e) && p < |m.order| - 1
    ensures m.order[p] != e.key && Kept(ttlMs, log, m.order[p])
  {
    assert m.order[p] in m.order && m.order[p] in m.entries;
  }

  /** Behind an entry, in the log, is what stands behind it in the order. */
  lemma BehindInOrder<D>(m: Memo<D>, ttlMs: int, log: seq<Event<D>>, e: Event<D>, p: nat)
    requires e.Stored? && Inserted(m, ttlMs, log, e) && p < |m.order| - 1
    ensures |Behind(ttlMs, log + [e], LastStored(log, m.order[p]))| == |m.order| - 1 - p
  {
    var later, behind := m.order[p + 1..], Behind(ttlMs, log + [e], LastStored(log, m.order[p]));
    FrontPartIsKept(m, ttlMs, log, e, p);
    AppendEvent(log, e, m.order[p]);
    forall other
      ensures other in later <==> other in behind
    {
      if other in later {
        LaterHasNotLapsed(m, ttlMs, log, e, p, other);
        LaterIsBehind(m, ttlMs, log + [e], p, other);
      }
      if other in behind {
        BehindIsKeptOrNew(ttlMs, log, e, m.order[p], other);
        assert other in m.entries;
        BehindIsLater(m, ttlMs, log + [e], p, other);
      }
    }
    CountOf(later, behind);
  }

  lemma CountOf(order: seq<string>, keys: set<string>)
    requires forall i, j :: 0 <= i < j < |order| ==> order[i] != order[j]
    requires forall k :: k in order <==> k in keys
    ensures |keys| == |order|
  {
    DistinctCount(order);
    assert keys == set k | k in order;
  }

  lemma LaterHasNotLapsed<D>(m: Memo<D>, ttlMs: int, log: seq<Event<D>>, e: Event<D>, p: nat, other: string)
    requires e.Stored? && Inserted(m, ttlMs, log, e) && p < |m.order| && other in m.order[p..]
    ensures !Lapsed(ttlMs, log + [e], other)
  {
    AppendEvent(log, e, other);
    if other != e.key {
      assert other in m.order && other in m.entries;
      AppendLapsed(ttlMs, log, e, other);
    }
  }

  lemma LaterIsBehind<D>(m: Memo<D>, ttlMs: int, log: seq<Event<D>>, p: nat, other: string)
    requires WellFormed(m) && Sorted(m, log) && p < |m.order| && other in m.order[p + 1..]
    requires -1 <= LastStored(log, m.order[p]) && !Lapsed(ttlMs, log, other)
    ensures other in Behind(ttlMs, log, LastStored(log, m.order[p]))
  {
    var q :| p < q < |m.order| && m.order[q] == other;
    BehindMembers(ttlMs, log, LastStored(log, m.order[p]), other);
  }

  lemma BehindIsKeptOrNew<D>(ttlMs: int, log: seq<Event<D>>, e: Event<D>, k: string, other: string)
    requires e.Stored? && Kept(ttlMs, log, k) && other in Behind(ttlMs, log + [e], LastStored(log, k))
    ensures other == e.key || Kept(ttlMs, log, other)
  {
    AppendBehind(ttlMs, log, e, LastStored(log, k));
    if other != e.key {
      BehindIsKept(ttlMs, log, k, other);
    }
  }

  lemma BehindIsLater<D>(m: Memo<D>, ttlMs: int, log: seq<Event<D>>, p: nat, other: string)
    requires WellFormed(m) && Sorted(m, log) && p < |m.order| && other in m.order
    requires other in Behind(ttlMs, log, LastStored(log, m.order[p]))
    ensures other in m.order[p + 1..]
  {
    BehindMembers(ttlMs, log, LastStored(log, m.order[p]), other);
    HigherIsLater(m.order, k => LastStored(log, k), p, other);
  }

  lemma HigherIsLater(order: seq<string>, rank: string -> int, p: nat, other: string)
    requires forall i, j :: 0 <= i < j < |order| ==> rank(order[i]) < rank(order[j])
    requires p < |order| && other in order && rank(order[p]) < rank(other)
    ensures other in order[p + 1..]
  {
    var q :| 0 <= q < |order| && order[q] == other;
    assert forall a :: 0 <= a <= p ==> rank(order[a]) <= rank(order[p]);
    assert order[p + 1..][q - p - 1] == other;
  }

  lemma EvictsOne<D>(m: Memo<D>)
    requires |m.order| <= MAX_ENTRIES + 1
    ensures Evict(m) == if |m.order| > MAX_ENTRIES then Memo(m.order[1..], m.entries - {m.order[0]}) else m
  {
  }

  /** Eviction drops the front of an overfull memo, which is the one key that is crowded out. */
  lemma EvictTracks<D>(m: Memo<D>, ttlMs: int, log: seq<Event<D>>, e: Event<D>)
    requires e.Stored? && ttlMs > 0 && Inserted(m, ttlMs, log, e)
    ensures Tracks(Evict(m), ttlMs, log + [e]) && |Evict(m).order| <= MAX_ENTRIES
  {
    EvictsOne(m);
    forall k
      ensures Kept(ttlMs, log + [e], k) <==> k in m.entries && !(|m.order| > MAX_ENTRIES && k == m.order[0])
    {
      EvictsTheCrowded(m, ttlMs, log, e, k);
    }
    if |m.order| > MAX_ENTRIES {
      DropFrontTracks(m, ttlMs, log + [e]);
    }
  }

  lemma DropFrontTracks<D>(m: Memo<D>, ttlMs: int, log: seq<Event<D>>)
    requires WellFormed(m) && m.order != [] && Sorted(m, log) && Accurate(m, log)
    requires forall k :: Kept(ttlMs, log, k) <==> k in m.entries && k != m.order[0]
    ensures Tracks(Memo(m.order[1..], m.entries - {m.order[0]}), ttlMs, log)
  {
    DropFrontStaysWellFormed(m);
  }

  lemma EvictsTheCrowded<D>(m: Memo<D>, ttlMs: int, log: seq<Event<D>>, e: Event<D>, k: string)
    requires e.Stored? && ttlMs > 0 && Inserted(m, ttlMs, log, e)
    ensures Kept(ttlMs, log + [e], k) <==> k in m.entries && !(|m.order| > MAX_ENTRIES && k == m.order[0])
  {
    if k == e.key {
      JustStoredIsKept(ttlMs, log, e);
      assert |m.order| > 1 ==> m.order[0] != k;
    } else if k in m.entries {
      var p := PlaceOf(m, k);
      CrowdedAt(m, ttlMs, log, e, p);
    } else {
      KeptAfterStore(ttlMs, log, e, k);
    }
  }

  lemma CrowdedAt<D>(m: Memo<D>, ttlMs: int, log: seq<Event<D>>, e: Event<D>, p: nat)
    requires e.Stored? && Inserted(m, ttlMs, log, e) && p < |m.order| - 1
    ensures Kept(ttlMs, log + [e], m.order[p]) <==> !(|m.order| > MAX_ENTRIES && p == 0)
  {
    FrontPartIsKept(m, ttlMs, log, e, p);
    KeptAfterStore(ttlMs, log, e, m.order[p]);
    BehindInOrder(m, ttlMs, log, e, p);
  }

  lemma PlaceOf<D>(m: Memo<D>, k: string) returns (p: nat)
    requires WellFormed(m) && k in m.entries
    ensures p < |m.order| && m.order[p] == k && (k == m.order[0] <==> p == 0)
  {
    assert k in m.order;
    p :| 0 <= p < |m.order| && m.order[p] == k;
  }

  /** After every run, with a clock that may step back, the memo is what its log calls for. */
  lemma {:induction false} RunTracks<D>(ttlMs: int, log: seq<Event<D>>)
    ensures Tracks(After(ttlMs, log), ttlMs, log)
    ensures |After(ttlMs, log).order| <= MAX_ENTRIES
  {
    if ttlMs <= 0 || log == [] {
      DisabledStaysEmpty(ttlMs, log);
    } else {
      var before, e := log[..|log| - 1], log[|log| - 1];
      assert log == before + [e];
      RunTracks(ttlMs, before);
      EventTracks(After(ttlMs, before), ttlMs, before, e);
    }
  }

  lemma EventTracks<D>(m: Memo<D>, ttlMs: int, log: seq<Event<D>>, e: Event<D>)
    requires Tracks(m, ttlMs, log) && |m.order| <= MAX_ENTRIES && ttlMs > 0
    ensures Tracks(AfterEvent(m, ttlMs, e), ttlMs, log + [e])
    ensures |AfterEvent(m, ttlMs, e).order| <= MAX_ENTRIES
  {
    match e
    case Got(key, at) =>
      WithoutIsRemoval(m.order, key);
      LookupTracks(m, ttlMs, log, key, at);
    case Stored(key, decision, at) =>
      InsertInserts(m, ttlMs, log, key, decision, at);
      EvictTracks(Insert(m, key, decision, at), ttlMs, log, e);
    case Cleared(_) =>
  }

  lemma {:induction false} DisabledStaysEmpty<D>(ttlMs: int, log: seq<Event<D>>)
    requires ttlMs <= 0 || log == []
    ensures After(ttlMs, log) == Memo([], map[])
  {
    if log != [] {
      DisabledStaysEmpty(ttlMs, log[..|log| - 1]);
    }
  }

  // ---------- What a caller sees ----------

  /**
   * In every run, with a clock that may step back, a lookup returns the decision of the key's last
   * store since the last clear exactly when that store is younger than the TTL now, was so at every
   * lookup since, and there never were 1024 other keys stored after it that had not lapsed.
   */
  lemma AnswersAsTheLog<D>(ttlMs: int, log: seq<Event<D>>, key: string, now: int)
    ensures Answer(After(ttlMs, log), ttlMs, key, now) ==
            if Kept(ttlMs, log, key) && now - log[LastStored(log, key)].at < ttlMs
            then Some(log[LastStored(log, key)].decision) else None
  {
    RunTracks(ttlMs, log);
  }

  function Distance(a: int, b: int): nat {
    if a < b then b - a else a - b
  }

  /**
   * The effective TTL is the permitted one nearest to what was asked for; nothing at or below zero
   * enables the memo.
   */
  lemma ClampIsNearest(requestedMs: int, ttlMs: int)
    ensures 0 <= ClampTtl(requestedMs) <= 5000
    ensures 0 <= ttlMs <= 5000 ==>
              Distance(requestedMs, ClampTtl(requestedMs)) <= Distance(requestedMs, ttlMs)
    ensures ClampTtl(requestedMs) > 0 <==> requestedMs > 0
  {
  }

  /** Whatever TTL was asked for and the clock read, an answer was stored less than that and five seconds ago. */
  lemma StalenessIsBounded<D>(requestedMs: int, log: seq<Event<D>>, key: string, now: int)
    ensures var answer := Answer(After(ClampTtl(requestedMs), log), ClampTtl(requestedMs), key, now);
            answer.Some? ==>
              exists i :: 0 <= i < |log| && log[i].Stored? && log[i].key == key &&
                          log[i].decision == answer.value &&
                          now - log[i].at < requestedMs && now - log[i].at < 5000
  {
    AnswersAsTheLog(ClampTtl(requestedMs), log, key, now);
  }

  /** Between calls at most 1024 entries are held, in the order of their last stores. */
  lemma BoundedAndOrdered<D>(ttlMs: int, log: seq<Event<D>>)
    ensures var m := After(ttlMs, log);
            && WellFormed(m)
            && |m.entries.Keys| == |m.order| <= 1024
            && forall i, j :: 0 <= i < j < |m.order| ==> LastStored(log, m.order[i]) < LastStored(log, m.order[j])
  {
    RunTracks(ttlMs, log);
    EntriesCount(After(ttlMs, log));
  }

  ghost predicate LostOnlyTheFirst<D>(full: map<string, Entry<D>>, kept: map<string, Entry<D>>,
                                      log: seq<Event<D>>, first: string) {
    && first in full && kept == full - {first}
    && forall k :: k in full ==> LastStored(log, first) <= LastStored(log, k)
  }

  ghost predicate LosesAtMostTheFirst<D>(full: map<string, Entry<D>>, kept: map<string, Entry<D>>,
                                         log: seq<Event<D>>, key: string) {
    if |full.Keys| <= 1024 then kept == full
    else exists first :: first != key && LostOnlyTheFirst(full, kept, log, first)
  }

  /** One store evicts at most one entry, never its own, and none was last stored before the evicted one. */
  lemma EvictsAtMostTheFirst<D>(ttlMs: int, log: seq<Event<D>>, key: string, decision: D, now: int)
    requires ttlMs > 0
    ensures LosesAtMostTheFirst(After(ttlMs, log).entries[key := Entry(decision, now)],
                                After(ttlMs, log + [Stored(key, decision, now)]).entries,
                                log + [Stored(key, decision, now)], key)
  {
    var m, e := After(ttlMs, log), Stored(key, decision, now);
    RunTracks(ttlMs, log);
    InsertInserts(m, ttlMs, log, key, decision, now);
    EvictLosesAtMostTheFirst(Insert(m, key, decision, now), ttlMs, log, e);
    assert (log + [e])[..|log|] == log;
  }

  lemma EvictLosesAtMostTheFirst<D>(m: Memo<D>, ttlMs: int, log: seq<Event<D>>, e: Event<D>)
    requires e.Stored? && ttlMs > 0 && Inserted(m, ttlMs, log, e)
    ensures LosesAtMostTheFirst(m.entries, Evict(m).entries, log + [e], e.key)
  {
    EvictsOne(m);
    EntriesCount(m);
    if |m.order| > MAX_ENTRIES {
      FrontIsFirst(m, log + [e]);
      assert LostOnlyTheFirst(m.entries, Evict(m).entries, log + [e], m.order[0]);
    }
  }

  lemma FrontIsFirst<D>(m: Memo<D>, log: seq<Event<D>>)
    requires WellFormed(m) && m.order != [] && Sorted(m, log)
    ensures m.order[0] in m.entries
    ensures forall k :: k in m.entries ==> LastStored(log, m.order[0]) <= LastStored(log, k)
  {
    assert m.order[0] in m.order;
    forall k | k in m.entries
      ensures LastStored(log, m.order[0]) <= LastStored(log, k)
    {
      var i :| 0 <= i < |m.order| && m.order[i] == k;
    }
  }

  // ---------- Runs whose clock never goes back ----------

  predicate ClockNeverGoesBack<D>(log: seq<Event<D>>, now: int) {
    && (forall i, j :: 0 <= i < j < |log| ==> log[i].at <= log[j].at)
    && (log != [] ==> log[|log| - 1].at <= now)
  }

  /** The keys stored after event `i`. */
  ghost function StoredAfter<D>(log: seq<Event<D>>, i: int): set<string> {
    set j | 0 <= j < |log| && i < j && log[j].Stored? :: log[j].key
  }

  /** The entry for the key is younger than the TTL and fewer than 1024 others were stored after it. */
  ghost predicate Remembered<D>(ttlMs: int, log: seq<Event<D>>, key: string, now: int) {
    var i := LastStored(log, key);
    0 <= i && now - log[i].at < ttlMs && |StoredAfter(log, i)| < 1024
  }

  /** While an entry is young, everything stored after it is behind it. */
  lemma BehindIsStoredAfter<D>(ttlMs: int, log: seq<Event<D>>, now: int, i: nat, n: nat)
    requires ClockNeverGoesBack(log, now) && i < n <= |log| && now - log[i].at < ttlMs
    requires forall c :: i < c < |log| ==> !log[c].Cleared?
    ensures Behind(ttlMs, log[..n], i) == StoredAfter(log[..n], i)
  {
    var upTo := log[..n];
    forall j | i < j < n && upTo[j].Stored?
      ensures i < LastStored(upTo, upTo[j].key) && !Lapsed(ttlMs, upTo, upTo[j].key)
    {
      LaterStoreIsLast(upTo, j);
    }
  }

  lemma FewerStoredBefore<D>(log: seq<Event<D>>, i: int, n: nat)
    requires n <= |log|
    ensures |StoredAfter(log[..n], i)| <= |StoredAfter(log, i)|
  {
    forall k | k in StoredAfter(log[..n], i)
      ensures k in StoredAfter(log, i)
    {
      var j :| 0 <= j < n && i < j && log[..n][j].Stored? && log[..n][j].key == k;
      assert log[j].key == k;
    }
    SubsetSize(StoredAfter(log[..n], i), StoredAfter(log, i));
  }

  lemma YoungHasNotLapsed<D>(ttlMs: int, log: seq<Event<D>>, key: string, now: int)
    requires ClockNeverGoesBack(log, now) && 0 <= LastStored(log, key) && now - log[LastStored(log, key)].at < ttlMs
    ensures !Lapsed(ttlMs, log, key)
  {
  }

  lemma UncrowdedIffFewStored<D>(ttlMs: int, log: seq<Event<D>>, now: int, i: nat)
    requires ClockNeverGoesBack(log, now) && i < |log| && now - log[i].at < ttlMs
    requires forall c :: i < c < |log| ==> !log[c].Cleared?
    ensures NeverCrowded(ttlMs, log, i) <==> |StoredAfter(log, i)| < MAX_ENTRIES
  {
    forall n: nat | i < n <= |log|
      ensures |Behind(ttlMs, log[..n], i)| == |StoredAfter(log[..n], i)| <= |StoredAfter(log, i)|
    {
      BehindIsStoredAfter(ttlMs, log, now, i, n);
      FewerStoredBefore(log, i, n);
    }
    assert log[..|log|] == log;
  }

  lemma KeptIffRemembered<D>(ttlMs: int, log: seq<Event<D>>, key: string, now: int)
    requires ClockNeverGoesBack(log, now) && ttlMs > 0 && 0 <= LastStored(log, key)
    requires now - log[LastStored(log, key)].at < ttlMs
    ensures Kept(ttlMs, log, key) <==> Remembered(ttlMs, log, key, now)
  {
    LastStoredIsLast(log, key);
    YoungHasNotLapsed(ttlMs, log, key, now);
    UncrowdedIffFewStored(ttlMs, log, now, LastStored(log, key));
  }

  /**
   * Under a clock that never goes back, a lookup returns the decision of the key's last store since
   * the last clear exactly when that store is younger than the TTL and fewer than 1024 distinct other
   * keys were stored after it; otherwise it returns nothing.
   */
  lemma AnswersInOrder<D>(ttlMs: int, log: seq<Event<D>>, key: string, now: int)
    requires ClockNeverGoesBack(log, now)
    ensures Answer(After(ttlMs, log), ttlMs, key, now) ==
            if Remembered(ttlMs, log, key, now) then Some(log[LastStored(log, key)].decision) else None
  {
    AnswersAsTheLog(ttlMs, log, key, now);
    if ttlMs > 0 && 0 <= LastStored(log, key) && now - log[LastStored(log, key)].at < ttlMs {
      KeptIffRemembered(ttlMs, log, key, now);
    }
  }

  /** The entries are then ordered by the time they were written. */
  lemma OrderedByAge<D>(ttlMs: int, log: seq<Event<D>>, now: int)
    requires ClockNeverGoesBack(log, now)
    ensures var m := After(ttlMs, log);
            && WellFormed(m)
            && forall i, j :: 0 <= i < j < |m.order| ==>
                 m.entries[m.order[i]].storedAt <= m.entries[m.order[j]].storedAt
  {
    RunTracks(ttlMs, log);
    var m := After(ttlMs, log);
    forall i, j | 0 <= i < j < |m.order|
      ensures m.entries[m.order[i]].storedAt <= m.entries[m.order[j]].storedAt
    {
      assert m.order[i] in m.order && m.order[j] in m.order;
    }
  }

  ghost predicate LosesAtMostTheOldest<D>(full: map<string, Entry<D>>, kept: map<string, Entry<D>>, key: string) {
    if |full.Keys| <= 1024 then kept == full
    else exists oldest :: oldest != key && oldest in full && kept == full - {oldest} &&
                          forall k :: k in full ==> full[oldest].storedAt <= full[k].storedAt
  }

  /** And none is older than the one that a store evicts. */
  lemma EvictsAtMostTheOldest<D>(ttlMs: int, log: seq<Event<D>>, key: string, decision: D, now: int)
    requires ClockNeverGoesBack(log, now) && ttlMs > 0
    ensures LosesAtMostTheOldest(After(ttlMs, log).entries[key := Entry(decision, now)],
                                 After(ttlMs, log + [Stored(key, decision, now)]).entries, key)
  {
    var m, e := After(ttlMs, log), Stored(key, decision, now);
    EvictsAtMostTheFirst(ttlMs, log, key, decision, now);
    RunTracks(ttlMs, log);
    InsertAccurate(m, log, key, decision, now);
    FirstIsOldest(m.entries[key := Entry(decision, now)], After(ttlMs, log + [e]).entries, log + [e], now, key);
  }

  lemma FirstIsOldest<D>(full: map<string, Entry<D>>, kept: map<string, Entry<D>>, log: seq<Event<D>>, now: int,
                         key: string)
    requires ClockNeverGoesBack(log, now) && LosesAtMostTheFirst(full, kept, log, key)
    requires forall k :: k in full ==>
               var i := LastStored(log, k); 0 <= i && full[k] == Entry(log[i].decision, log[i].at)
    ensures LosesAtMostTheOldest(full, kept, key)
  {
    if |full.Keys| > MAX_ENTRIES {
      var first :| first != key && LostOnlyTheFirst(full, kept, log, first);
      assert forall k :: k in full ==> full[first].storedAt <= full[k].storedAt;
    }
  }
}
