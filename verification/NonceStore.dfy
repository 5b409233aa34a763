/**
 * The in-memory store of message nonces. Expired entries are pruned in place on
 * every check. The model relates it to a log of recordings that is never pruned.
 */
module NonceStore {

  /** The result of one check: was the nonce still live, and what the store holds now. */
  datatype Checked = Checked(replay: bool, seen: map<string, int>)

  function Pruned(seen: map<string, int>, now: int): map<string, int> {
    map n | n in seen && seen[n] > now :: seen[n]
  }

  function Check(seen: map<string, int>, nonce: string, ttlMs: int, now: int): Checked {
    var kept := Pruned(seen, now);
    if nonce in kept && kept[nonce] > now then Checked(true, kept)
    else Checked(false, kept[nonce := now + ttlMs])
  }

  class InMemoryNonceStore {
    var seenUntilMs: map<string, int>

    constructor ()
      ensures seenUntilMs == map[]
    {
      seenUntilMs := map[];
    }

    method CheckAndRecord(nonce: string, ttlMs: int, now: int) returns (replay: bool)
      modifies this
      ensures Checked(replay, seenUntilMs) == Check(old(seenUntilMs), nonce, ttlMs, now)
    {
      Prune(now);
      if nonce in seenUntilMs && seenUntilMs[nonce] > now {
        return true;
      }
      seenUntilMs := seenUntilMs[nonce := now + ttlMs];
      return false;
    }

    method Prune(now: int)
      modifies this
      ensures seenUntilMs == Pruned(old(seenUntilMs), now)
    {
      var unvisited := seenUntilMs.Keys;
      while unvisited != {}
        invariant unvisited <= seenUntilMs.Keys <= old(seenUntilMs).Keys
        invariant forall n :: n in seenUntilMs ==> seenUntilMs[n] == old(seenUntilMs)[n]
        invariant forall n :: n in old(seenUntilMs) && n !in unvisited ==>
                                (n in seenUntilMs <==> old(seenUntilMs)[n] > now)
        decreases unvisited
      {
        var nonce :| nonce in unvisited;
        unvisited := unvisited - {nonce};
        if seenUntilMs[nonce] <= now {
          seenUntilMs := seenUntilMs - {nonce};
        }
      }
    }
  }

  // ---------- What a store holds, whatever the clock reads ----------

  /** One entry of a store's history: nothing, or a check, told whether it made a recording. */
  datatype Asked = NotAsked | Asked(nonce: string, at: int, end: int, recorded: bool)

  /** The recording was made, and no later check read a time at or past its end. */
  predicate Stands(history: seq<Asked>, j: nat)
    requires j < |history|
  {
    && history[j].Asked? && history[j].recorded
    && forall k :: j < k < |history| && history[k].Asked? ==> history[k].at < history[j].end
  }

  /** A recording of the nonce that stands has not run out at this reading either. */
  ghost predicate StandsAgainst(history: seq<Asked>, nonce: string, now: int) {
    exists j :: 0 <= j < |history| && Stands(history, j) && history[j].nonce == nonce && now < history[j].end
  }

  predicate Held(seen: map<string, int>, a: Asked) {
    a.Asked? && a.nonce in seen && seen[a.nonce] == a.end
  }

  ghost predicate Traced(history: seq<Asked>, nonce: string) {
    exists j :: 0 <= j < |history| && Stands(history, j) && history[j].nonce == nonce
  }

  /** The store holds exactly the recordings that stand, each with its end. */
  ghost predicate HoldsTheStanding(seen: map<string, int>, history: seq<Asked>) {
    && (forall j :: 0 <= j < |history| && Stands(history, j) ==> Held(seen, history[j]))
    && (forall n :: n in seen ==> Traced(history, n))
  }

  lemma StandsAppend(history: seq<Asked>, a: Asked, j: nat)
    requires j < |history|
    ensures Stands(history + [a], j) <==> Stands(history, j) && (a.Asked? ==> a.at < history[j].end)
  {
    var history' := history + [a];
    assert history'[|history|] == a && forall k :: 0 <= k < |history| ==> history'[k] == history[k];
  }

  lemma NotAskedHolds(seen: map<string, int>, history: seq<Asked>)
    requires HoldsTheStanding(seen, history)
    ensures HoldsTheStanding(seen, history + [NotAsked])
  {
    forall j: nat | j < |history|
      ensures Stands(history + [NotAsked], j) <==> Stands(history, j)
    {
      StandsAppend(history, NotAsked, j);
    }
    forall n | n in seen
      ensures Traced(history + [NotAsked], n)
    {
      var j :| 0 <= j < |history| && Stands(history, j) && history[j].nonce == n;
      assert Stands(history + [NotAsked], j);
    }
  }

  lemma RepliesByTheStanding(seen: map<string, int>, history: seq<Asked>, nonce: string, ttlMs: int, now: int)
    requires HoldsTheStanding(seen, history)
    ensures Check(seen, nonce, ttlMs, now).replay <==> StandsAgainst(history, nonce, now)
  {
  }

  /** One check answers by what stands, and leaves what stands then. */
  lemma CheckHolds(seen: map<string, int>, history: seq<Asked>, nonce: string, ttlMs: int, now: int)
    requires HoldsTheStanding(seen, history)
    ensures var checked := Check(seen, nonce, ttlMs, now);
            && (checked.replay <==> StandsAgainst(history, nonce, now))
            && HoldsTheStanding(checked.seen, history + [Asked(nonce, now, now + ttlMs, !checked.replay)])
  {
    var checked := Check(seen, nonce, ttlMs, now);
    var a := Asked(nonce, now, now + ttlMs, !checked.replay);
    RepliesByTheStanding(seen, history, nonce, ttlMs, now);
    StandingIsKept(seen, history, a);
    KeptIsStanding(seen, history, a);
  }

  lemma StandingIsKept(seen: map<string, int>, history: seq<Asked>, a: Asked)
    requires HoldsTheStanding(seen, history) && a.Asked?
    requires a.recorded <==> !StandsAgainst(history, a.nonce, a.at)
    requires a.recorded <==> !Check(seen, a.nonce, a.end - a.at, a.at).replay
    ensures var seen', history' := Check(seen, a.nonce, a.end - a.at, a.at).seen, history + [a];
            forall j :: 0 <= j < |history'| && Stands(history', j) ==> Held(seen', history'[j])
  {
    var history' := history + [a];
    forall j: nat | j < |history| && Stands(history', j)
      ensures Stands(history, j) && a.at < history[j].end && (a.recorded ==> history[j].nonce != a.nonce)
    {
      StandsAppend(history, a, j);
    }
  }

  lemma KeptIsStanding(seen: map<string, int>, history: seq<Asked>, a: Asked)
    requires HoldsTheStanding(seen, history) && a.Asked?
    requires a.recorded <==> !Check(seen, a.nonce, a.end - a.at, a.at).replay
    ensures var seen', history' := Check(seen, a.nonce, a.end - a.at, a.at).seen, history + [a];
            forall n :: n in seen' ==> Traced(history', n)
  {
    var seen', history' := Check(seen, a.nonce, a.end - a.at, a.at).seen, history + [a];
    forall n | n in seen'
      ensures Traced(history', n)
    {
      if n == a.nonce && a.recorded {
        assert Stands(history', |history|);
      } else {
        var j :| 0 <= j < |history| && Stands(history, j) && history[j].nonce == n;
        StandsAppend(history, a, j);
        assert Stands(history', j);
      }
    }
  }

  // ---------- Whole runs of one store ----------

  datatype Call = Call(nonce: string, ttlMs: int, now: int)

  function EndOf(c: Call): int {
    c.now + c.ttlMs
  }

  /** What the pruning store holds after the first `n` calls. */
  function SeenAfter(calls: seq<Call>, n: nat): map<string, int>
    requires n <= |calls|
  {
    if n == 0 then map[]
    else Check(SeenAfter(calls, n - 1), calls[n - 1].nonce, calls[n - 1].ttlMs, calls[n - 1].now).seen
  }

  /** The answer of the pruning store to call `i`. */
  function Reply(calls: seq<Call>, i: nat): bool
    requires i < |calls|
  {
    Check(SeenAfter(calls, i), calls[i].nonce, calls[i].ttlMs, calls[i].now).replay
  }

  ghost predicate Answers(calls: seq<Call>, replies: seq<bool>) {
    && |replies| == |calls|
    && forall i {:trigger Reply(calls, i)} :: 0 <= i < |calls| ==> replies[i] == Reply(calls, i)
  }

  /** The history of the first `n` calls. */
  function History(calls: seq<Call>, replies: seq<bool>, n: nat): seq<Asked>
    requires n <= |calls| == |replies|
  {
    seq(n, i requires 0 <= i < n => Asked(calls[i].nonce, calls[i].now, EndOf(calls[i]), !replies[i]))
  }

  lemma {:induction false} RunHolds(calls: seq<Call>, replies: seq<bool>, n: nat)
    requires Answers(calls, replies) && n <= |calls|
    ensures HoldsTheStanding(SeenAfter(calls, n), History(calls, replies, n))
  {
    if n > 0 {
      var c, before := calls[n - 1], History(calls, replies, n - 1);
      RunHolds(calls, replies, n - 1);
      assert replies[n - 1] == Reply(calls, n - 1);
      assert History(calls, replies, n) == before + [Asked(c.nonce, c.now, EndOf(c), !replies[n - 1])];
      CallHolds(SeenAfter(calls, n - 1), before, c, SeenAfter(calls, n), History(calls, replies, n));
    }
  }

  lemma CallHolds(seen: map<string, int>, history: seq<Asked>, c: Call, seen': map<string, int>, history': seq<Asked>)
    requires HoldsTheStanding(seen, history)
    requires seen' == Check(seen, c.nonce, c.ttlMs, c.now).seen
    requires history' == history + [Asked(c.nonce, c.now, EndOf(c), !Check(seen, c.nonce, c.ttlMs, c.now).replay)]
    ensures HoldsTheStanding(seen', history')
  {
    CheckHolds(seen, history, c.nonce, c.ttlMs, c.now);
  }

  /** Call `j` recorded the nonce that call `i` asks about, and its end lies after every reading since. */
  predicate Guards(calls: seq<Call>, j: nat, i: nat)
    requires j < i < |calls|
  {
    && !Reply(calls, j) && calls[j].nonce == calls[i].nonce
    && forall k :: j < k <= i ==> calls[k].now < EndOf(calls[j])
  }

  lemma GuardsByStanding(calls: seq<Call>, replies: seq<bool>, j: nat, i: nat)
    requires Answers(calls, replies) && j < i < |calls|
    ensures var h := History(calls, replies, i);
            Guards(calls, j, i) <==> Stands(h, j) && h[j].nonce == calls[i].nonce && calls[i].now < h[j].end
  {
    var h := History(calls, replies, i);
    assert replies[j] == Reply(calls, j);
    assert forall k :: 0 <= k < i ==> calls[k].now == h[k].at;
  }

  lemma RepliesByTheGuards(calls: seq<Call>, replies: seq<bool>, i: nat)
    requires Answers(calls, replies) && i < |calls|
    ensures Reply(calls, i) <==> exists j :: 0 <= j < i && Guards(calls, j, i)
  {
    var c, h := calls[i], History(calls, replies, i);
    RunHolds(calls, replies, i);
    RepliesByTheStanding(SeenAfter(calls, i), h, c.nonce, c.ttlMs, c.now);
    forall j: nat | j < i
      ensures Guards(calls, j, i) <==> Stands(h, j) && h[j].nonce == c.nonce && c.now < h[j].end
    {
      GuardsByStanding(calls, replies, j, i);
    }
  }

  /**
   * In every run, with a clock that may step back: a check says replay exactly when some earlier
   * recording of the nonce has run out neither now nor at any reading in between.
   */
  lemma ReplayIff(calls: seq<Call>, i: nat)
    requires i < |calls|
    ensures Reply(calls, i) <==> exists j :: 0 <= j < i && Guards(calls, j, i)
  {
    RepliesByTheGuards(calls, seq(|calls|, k requires 0 <= k < |calls| => Reply(calls, k)), i);
  }

  // ---------- The log that is never pruned ----------

  datatype Recording = Recording(nonce: string, at: int, ttlMs: int)

  /** Some recording of the nonce has not yet run out at `now`. */
  ghost predicate Live(log: seq<Recording>, nonce: string, now: int) {
    exists i :: 0 <= i < |log| && log[i].nonce == nonce && log[i].at + log[i].ttlMs > now
  }

  /** From instant `now` on, the store and the log answer every question alike. */
  ghost predicate Refines(seen: map<string, int>, log: seq<Recording>, now: int) {
    forall nonce, t :: now <= t ==> ((nonce in seen && seen[nonce] > t) <==> Live(log, nonce, t))
  }

  /** One check answers as the log does, and adds a recording exactly when it answers no. */
  lemma CheckRefines(seen: map<string, int>, log: seq<Recording>, last: int,
                     nonce: string, ttlMs: int, now: int)
    requires Refines(seen, log, last) && last <= now
    ensures Check(seen, nonce, ttlMs, now).replay <==> Live(log, nonce, now)
    ensures Refines(Check(seen, nonce, ttlMs, now).seen,
                    if Live(log, nonce, now) then log else log + [Recording(nonce, now, ttlMs)],
                    now)
  {
    var checked := Check(seen, nonce, ttlMs, now);
    assert (nonce in seen && seen[nonce] > now) <==> Live(log, nonce, now);
    if !checked.replay {
      var log' := log + [Recording(nonce, now, ttlMs)];
      forall n, t | now <= t
        ensures (n in checked.seen && checked.seen[n] > t) <==> Live(log', n, t)
      {
        assert (n in seen && seen[n] > t) <==> Live(log, n, t);
        if Live(log, n, t) {
          var i :| 0 <= i < |log| && log[i].nonce == n && log[i].at + log[i].ttlMs > t;
          assert log'[i] == log[i];
          assert Live(log, n, now);
        }
        if n == nonce && now + ttlMs > t {
          assert log'[|log|].nonce == n;
        }
      }
    }
  }

  // ---------- Whole runs under a clock that never goes back ----------

  predicate ClockNeverGoesBack(calls: seq<Call>) {
    forall i, j :: 0 <= i < j < |calls| ==> calls[i].now <= calls[j].now
  }

  /** What a store that only ever appends would have logged in the first `n` calls. */
  ghost function LogAfter(calls: seq<Call>, n: nat): seq<Recording>
    requires n <= |calls|
  {
    if n == 0 then []
    else
      var c, log := calls[n - 1], LogAfter(calls, n - 1);
      if Live(log, c.nonce, c.now) then log else log + [Recording(c.nonce, c.now, c.ttlMs)]
  }

  lemma {:induction false} RunRefines(calls: seq<Call>, n: nat, now: int)
    requires ClockNeverGoesBack(calls) && n <= |calls|
    requires n > 0 ==> calls[n - 1].now <= now
    ensures Refines(SeenAfter(calls, n), LogAfter(calls, n), now)
  {
    if n > 0 {
      var c := calls[n - 1];
      RunRefines(calls, n - 1, c.now);
      CheckRefines(SeenAfter(calls, n - 1), LogAfter(calls, n - 1), c.now, c.nonce, c.ttlMs, c.now);
    }
  }

  /** Pruning is then invisible: every answer in every run is the answer of the full log. */
  lemma PruningIsInvisible(calls: seq<Call>, i: nat)
    requires ClockNeverGoesBack(calls) && i < |calls|
    ensures Reply(calls, i) <==> Live(LogAfter(calls, i), calls[i].nonce, calls[i].now)
  {
    var c := calls[i];
    RunRefines(calls, i, c.now);
    CheckRefines(SeenAfter(calls, i), LogAfter(calls, i), c.now, c.nonce, c.ttlMs, c.now);
  }

  /** A recording is added exactly when the answer is no. */
  lemma RecordsExactlyTheNew(calls: seq<Call>, i: nat)
    requires ClockNeverGoesBack(calls) && i < |calls|
    ensures LogAfter(calls, i + 1) ==
            LogAfter(calls, i) +
            if Reply(calls, i) then [] else [Recording(calls[i].nonce, calls[i].now, calls[i].ttlMs)]
  {
    PruningIsInvisible(calls, i);
  }

  /** Right after a call nothing expired is left, whatever the clock read before. */
  lemma NothingExpiredIsHeld(calls: seq<Call>, n: nat, nonce: string)
    requires 0 < n <= |calls| && calls[n - 1].ttlMs > 0 && nonce in SeenAfter(calls, n)
    ensures SeenAfter(calls, n)[nonce] > calls[n - 1].now
  {
  }

  /** The store never outgrows the live nonces: an expired entry is gone after the next call. */
  lemma HoldsOnlyLiveNonces(calls: seq<Call>, n: nat, nonce: string)
    requires ClockNeverGoesBack(calls) && 0 < n <= |calls| && calls[n - 1].ttlMs > 0
    ensures nonce in SeenAfter(calls, n) <==> Live(LogAfter(calls, n), nonce, calls[n - 1].now)
  {
    RunRefines(calls, n, calls[n - 1].now);
    if nonce in SeenAfter(calls, n) {
      NothingExpiredIsHeld(calls, n, nonce);
    }
  }

  /** A clock that steps back is enough to forget a nonce that is still live. */
  lemma ClockSteppingBackForgets()
    ensures var calls := [Call("n", 10, 0), Call("m", 10, 10), Call("n", 10, 5)];
            Live(LogAfter(calls, 2), "n", 5) && !Reply(calls, 2)
  {
    var calls := [Call("n", 10, 0), Call("m", 10, 10), Call("n", 10, 5)];
    assert LogAfter(calls, 0) == [] && SeenAfter(calls, 0) == map[];
    assert LogAfter(calls, 1) == [Recording("n", 0, 10)];
    assert LogAfter(calls, 2)[0] == Recording("n", 0, 10);
    assert SeenAfter(calls, 1) == map["n" := 10];
    assert SeenAfter(calls, 2) == map["m" := 20];
  }
}
