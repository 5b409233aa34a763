/**
 * The replay-protected message consumer. `Deliver` is the part of a delivery that
 * runs before the handler is awaited; many handlers may be pending at once, and each
 * later ends by `HandlerOk` or `HandlerFail`.
 */
module AmqpConsumer {
  import opened Common
  import opened NonceStore

  // ---------- Messages and outcomes ----------

  datatype IssuedAt = NotText | NotADate | At(ms: int)

  /**
   * What a message body parses to. A member of the wrong type is `None`/`NotText`;
   * `signature` carries the verdict of the HMAC comparison when one is present.
   */
  datatype Content =
    | Unparseable
    | NullLiteral
    | Body(signature: Option<bool>, keyVersion: Option<real>, issuedAt: IssuedAt, nonce: Option<string>)

  datatype RejectReason = BadKeyVersion | BadIssuedAt | BadNonce

  datatype Settlement = Ack(id: nat) | Nack(id: nat, allUpTo: bool, requeue: bool)

  datatype Config = Config(strict: bool, skewMs: int)

  predicate Verified(cfg: Config, content: Content) {
    content.Body? && if content.signature.Some? then content.signature.value else !cfg.strict
  }

  function Abs(x: int): int { if x < 0 then -x else x }

  // ---------- The three gates ----------

  datatype Gated = Gated(reason: Option<RejectReason>, seen: map<string, int>)

  /** The gates in the program's order; only the last one touches the store. */
  function Gates(content: Content, skewMs: int, seen: map<string, int>, freshAt: int, recordAt: int): Gated
    requires content.Body?
  {
    if content.keyVersion.None? || content.keyVersion.value < 2.0 then Gated(Some(BadKeyVersion), seen)
    else if !content.issuedAt.At? || Abs(freshAt - content.issuedAt.ms) > skewMs then Gated(Some(BadIssuedAt), seen)
    else if content.nonce.None? || content.nonce.value == "" then Gated(Some(BadNonce), seen)
    else
      var checked := Check(seen, content.nonce.value, skewMs * 2, recordAt);
      Gated(if checked.replay then Some(BadNonce) else None, checked.seen)
  }

  method CheckReplayProtection(content: Content, skewMs: int, store: InMemoryNonceStore,
                               freshAt: int, recordAt: int)
    returns (reason: Option<RejectReason>)
    requires content.Body?
    modifies store
    ensures Gated(reason, store.seenUntilMs) ==
            Gates(content, skewMs, old(store.seenUntilMs), freshAt, recordAt)
  {
    if content.keyVersion.None? || content.keyVersion.value < 2.0 {
      return Some(BadKeyVersion);
    }
    if !content.issuedAt.At? || Abs(freshAt - content.issuedAt.ms) > skewMs {
      return Some(BadIssuedAt);
    }
    if content.nonce.None? || content.nonce.value == "" {
      return Some(BadNonce);
    }
    var replay := store.CheckAndRecord(content.nonce.value, skewMs * 2, recordAt);
    if replay {
      return Some(BadNonce);
    }
    return None;
  }

  // ---------- The transition system ----------

  /** One delivery as history keeps it: both clock readings, and whether the handler was started. */
  datatype Delivery = Delivery(content: Content, freshAt: int, recordAt: int, handled: bool)

  datatype State = State(
    seen: map<string, int>,
    deliveries: seq<Delivery>,
    pending: set<nat>,
    channel: seq<Settlement>)

  datatype Step =
    | Deliver(content: Content, freshAt: int, recordAt: int)
    | HandlerOk(id: nat)
    | HandlerFail(id: nat)

  function Init(): State {
    State(map[], [], {}, [])
  }

  /** A delivery may read any times, as the clock may step back; only a started handler can end, once. */
  predicate Enabled(s: State, step: Step) {
    match step
    case Deliver(_, _, _) => true
    case HandlerOk(id) => id in s.pending
    case HandlerFail(id) => id in s.pending
  }

  function Take(cfg: Config, s: State, step: Step): State {
    match step
    case Deliver(content, freshAt, recordAt) =>
      var id := |s.deliveries|;
      var refused := s.(deliveries := s.deliveries + [Delivery(content, freshAt, recordAt, false)],
                        channel := s.channel + [Nack(id, false, false)]);
      if content.Unparseable? then refused
      else if content.NullLiteral? then refused.(channel := s.channel)  // throws before any settlement
      else if !Verified(cfg, content) then refused
      else
        var gated := Gates(content, cfg.skewMs, s.seen, freshAt, recordAt);
        if gated.reason.Some? then refused.(seen := gated.seen)
        else State(gated.seen, s.deliveries + [Delivery(content, freshAt, recordAt, true)],
                   s.pending + {id}, s.channel)
    case HandlerOk(id) =>
      s.(pending := s.pending - {id}, channel := s.channel + [Ack(id)])
    case HandlerFail(id) =>
      s.(pending := s.pending - {id}, channel := s.channel + [Nack(id, false, false)])
  }

  function Run(cfg: Config, steps: seq<Step>): State {
    if steps == [] then Init()
    else Take(cfg, Run(cfg, steps[..|steps| - 1]), steps[|steps| - 1])
  }

  predicate Possible(cfg: Config, steps: seq<Step>) {
    steps == [] ||
    (Possible(cfg, steps[..|steps| - 1]) &&
     Enabled(Run(cfg, steps[..|steps| - 1]), steps[|steps| - 1]))
  }

  // ---------- The consumer, updated in place ----------

  class Consumer {
    const cfg: Config
    const store: InMemoryNonceStore
    var pending: set<nat>
    var channel: seq<Settlement>
    var received: nat
    ghost var deliveries: seq<Delivery>

    ghost predicate Valid()
      reads this
    {
      received == |deliveries|
    }

    ghost function Now(): State
      reads this, store
    {
      State(store.seenUntilMs, deliveries, pending, channel)
    }

    constructor (cfg: Config)
      ensures Valid() && fresh(store) && this.cfg == cfg && Now() == Init()
    {
      this.cfg := cfg;
      store := new InMemoryNonceStore();
      pending, channel, received := {}, [], 0;
      deliveries := [];
    }

    /** A delivery up to the point where its handler is awaited, or to its refusal. */
    method VerifyAndDispatch(content: Content, freshAt: int, recordAt: int)
      requires Valid()
      modifies this, store
      ensures Valid() && Now() == Take(cfg, old(Now()), Deliver(content, freshAt, recordAt))
    {
      var id := received;
      received := received + 1;
      deliveries := deliveries + [Delivery(content, freshAt, recordAt, false)];
      if content.NullLiteral? {
        return;
      }
      if content.Unparseable? {
        channel := channel + [Nack(id, false, false)];
        return;
      }
      var verified := if content.signature.Some? then content.signature.value else !cfg.strict;
      if !verified {
        channel := channel + [Nack(id, false, false)];
        return;
      }
      var reason := CheckReplayProtection(content, cfg.skewMs, store, freshAt, recordAt);
      if reason.Some? {
        channel := channel + [Nack(id, false, false)];
        return;
      }
      deliveries := deliveries[id := Delivery(content, freshAt, recordAt, true)];
      pending := pending + {id};
    }

    /** The awaited handler of delivery `id` settles; `ok` tells how. */
    method HandlerSettled(id: nat, ok: bool)
      requires Valid() && id in pending
      modifies this
      ensures Valid() && Now() == Take(cfg, old(Now()), if ok then HandlerOk(id) else HandlerFail(id))
    {
      pending := pending - {id};
      channel := channel + [if ok then Ack(id) else Nack(id, false, false)];
    }
  }

  // ---------- Replay protection over whole runs ----------

  /** Key version, issue date and nonce are all of the accepted form. */
  predicate WellFormed(content: Content) {
    && content.Body?
    && content.keyVersion.Some? && content.keyVersion.value >= 2.0
    && content.issuedAt.At?
    && content.nonce.Some? && content.nonce.value != ""
  }

  predicate InWindow(cfg: Config, d: Delivery)
    requires WellFormed(d.content)
  {
    d.content.issuedAt.ms - cfg.skewMs <= d.freshAt <= d.content.issuedAt.ms + cfg.skewMs
  }

  predicate Repeats(earlier: Delivery, later: Delivery) {
    && WellFormed(earlier.content) && WellFormed(later.content)
    && earlier.content.nonce == later.content.nonce
  }

  /** The delivery gets as far as asking the store for its nonce. */
  predicate AsksStore(cfg: Config, d: Delivery) {
    Verified(cfg, d.content) && WellFormed(d.content) && InWindow(cfg, d)
  }

  function EndOf(cfg: Config, d: Delivery): int {
    d.recordAt + 2 * cfg.skewMs
  }

  /**
   * The handled delivery `i` still stands in the way of `j`: neither `j` nor any delivery in between
   * that asked the store read a time at or past the end of its recording.
   */
  predicate StandsInTheWay(cfg: Config, ds: seq<Delivery>, i: nat, j: nat)
    requires i < j < |ds|
  {
    && ds[i].handled && Repeats(ds[i], ds[j])
    && forall k :: i < k <= j && AsksStore(cfg, ds[k]) ==> ds[k].recordAt < EndOf(cfg, ds[i])
  }

  /** When the handler is started, told by the history of deliveries alone. */
  ghost predicate HandledExactly(cfg: Config, ds: seq<Delivery>, j: nat)
    requires j < |ds|
  {
    ds[j].handled <==> AsksStore(cfg, ds[j]) && !exists i :: 0 <= i < j && StandsInTheWay(cfg, ds, i, j)
  }

  /**
   * The gates pass a verified delivery exactly when it is well formed, fresh and not live in the
   * store; otherwise the first condition that fails is the one named.
   */
  lemma GatesPassIff(content: Content, skewMs: int, seen: map<string, int>, freshAt: int, recordAt: int)
    requires content.Body?
    ensures var gated := Gates(content, skewMs, seen, freshAt, recordAt);
            var asked := WellFormed(content) &&
                         content.issuedAt.ms - skewMs <= freshAt <= content.issuedAt.ms + skewMs;
            && (gated.reason.None? <==>
                  asked && !Check(seen, content.nonce.value, 2 * skewMs, recordAt).replay)
            && gated.seen ==
               if asked then Check(seen, content.nonce.value, 2 * skewMs, recordAt).seen else seen
    ensures var reason := Gates(content, skewMs, seen, freshAt, recordAt).reason;
            var keyed := content.keyVersion.Some? && content.keyVersion.value >= 2.0;
            && (reason == Some(BadKeyVersion) <==> !keyed)
            && (reason == Some(BadIssuedAt) <==>
                  keyed && !(content.issuedAt.At? &&
                             content.issuedAt.ms - skewMs <= freshAt <= content.issuedAt.ms + skewMs))
  {
  }

  /** The verdict on the delivery and the store it leaves behind. */
  predicate Judged(cfg: Config, seen: map<string, int>, d: Delivery, seen': map<string, int>) {
    if AsksStore(cfg, d)
    then Check(seen, d.content.nonce.value, 2 * cfg.skewMs, d.recordAt) == Checked(!d.handled, seen')
    else !d.handled && seen' == seen
  }

  lemma DeliverIsJudged(cfg: Config, s: State, content: Content, freshAt: int, recordAt: int)
    ensures var s' := Take(cfg, s, Deliver(content, freshAt, recordAt));
            && |s'.deliveries| == |s.deliveries| + 1
            && var d := s'.deliveries[|s.deliveries|];
               s'.deliveries == s.deliveries + [d] && d.freshAt == freshAt && d.recordAt == recordAt
               && Judged(cfg, s.seen, d, s'.seen)
  {
    if Verified(cfg, content) {
      GatesPassIff(content, cfg.skewMs, s.seen, freshAt, recordAt);
    }
  }

  /** The deliveries as the store's history keeps them. */
  function AskedOf(cfg: Config, d: Delivery): Asked {
    if AsksStore(cfg, d) then Asked(d.content.nonce.value, d.recordAt, EndOf(cfg, d), d.handled) else NotAsked
  }

  function History(cfg: Config, ds: seq<Delivery>): seq<Asked> {
    seq(|ds|, i requires 0 <= i < |ds| => AskedOf(cfg, ds[i]))
  }

  lemma HistoryAppend(cfg: Config, ds: seq<Delivery>, d: Delivery)
    ensures History(cfg, ds + [d]) == History(cfg, ds) + [AskedOf(cfg, d)]
  {
  }

  /** The store holds the recordings of the handled deliveries that stand, and every verdict was right. */
  ghost predicate ReplayInv(cfg: Config, seen: map<string, int>, ds: seq<Delivery>) {
    && HoldsTheStanding(seen, History(cfg, ds))
    && (forall j :: 0 <= j < |ds| && ds[j].handled ==> AsksStore(cfg, ds[j]))
    && (forall j :: 0 <= j < |ds| ==> HandledExactly(cfg, ds, j))
  }

  /** Appending a delivery leaves the earlier verdicts alone. */
  lemma EarlierVerdictsStand(cfg: Config, ds: seq<Delivery>, d: Delivery, j: nat)
    requires j < |ds| && HandledExactly(cfg, ds, j)
    ensures HandledExactly(cfg, ds + [d], j)
  {
    var ds' := ds + [d];
    assert forall i :: 0 <= i <= j ==> ds'[i] == ds[i];
    forall i: nat | i < j
      ensures StandsInTheWay(cfg, ds', i, j) <==> StandsInTheWay(cfg, ds, i, j)
    {
    }
  }

  lemma StandsByHistory(cfg: Config, ds: seq<Delivery>, d: Delivery, i: nat)
    requires i < |ds| && AsksStore(cfg, d)
    requires forall j :: 0 <= j < |ds| && ds[j].handled ==> AsksStore(cfg, ds[j])
    ensures var h := History(cfg, ds);
            StandsInTheWay(cfg, ds + [d], i, |ds|) <==>
            Stands(h, i) && h[i].nonce == d.content.nonce.value && d.recordAt < h[i].end
  {
    var ds', h := ds + [d], History(cfg, ds);
    assert ds'[|ds|] == d && forall k :: 0 <= k < |ds| ==> ds'[k] == ds[k] && h[k] == AskedOf(cfg, ds[k]);
  }

  lemma StandsAgainstByHistory(cfg: Config, ds: seq<Delivery>, d: Delivery)
    requires AsksStore(cfg, d)
    requires forall j :: 0 <= j < |ds| && ds[j].handled ==> AsksStore(cfg, ds[j])
    ensures (exists i :: 0 <= i < |ds| && StandsInTheWay(cfg, ds + [d], i, |ds|)) <==>
            StandsAgainst(History(cfg, ds), d.content.nonce.value, d.recordAt)
  {
    forall i: nat | i < |ds|
      ensures var h := History(cfg, ds);
              StandsInTheWay(cfg, ds + [d], i, |ds|) <==>
              Stands(h, i) && h[i].nonce == d.content.nonce.value && d.recordAt < h[i].end
    {
      StandsByHistory(cfg, ds, d, i);
    }
  }

  lemma JudgedKeepsReplayInv(cfg: Config, seen: map<string, int>, ds: seq<Delivery>, d: Delivery,
                             seen': map<string, int>)
    requires ReplayInv(cfg, seen, ds) && Judged(cfg, seen, d, seen')
    ensures ReplayInv(cfg, seen', ds + [d])
  {
    var ds' := ds + [d];
    HistoryAppend(cfg, ds, d);
    JudgedRightly(cfg, seen, ds, d, seen');
    JudgedLeavesTheStanding(cfg, seen, History(cfg, ds), d, seen');
    forall j: nat | j < |ds'|
      ensures HandledExactly(cfg, ds', j)
    {
      if j < |ds| {
        EarlierVerdictsStand(cfg, ds, d, j);
      }
    }
  }

  lemma JudgedRightly(cfg: Config, seen: map<string, int>, ds: seq<Delivery>, d: Delivery, seen': map<string, int>)
    requires ReplayInv(cfg, seen, ds) && Judged(cfg, seen, d, seen')
    ensures HandledExactly(cfg, ds + [d], |ds|)
  {
    if AsksStore(cfg, d) {
      StandsAgainstByHistory(cfg, ds, d);
      RepliesByTheStanding(seen, History(cfg, ds), d.content.nonce.value, 2 * cfg.skewMs, d.recordAt);
    }
  }

  lemma JudgedLeavesTheStanding(cfg: Config, seen: map<string, int>, history: seq<Asked>, d: Delivery,
                                seen': map<string, int>)
    requires HoldsTheStanding(seen, history) && Judged(cfg, seen, d, seen')
    ensures HoldsTheStanding(seen', history + [AskedOf(cfg, d)])
  {
    if AsksStore(cfg, d) {
      CheckHolds(seen, history, d.content.nonce.value, 2 * cfg.skewMs, d.recordAt);
    } else {
      NotAskedHolds(seen, history);
    }
  }

  lemma {:induction false} ReplayInvHolds(cfg: Config, steps: seq<Step>)
    requires Possible(cfg, steps)
    ensures var s := Run(cfg, steps); ReplayInv(cfg, s.seen, s.deliveries)
  {
    if steps != [] {
      var k := |steps| - 1;
      var s, s' := Run(cfg, steps[..k]), Run(cfg, steps);
      ReplayInvHolds(cfg, steps[..k]);
      match steps[k]
      case Deliver(content, freshAt, recordAt) =>
        DeliverIsJudged(cfg, s, content, freshAt, recordAt);
        JudgedKeepsReplayInv(cfg, s.seen, s.deliveries, s'.deliveries[|s.deliveries|], s'.seen);
      case _ =>
    }
  }

  /**
   * In every run, with a clock that may step back, a delivery reaches the handler exactly when it is
   * verified, well formed and fresh, and no earlier handled delivery of its nonce stands in the way.
   */
  lemma HandledIff(cfg: Config, steps: seq<Step>, j: nat)
    requires Possible(cfg, steps) && j < |Run(cfg, steps).deliveries|
    ensures HandledExactly(cfg, Run(cfg, steps).deliveries, j)
  {
    ReplayInvHolds(cfg, steps);
  }

  /** A clock that steps back between two copies can undo the protection in the middle of the window. */
  lemma ClockSteppingBackRepeats()
    ensures var cfg := Config(true, 5);
            var m := Body(Some(true), Some(2.0), At(5), Some("n"));
            var other := Body(Some(true), Some(2.0), At(12), Some("o"));
            var steps := [Deliver(m, 2, 2), Deliver(other, 12, 12), Deliver(m, 5, 5)];
            var ds := Run(cfg, steps).deliveries;
            Possible(cfg, steps) && |ds| == 3 && ds[0].handled && ds[2].handled
  {
    var cfg := Config(true, 5);
    var m := Body(Some(true), Some(2.0), At(5), Some("n"));
    var other := Body(Some(true), Some(2.0), At(12), Some("o"));
    var steps := [Deliver(m, 2, 2), Deliver(other, 12, 12), Deliver(m, 5, 5)];
    var one, two := steps[..1], steps[..2];
    assert two[..1] == one && one[..0] == [] && steps[2] == Deliver(m, 5, 5);
    assert Possible(cfg, one[..0]) && Possible(cfg, one) && Possible(cfg, two);
    assert Run(cfg, one) == State(map["n" := 12], [Delivery(m, 2, 2, true)], {0}, []);
    assert Run(cfg, two).seen == map["o" := 22];
    assert Run(cfg, two).deliveries == [Delivery(m, 2, 2, true), Delivery(other, 12, 12, true)];
    assert Run(cfg, steps) == Take(cfg, Run(cfg, two), steps[2]);
  }

  // ---------- In plain terms ----------

  /**
   * What one delivery does: it enters the history as it came; only a body whose signature verified, or
   * an unsigned one in lenient mode, is handled; any other body gets one nack and leaves the store alone.
   */
  lemma OnlyVerifiedIsHandled(cfg: Config, s: State, content: Content, freshAt: int, recordAt: int)
    ensures var s', id := Take(cfg, s, Deliver(content, freshAt, recordAt)), |s.deliveries|;
            && |s'.deliveries| == id + 1 && s'.deliveries[..id] == s.deliveries
            && var d := s'.deliveries[id];
               && d == Delivery(content, freshAt, recordAt, d.handled)
               && s'.pending == (if d.handled then s.pending + {id} else s.pending)
               && s'.channel == (if d.handled || content.NullLiteral? then s.channel
                                 else s.channel + [Nack(id, false, false)])
               && (d.handled ==>
                     && content.Body?
                     && (content.signature == Some(true) || (content.signature.None? && !cfg.strict)))
               && (!content.Body? || content.signature == Some(false) || (content.signature.None? && cfg.strict) ==>
                     !d.handled && s'.seen == s.seen)
  {
  }

  /** Which deliveries ask the store: verified, of key version 2 or later, fresh, with a nonce. */
  lemma AsksStoreIff(cfg: Config, d: Delivery)
    ensures AsksStore(cfg, d) <==>
            && d.content.Body?
            && (d.content.signature == Some(true) || (d.content.signature.None? && !cfg.strict))
            && d.content.keyVersion.Some? && 2.0 <= d.content.keyVersion.value
            && d.content.issuedAt.At? && -cfg.skewMs <= d.freshAt - d.content.issuedAt.ms <= cfg.skewMs
            && d.content.nonce.Some? && d.content.nonce.value != ""
  {
  }

  /** The deliveries of a run are its `Deliver` steps, in order, with their contents and readings. */
  function Delivered(steps: seq<Step>): seq<Step> {
    if steps == [] then []
    else
      var last := steps[|steps| - 1];
      Delivered(steps[..|steps| - 1]) + if last.Deliver? then [last] else []
  }

  lemma {:induction false} DeliveriesAreOfSteps(cfg: Config, steps: seq<Step>)
    ensures var ds, came := Run(cfg, steps).deliveries, Delivered(steps);
            |ds| == |came| &&
            forall j :: 0 <= j < |ds| ==> came[j] == Deliver(ds[j].content, ds[j].freshAt, ds[j].recordAt)
  {
    if steps != [] {
      DeliveriesAreOfSteps(cfg, steps[..|steps| - 1]);
    }
  }

  /** A delivery after `i`, up to `j`, asked the store two skews after the recording of `i` or later. */
  ghost predicate Outlived(cfg: Config, ds: seq<Delivery>, i: nat, j: nat)
    requires i < j < |ds|
  {
    exists k :: i < k <= j && AsksStore(cfg, ds[k]) && ds[i].recordAt + 2 * cfg.skewMs <= ds[k].recordAt
  }

  /** The whole condition under which delivery `j` is to be handled. */
  ghost predicate ToBeHandled(cfg: Config, ds: seq<Delivery>, j: nat)
    requires j < |ds|
  {
    var body := ds[j].content;
    && body.Body?
    && (body.signature == Some(true) || (body.signature.None? && !cfg.strict))
    && body.keyVersion.Some? && 2.0 <= body.keyVersion.value
    && body.issuedAt.At? && -cfg.skewMs <= ds[j].freshAt - body.issuedAt.ms <= cfg.skewMs
    && body.nonce.Some? && body.nonce.value != ""
    && forall i :: 0 <= i < j && ds[i].handled && ds[i].content.Body? && ds[i].content.nonce == body.nonce ==>
                     Outlived(cfg, ds, i, j)
  }

  /** `HandledIff` with its conditions written out. */
  lemma HandledInPlainTerms(cfg: Config, steps: seq<Step>, j: nat)
    requires Possible(cfg, steps) && j < |Run(cfg, steps).deliveries|
    ensures Run(cfg, steps).deliveries[j].handled <==> ToBeHandled(cfg, Run(cfg, steps).deliveries, j)
  {
    ReplayInvHolds(cfg, steps);
    PlainTerms(cfg, Run(cfg, steps).deliveries, j);
  }

  lemma PlainTerms(cfg: Config, ds: seq<Delivery>, j: nat)
    requires j < |ds| && HandledExactly(cfg, ds, j)
    requires forall i :: 0 <= i < |ds| && ds[i].handled ==> AsksStore(cfg, ds[i])
    ensures ds[j].handled <==> ToBeHandled(cfg, ds, j)
  {
    AsksStoreIff(cfg, ds[j]);
    if AsksStore(cfg, ds[j]) {
      forall i: nat | i < j
        ensures StandsInTheWay(cfg, ds, i, j) <==>
                && ds[i].handled && ds[i].content.Body? && ds[i].content.nonce == ds[j].content.nonce
                && !Outlived(cfg, ds, i, j)
      {
      }
    }
  }

  /** Nothing ever blocks: any delivery can come next, and every pending handler can end, either way. */
  lemma NothingBlocks(cfg: Config, steps: seq<Step>, next: Step)
    requires Possible(cfg, steps)
    ensures next.Deliver? || next.id in Run(cfg, steps).pending ==> Possible(cfg, steps + [next])
  {
    assert (steps + [next])[..|steps|] == steps;
  }

  // ---------- Runs whose clock never goes back ----------

  ghost predicate InOrder(ds: seq<Delivery>) {
    && (forall i :: 0 <= i < |ds| ==> ds[i].freshAt <= ds[i].recordAt)
    && forall i, j :: 0 <= i < j < |ds| ==> ds[i].recordAt <= ds[j].freshAt
  }

  /** The readings in between do not matter then. */
  ghost predicate HandledExactlyInOrder(cfg: Config, ds: seq<Delivery>, j: nat)
    requires j < |ds|
  {
    ds[j].handled <==>
      && AsksStore(cfg, ds[j])
      && forall i :: 0 <= i < j && ds[i].handled && Repeats(ds[i], ds[j]) ==> EndOf(cfg, ds[i]) <= ds[j].recordAt
  }

  lemma ExactlyInOrder(cfg: Config, ds: seq<Delivery>, j: nat)
    requires InOrder(ds) && j < |ds| && HandledExactly(cfg, ds, j)
    ensures HandledExactlyInOrder(cfg, ds, j)
  {
    if AsksStore(cfg, ds[j]) {
      forall i: nat | i < j && ds[i].handled && Repeats(ds[i], ds[j])
        ensures StandsInTheWay(cfg, ds, i, j) <==> ds[j].recordAt < EndOf(cfg, ds[i])
      {
        assert forall k :: i < k < j ==> ds[k].recordAt <= ds[j].freshAt <= ds[j].recordAt;
      }
    }
  }

  /**
   * Under a clock that never goes back a delivery reaches the handler exactly when it is verified,
   * well formed, fresh, and every earlier handled delivery of its nonce was recorded at least two
   * skews before.
   */
  lemma HandledIffInOrder(cfg: Config, steps: seq<Step>, j: nat)
    requires Possible(cfg, steps) && j < |Run(cfg, steps).deliveries| && InOrder(Run(cfg, steps).deliveries)
    ensures HandledExactlyInOrder(cfg, Run(cfg, steps).deliveries, j)
  {
    HandledIff(cfg, steps, j);
    ExactlyInOrder(cfg, Run(cfg, steps).deliveries, j);
  }

  /** Two handled deliveries of one nonce lie two skews apart, and the later one straddles its window's end. */
  lemma RepeatsAreTwoSkewsApart(cfg: Config, steps: seq<Step>, i: nat, j: nat)
    requires Possible(cfg, steps) && InOrder(Run(cfg, steps).deliveries)
    requires i < j < |Run(cfg, steps).deliveries|
    requires var ds := Run(cfg, steps).deliveries;
             ds[i].handled && ds[j].handled && Repeats(ds[i], ds[j])
    ensures var ds := Run(cfg, steps).deliveries;
            && ds[i].recordAt + 2 * cfg.skewMs <= ds[j].recordAt
            && (ds[i].content.issuedAt == ds[j].content.issuedAt ==>
                  ds[j].freshAt <= ds[j].content.issuedAt.ms + cfg.skewMs <= ds[j].recordAt)
            && (ds[i].content.issuedAt == ds[j].content.issuedAt && OneReading(ds[j]) ==>
                  && ds[i].freshAt == ds[i].recordAt == ds[j].content.issuedAt.ms - cfg.skewMs
                  && ds[j].recordAt == ds[j].content.issuedAt.ms + cfg.skewMs)
  {
    HandledIffInOrder(cfg, steps, i);
    HandledIffInOrder(cfg, steps, j);
  }

  /** Message `j` is the same message as the handled `i`, and no message with its nonce was handled in between. */
  ghost predicate FirstRepeat(ds: seq<Delivery>, i: nat, j: nat)
    requires i < j < |ds|
  {
    && ds[i].handled && WellFormed(ds[i].content) && ds[j].content == ds[i].content
    && forall k :: i < k < j && ds[k].handled ==> !Repeats(ds[k], ds[j])
  }

  predicate OneReading(d: Delivery) {
    d.freshAt == d.recordAt
  }

  /** Nothing handled before the first repeat stands in its way but the message itself. */
  lemma OnlyTheFirstCopyMatters(cfg: Config, ds: seq<Delivery>, i: nat, j: nat)
    requires i < j < |ds| && FirstRepeat(ds, i, j) && InOrder(ds)
    requires HandledExactlyInOrder(cfg, ds, i) && HandledExactlyInOrder(cfg, ds, j)
    ensures ds[j].handled <==> InWindow(cfg, ds[j]) && ds[i].recordAt + 2 * cfg.skewMs <= ds[j].recordAt
  {
    assert Repeats(ds[i], ds[j]);
    forall k | 0 <= k < j && k != i && ds[k].handled && Repeats(ds[k], ds[j])
      ensures ds[k].recordAt + 2 * cfg.skewMs <= ds[i].recordAt <= ds[j].recordAt
    {
      assert k < i && Repeats(ds[k], ds[i]);
    }
  }

  /**
   * With one clock reading per delivery, a repeated message is handled again exactly when
   * the two readings sit on the two ends of its window, to the millisecond.
   */
  lemma RepeatHandledIffOnBothEdges(cfg: Config, steps: seq<Step>, i: nat, j: nat)
    requires Possible(cfg, steps) && InOrder(Run(cfg, steps).deliveries)
    requires i < j < |Run(cfg, steps).deliveries|
    requires FirstRepeat(Run(cfg, steps).deliveries, i, j)
    requires OneReading(Run(cfg, steps).deliveries[i]) && OneReading(Run(cfg, steps).deliveries[j])
    requires cfg.skewMs > 0
    ensures var ds := Run(cfg, steps).deliveries;
            ds[j].handled <==>
              && ds[i].recordAt == ds[i].content.issuedAt.ms - cfg.skewMs
              && ds[j].recordAt == ds[i].content.issuedAt.ms + cfg.skewMs
  {
    HandledIffInOrder(cfg, steps, i);
    HandledIffInOrder(cfg, steps, j);
    FirstRepeatOnEdges(cfg, Run(cfg, steps).deliveries, i, j);
  }

  lemma FirstRepeatOnEdges(cfg: Config, ds: seq<Delivery>, i: nat, j: nat)
    requires i < j < |ds| && FirstRepeat(ds, i, j) && InOrder(ds)
    requires HandledExactlyInOrder(cfg, ds, i) && HandledExactlyInOrder(cfg, ds, j)
    requires OneReading(ds[i]) && OneReading(ds[j]) && cfg.skewMs > 0
    ensures ds[j].handled <==>
              && ds[i].recordAt == ds[i].content.issuedAt.ms - cfg.skewMs
              && ds[j].recordAt == ds[i].content.issuedAt.ms + cfg.skewMs
  {
    OnlyTheFirstCopyMatters(cfg, ds, i, j);
    OneInstantOfTwo(ds[i].recordAt, ds[j].recordAt, ds[i].content.issuedAt.ms, cfg.skewMs);
  }

  /** Within one window, two instants lie two skews apart only at its ends. */
  lemma OneInstantOfTwo(first: int, second: int, issued: int, skew: int)
    requires issued - skew <= first
    requires skew > 0
    ensures issued - skew <= second <= issued + skew && first + 2 * skew <= second <==>
            first == issued - skew && second == issued + skew
  {
  }

  /** So no message is ever handled three times, unless the third delivery itself lingers for two skews. */
  lemma NeverHandledThreeTimes(cfg: Config, steps: seq<Step>, i: nat, j: nat, k: nat)
    requires Possible(cfg, steps) && InOrder(Run(cfg, steps).deliveries)
    requires i < j < k < |Run(cfg, steps).deliveries|
    requires var ds := Run(cfg, steps).deliveries;
             && ds[i].content == ds[j].content == ds[k].content
             && ds[k].recordAt < ds[k].freshAt + 2 * cfg.skewMs
    ensures var ds := Run(cfg, steps).deliveries; !(ds[i].handled && ds[j].handled && ds[k].handled)
  {
    var ds := Run(cfg, steps).deliveries;
    HandledIffInOrder(cfg, steps, i);
    if ds[i].handled && ds[j].handled && ds[k].handled {
      RepeatsAreTwoSkewsApart(cfg, steps, i, j);
      RepeatsAreTwoSkewsApart(cfg, steps, j, k);
    }
  }

  /** The two edges do occur: this message reaches the handler twice. */
  lemma EdgeRepeatIsHandledTwice()
    ensures var cfg := Config(true, 5);
            var m := Body(Some(true), Some(2.0), At(5), Some("n"));
            var steps := [Deliver(m, 0, 0), Deliver(m, 10, 10)];
            Possible(cfg, steps) && |Run(cfg, steps).deliveries| == 2 &&
            Run(cfg, steps).deliveries[0].handled && Run(cfg, steps).deliveries[1].handled
  {
    var cfg := Config(true, 5);
    var m := Body(Some(true), Some(2.0), At(5), Some("n"));
    var steps := [Deliver(m, 0, 0), Deliver(m, 10, 10)];
    assert steps[..1] == [Deliver(m, 0, 0)] && steps[..1][..0] == [];
    assert Possible(cfg, steps[..1][..0]);
    assert Possible(cfg, steps[..1]);
    assert Run(cfg, steps[..1]).seen == map["n" := 10];
  }

  // ---------- Settlement over whole runs ----------

  function TimesSettled(channel: seq<Settlement>, id: nat): nat {
    if channel == [] then 0
    else
      TimesSettled(channel[..|channel| - 1], id) + if channel[|channel| - 1].id == id then 1 else 0
  }

  ghost predicate SettledExactly(s: State, id: nat)
    requires id < |s.deliveries|
  {
    && (id in s.pending ==> s.deliveries[id].handled)
    && (s.deliveries[id].handled ==> !s.deliveries[id].content.NullLiteral?)
    && TimesSettled(s.channel, id) ==
       if id in s.pending || s.deliveries[id].content.NullLiteral? then 0 else 1
  }

  ghost predicate CountInv(s: State) {
    && (forall id :: id in s.pending ==> id < |s.deliveries|)
    && (forall id :: 0 <= id < |s.deliveries| ==> SettledExactly(s, id))
    && (forall id: nat :: |s.deliveries| <= id ==> TimesSettled(s.channel, id) == 0)
    && (forall x :: x in s.channel && x.Nack? ==> !x.allUpTo && !x.requeue)
  }

  /** The delivery was refused before its handler was started. */
  predicate Refused(s: State, id: nat) {
    id < |s.deliveries| && !s.deliveries[id].handled && !s.deliveries[id].content.NullLiteral?
  }

  ghost predicate HistoryInv(s: State, steps: seq<Step>) {
    && (forall id: nat :: Ack(id) in s.channel <==> HandlerOk(id) in steps)
    && (forall id: nat :: Nack(id, false, false) in s.channel <==> HandlerFail(id) in steps || Refused(s, id))
    && (forall id: nat :: HandlerOk(id) in steps || HandlerFail(id) in steps || id in s.pending ==>
                            id < |s.deliveries| && s.deliveries[id].handled)
  }

  lemma SettlingOne(channel: seq<Settlement>, x: Settlement)
    ensures forall id: nat :: TimesSettled(channel + [x], id) ==
                              TimesSettled(channel, id) + if x.id == id then 1 else 0
  {
    assert (channel + [x])[..|channel|] == channel;
  }

  lemma DeliverKeepsCountInv(cfg: Config, s: State, step: Step)
    requires CountInv(s) && step.Deliver?
    ensures CountInv(Take(cfg, s, step))
  {
    var s', k := Take(cfg, s, step), |s.deliveries|;
    var d := s'.deliveries[k];
    assert s'.deliveries == s.deliveries + [d];
    assert s'.pending == if d.handled then s.pending + {k} else s.pending;
    assert s'.channel == s.channel + if d.handled || d.content.NullLiteral? then [] else [Nack(k, false, false)];
    assert d.handled ==> d.content.Body?;
    CountAppend(s, s', d);
  }

  lemma CountAppend(s: State, s': State, d: Delivery)
    requires CountInv(s) && s'.deliveries == s.deliveries + [d] && (d.handled ==> d.content.Body?)
    requires var k := |s.deliveries|;
             && s'.pending == (if d.handled then s.pending + {k} else s.pending)
             && s'.channel == s.channel + if d.handled || d.content.NullLiteral? then [] else [Nack(k, false, false)]
    ensures CountInv(s')
  {
    var k, quiet := |s.deliveries|, d.handled || d.content.NullLiteral?;
    forall id: nat
      ensures TimesSettled(s'.channel, id) == TimesSettled(s.channel, id) + if !quiet && id == k then 1 else 0
    {
      SettlingOne(s.channel, Nack(k, false, false));
      if quiet {
        assert s'.channel == s.channel;
      }
    }
    forall x | x in s'.channel && x.Nack?
      ensures !x.allUpTo && !x.requeue
    {
      assert x in s.channel || x == Nack(k, false, false);
    }
    forall id | 0 <= id < |s'.deliveries|
      ensures SettledExactly(s', id)
    {
      if id < k {
        assert SettledExactly(s, id);
      }
    }
  }

  lemma DeliverKeepsHistoryInv(cfg: Config, s: State, steps: seq<Step>, step: Step)
    requires HistoryInv(s, steps) && step.Deliver?
    ensures HistoryInv(Take(cfg, s, step), steps + [step])
  {
    var s', k := Take(cfg, s, step), |s.deliveries|;
    var d := s'.deliveries[k];
    assert s'.deliveries == s.deliveries + [d];
    assert s'.channel == s.channel + if d.handled || d.content.NullLiteral? then [] else [Nack(k, false, false)];
    assert s'.pending == if d.handled then s.pending + {k} else s.pending;
    assert forall y :: y in steps + [step] <==> y in steps || y == step;
    assert forall id: nat :: Refused(s', id) <==> Refused(s, id) || (id == k && s'.channel != s.channel);
  }

  lemma SettleKeepsCountInv(cfg: Config, s: State, step: Step)
    requires CountInv(s) && !step.Deliver? && Enabled(s, step)
    ensures CountInv(Take(cfg, s, step))
  {
    var s' := Take(cfg, s, step);
    var x := s'.channel[|s.channel|];
    SettlingOne(s.channel, x);
    assert s'.channel == s.channel + [x];
    assert SettledExactly(s, step.id);
    forall id | 0 <= id < |s'.deliveries|
      ensures SettledExactly(s', id)
    {
      assert SettledExactly(s, id);
    }
  }

  lemma SettleKeepsHistoryInv(cfg: Config, s: State, steps: seq<Step>, step: Step)
    requires HistoryInv(s, steps) && !step.Deliver? && Enabled(s, step)
    ensures HistoryInv(Take(cfg, s, step), steps + [step])
  {
    assert forall y :: y in steps + [step] <==> y in steps || y == step;
    assert forall id: nat :: Refused(Take(cfg, s, step), id) <==> Refused(s, id);
  }

  lemma {:induction false} ChannelInvHolds(cfg: Config, steps: seq<Step>)
    requires Possible(cfg, steps)
    ensures CountInv(Run(cfg, steps)) && HistoryInv(Run(cfg, steps), steps)
  {
    if steps != [] {
      var k := |steps| - 1;
      ChannelInvHolds(cfg, steps[..k]);
      var s := Run(cfg, steps[..k]);
      if steps[k].Deliver? {
        DeliverKeepsCountInv(cfg, s, steps[k]);
        DeliverKeepsHistoryInv(cfg, s, steps[..k], steps[k]);
      } else {
        SettleKeepsCountInv(cfg, s, steps[k]);
        SettleKeepsHistoryInv(cfg, s, steps[..k], steps[k]);
      }
      assert steps == steps[..k] + [steps[k]];
    }
  }

  /**
   * In every run and interleaving a delivery is settled at most once; a body that is the
   * literal `null` is never settled, a pending one not yet, and any other exactly once.
   */
  lemma SettledOnce(cfg: Config, steps: seq<Step>, id: nat)
    requires Possible(cfg, steps) && id < |Run(cfg, steps).deliveries|
    ensures var s := Run(cfg, steps);
            && (TimesSettled(s.channel, id) == 1 <==>
                  id !in s.pending && !s.deliveries[id].content.NullLiteral?)
            && (TimesSettled(s.channel, id) == 0 <==>
                  id in s.pending || s.deliveries[id].content.NullLiteral?)
  {
    ChannelInvHolds(cfg, steps);
    assert SettledExactly(Run(cfg, steps), id);
  }

  /**
   * Acked exactly when its handler was started and resolved; nacked, never with requeue,
   * exactly when the handler was refused to it or failed.
   */
  lemma AckedIffHandlerResolved(cfg: Config, steps: seq<Step>, id: nat)
    requires Possible(cfg, steps) && id < |Run(cfg, steps).deliveries|
    ensures var s := Run(cfg, steps);
            var d := s.deliveries[id];
            && HandledExactly(cfg, s.deliveries, id)
            && (Ack(id) in s.channel <==> d.handled && HandlerOk(id) in steps)
            && (Nack(id, false, false) in s.channel <==>
                  (!d.handled && !d.content.NullLiteral?) || HandlerFail(id) in steps)
            && forall x :: x in s.channel && x.id == id ==> x == Ack(id) || x == Nack(id, false, false)
  {
    ChannelInvHolds(cfg, steps);
    HandledIff(cfg, steps, id);
  }
}
